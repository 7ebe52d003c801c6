/**
 * The parsers of Parser.c and the validators of User.c as written: a cursor into the text that loops advance
 * and failures restore, each proved against its function in Identifiers.
 */
module IdentifierParser {
  import opened Characters
  import opened Options
  import opened Identifiers

  // Extending a run by one more character, and ending it.
  ghost predicate InRun(t: string, start: nat, pos: nat, kind: Kind) {
    start <= pos <= |t| && forall k :: start <= k < pos ==> Is(kind, t[k])
  }

  lemma RunEnds(t: string, start: nat, pos: nat, kind: Kind)
    requires InRun(t, start, pos, kind) && (pos < |t| ==> !Is(kind, t[pos]))
    ensures Run(t[start..], kind) == pos - start
  {
    RunIs(t[start..], kind, pos - start);
  }

  // Iterate(str): the character under the cursor; the cursor then stands behind it.
  method ParseUserLocalpart(t: string, start: nat) returns (out: Option<string>, pos: nat)
    requires start <= |t|
    ensures out.None? <==> Localpart(t[start..]).None?
    ensures out.None? ==> pos == start
    ensures out.Some? ==> Localpart(t[start..]) == Some((out.value, pos - start)) && start < pos
  {
    pos := start;
    var c := At(t, pos);
    pos := pos + 1;
    while c as int < 128 && c != ':' && c != NUL
      invariant start < pos <= |t| + 1 && c == At(t, pos - 1)
      invariant InRun(t, start, pos - 1, LocalChars)
      decreases |t| + 1 - pos
    {
      c := At(t, pos);
      pos := pos + 1;
    }
    RunEnds(t, start, pos - 1, LocalChars);
    var length := pos - start - 1;
    if length < 1 {
      return None, start;
    }
    if c == ':' {
      pos := pos - 1;
    }
    out := Some(t[start..start + length]);
    assert t[start..][..length] == t[start..start + length];
    assert At(t[start..], length) == c;
  }

  method ParseHostname(t: string, start: nat) returns (out: Option<string>, pos: nat)
    requires start <= |t|
    ensures out.None? <==> Hostname(t[start..]).None?
    ensures out.None? ==> pos == start
    ensures out.Some? ==> start <= pos <= |t| && out.value == t[start..pos] && Hostname(t[start..]) == Some(pos - start)
  {
    var length := 0;
    pos := start;
    var c := At(t, pos);
    pos := pos + 1;
    while c != NUL && IsHostChar(c) && length < 255
      invariant start < pos <= |t| + 1 && c == At(t, pos - 1)
      invariant length == pos - 1 - start <= 255
      invariant InRun(t, start, pos - 1, HostChars)
      decreases |t| + 1 - pos
    {
      length := length + 1;
      c := At(t, pos);
      pos := pos + 1;
    }
    if c != NUL && IsHostChar(c) {
      length := length + 1;
    }
    if length < 1 || length > 255 {
      return None, start;
    }
    RunEnds(t, start, pos - 1, HostChars);
    length := pos - start - 1;
    out := Some(t[start..start + length]);
    pos := pos - 1;
  }

  // Where the digits and dots from start end.
  ghost function QuadEnd(t: string, start: nat): (end: nat)
    requires start <= |t|
    ensures start <= end <= |t|
    ensures forall k :: start <= k < end ==> IsDigitOrDot(t[k])
    ensures end < |t| ==> !IsDigitOrDot(t[end])
    ensures IPv4(t[start..]) == if Quad(t[start..end], DOTS) then Some(end - start) else None
  {
    var n := Run(t[start..], DigitsAndDots);
    assert forall k :: start <= k < start + n ==> t[k] == t[start..][k - start];
    assert t[start..][..n] == t[start..start + n];
    start + n
  }

  // The loop of ParseIPv4 as a recursion: the index it stops at, if it does not fail.
  ghost function Scan(t: string, p: nat, digit: nat, digits: nat): Option<nat>
    requires digit <= p <= |t|
    decreases |t| - p
  {
    if p == |t| || !IsDigitOrDot(t[p]) || digits >= 4 then
      if digits == 3 then Some(p) else None
    else if IsDigit(t[p]) then Scan(t, p + 1, digit + 1, digits)
    else if !IsGroup(t[p - digit..p]) then None
    else Scan(t, p + 1, 0, digits + 1)
  }

  method ParseIPv4(t: string, start: nat) returns (out: Option<string>, pos: nat)
    requires start <= |t|
    ensures out.None? <==> IPv4(t[start..]).None?
    ensures out.None? ==> pos == start
    ensures out.Some? ==> start <= pos <= |t| && out.value == t[start..pos] && IPv4(t[start..]) == Some(pos - start)
  {
    ScanIsIPv4(t, start, 0);
    var end := ScanQuad(t, start, 0);
    if end.None? {
      return None, start;
    }
    pos := end.value;
    out := Some(t[start..pos]);
  }

  // The loop of ParseIPv4 and the test behind it. zero is 0: given as a literal, it would have the verifier unfold Scan
  // over the whole text.
  method ScanQuad(t: string, start: nat, ghost zero: nat) returns (end: Option<nat>)
    requires start <= |t| && zero == 0
    ensures end == Scan(t, start, zero, zero)
  {
    var digit: nat, digits: nat := 0, 0;
    var pos := start;
    var c := At(t, pos);
    pos := pos + 1;
    while IsDigitOrDot(c) && c != NUL && digits < 4
      invariant start < pos <= |t| + 1 && c == At(t, pos - 1)
      invariant digit <= pos - 1 - start && 0 <= digits <= 4
      invariant forall k :: pos - 1 - digit <= k < pos - 1 ==> IsDigit(t[k])
      invariant Scan(t, start, zero, zero) == Scan(t, pos - 1, digit, digits)
      decreases |t| + 1 - pos
    {
      var ok;
      ok, digit, digits := QuadTurn(t, pos - 1, digit, digits);
      if !ok {
        return None;
      }
      c := At(t, pos);
      pos := pos + 1;
    }
    if c == '.' || digits != 3 {
      return None;
    }
    return Some(pos - 1);
  }

  // One turn of the loop: count a digit, or check the group that a dot ends.
  method QuadTurn(t: string, at: nat, digit: nat, digits: nat) returns (ok: bool, digit': nat, digits': nat)
    requires digit <= at < |t| && IsDigitOrDot(t[at]) && digits < 4
    requires forall k :: at - digit <= k < at ==> IsDigit(t[k])
    ensures digit' <= digit + 1 && digits' <= 4
    ensures ok ==> forall k :: at + 1 - digit' <= k < at + 1 ==> IsDigit(t[k])
    ensures Scan(t, at, digit, digits) == if ok then Scan(t, at + 1, digit', digits') else None
  {
    if IsDigit(t[at]) {
      ScanDigit(t, at, digit, digits);
      return true, digit + 1, digits;
    }
    ScanDot(t, at, digit, digits);
    if digit < 1 || digit > 3 {
      return false, 0, digits;
    }
    if Value(t[at - digit..at]) > 255 {
      return false, 0, digits;
    }
    return true, 0, digits + 1;
  }

  // zero is 0 here too.
  lemma ScanIsIPv4(t: string, start: nat, zero: nat)
    requires start <= |t| && zero == 0
    ensures IPv4(t[start..]).None? ==> Scan(t, start, zero, zero) == None
    ensures IPv4(t[start..]).Some? ==> Scan(t, start, zero, zero) == Some(start + IPv4(t[start..]).value)
  {
    var end := QuadEnd(t, start);
    ScanIsQuad(t, start, start, end, DOTS, zero);
  }

  // One turn of the loop on a digit, on a dot, and with too many dots.
  lemma ScanDigit(t: string, p: nat, digit: nat, digits: nat)
    requires digit <= p < |t| && IsDigit(t[p]) && digits < 4
    ensures Scan(t, p, digit, digits) == Scan(t, p + 1, digit + 1, digits)
  {
  }

  lemma ScanDot(t: string, p: nat, digit: nat, digits: nat)
    requires digit <= p < |t| && t[p] == '.' && digits < 4
    ensures Scan(t, p, digit, digits) == if IsGroup(t[p - digit..p]) then Scan(t, p + 1, 0, digits + 1) else None
  {
  }

  lemma ScanTooMany(t: string, p: nat, digit: nat, digits: nat)
    requires digit <= p <= |t| && digits >= 4
    ensures Scan(t, p, digit, digits) == None
  {
  }

  lemma ScanAtEnd(t: string, p: nat, digit: nat, digits: nat)
    requires digit <= p <= |t| && (p < |t| ==> !IsDigitOrDot(t[p]))
    ensures Scan(t, p, digit, digits) == if digits == 3 then Some(p) else None
  {
  }

  // Scanning from index p in the middle of a group stops at the end of the run exactly when the rest is a quad.
  ghost predicate ScansQuad(t: string, group: nat, p: nat, end: nat, left: nat, digits: nat)
    requires group <= p <= end <= |t|
  {
    Scan(t, p, p - group, digits) == if Quad(t[group..end], left) then Some(end) else None
  }

  lemma {:induction false} ScanIsQuad(t: string, group: nat, p: nat, end: nat, left: nat, digits: nat)
    requires group <= p <= end <= |t| && left + digits == 3
    requires forall k :: group <= k < p ==> IsDigit(t[k])
    requires forall k :: p <= k < end ==> IsDigitOrDot(t[k])
    requires end < |t| ==> !IsDigitOrDot(t[end])
    ensures ScansQuad(t, group, p, end, left, digits)
    decreases end - p
  {
    if p == end {
      EndIsQuad(t, group, end, left, digits);
    } else if IsDigit(t[p]) {
      ScanIsQuad(t, group, p + 1, end, left, digits);
      DigitIsQuad(t, group, p, end, left, digits);
    } else {
      if left > 0 { ScanIsQuad(t, p + 1, p + 1, end, left - 1, digits + 1); }
      DotIsQuad(t, group, p, end, left, digits);
    }
  }

  lemma EndIsQuad(t: string, group: nat, end: nat, left: nat, digits: nat)
    requires group <= end <= |t| && left + digits == 3
    requires forall k :: group <= k < end ==> IsDigit(t[k])
    requires end < |t| ==> !IsDigitOrDot(t[end])
    ensures ScansQuad(t, group, end, end, left, digits)
  {
    QuadAtEnd(t, group, end, left);
    ScanAtEnd(t, end, end - group, digits);
  }

  lemma DigitIsQuad(t: string, group: nat, p: nat, end: nat, left: nat, digits: nat)
    requires group <= p < end <= |t| && left + digits == 3 && IsDigit(t[p])
    requires ScansQuad(t, group, p + 1, end, left, digits)
    ensures ScansQuad(t, group, p, end, left, digits)
  {
    ScanDigit(t, p, p - group, digits);
  }

  lemma DotIsQuad(t: string, group: nat, p: nat, end: nat, left: nat, digits: nat)
    requires group <= p < end <= |t| && left + digits == 3
    requires (forall k :: group <= k < p ==> IsDigit(t[k])) && t[p] == '.'
    requires left > 0 ==> ScansQuad(t, p + 1, p + 1, end, left - 1, digits + 1)
    ensures ScansQuad(t, group, p, end, left, digits)
  {
    ScanDot(t, p, p - group, digits);
    QuadStep(t, group, p, end, left);
    if left == 0 { ScanTooMany(t, p + 1, 0, digits + 1); }
  }

  lemma QuadAtEnd(t: string, group: nat, end: nat, left: nat)
    requires group <= end <= |t|
    requires forall k :: group <= k < end ==> IsDigit(t[k])
    ensures Quad(t[group..end], left) <==> left == 0
  {
    if left > 0 { RunIs(t[group..end], Digits, end - group); }
  }

  // What the first dot, at index n, says about a quad.
  lemma QuadAtDot(s: string, n: nat, groups: nat)
    requires n < |s| && (forall k :: 0 <= k < n ==> IsDigit(s[k])) && s[n] == '.'
    ensures groups == 0 ==> !Quad(s, groups)
    ensures groups > 0 ==> (Quad(s, groups) <==> IsGroup(s[..n]) && Quad(s[n + 1..], groups - 1))
  {
    RunIs(s, Digits, n);
  }

  lemma QuadStep(t: string, group: nat, dot: nat, end: nat, groups: nat)
    requires group <= dot < end <= |t|
    requires (forall k :: group <= k < dot ==> IsDigit(t[k])) && t[dot] == '.'
    ensures groups == 0 ==> !Quad(t[group..end], groups)
    ensures groups > 0 ==>
      (Quad(t[group..end], groups) <==> IsGroup(t[group..dot]) && Quad(t[dot + 1..end], groups - 1))
  {
    var s, n := t[group..end], dot - group;
    QuadAtDot(s, n, groups);
    assert s[..n] == t[group..dot] && s[n + 1..] == t[dot + 1..end];
  }

  // One turn of the ParseIPv6 loop on each kind of character.
  lemma IPv6Hex(t: string, p: nat, filled: bool, digit: nat, digits: nat)
    requires digit <= p < |t| && IsHexDigit(t[p]) && digits < 8
    ensures IPv6Loop(t, p, filled, digit, digits) == IPv6Loop(t, p + 1, filled, digit + 1, digits)
  {
  }

  lemma IPv6Colons(t: string, p: nat, filled: bool, digit: nat, digits: nat)
    requires digit <= p && p + 1 < |t| && t[p] == ':' && t[p + 1] == ':' && digits < 8
    ensures IPv6Loop(t, p, filled, digit, digits) == if filled then None else IPv6Loop(t, p + 2, true, 0, digits)
  {
  }

  lemma IPv6Colon(t: string, p: nat, filled: bool, digit: nat, digits: nat)
    requires digit <= p < |t| && t[p] == ':' && At(t, p + 1) != ':' && digits < 8
    ensures IPv6Loop(t, p, filled, digit, digits)
         == if digit < 1 || digit > 4 then None else IPv6Loop(t, p + 1, filled, 0, digits + 1)
  {
  }

  lemma IPv6Dot(t: string, p: nat, filled: bool, digit: nat, digits: nat)
    requires digit <= p < |t| && t[p] == '.' && digits < 8
    ensures IPv4(t[p - digit..]).None? ==> IPv6Loop(t, p, filled, digit, digits) == None
    ensures IPv4(t[p - digit..]).Some? ==>
      IPv6Loop(t, p, filled, digit, digits) == Some(p - digit + IPv4(t[p - digit..]).value)
  {
  }

  lemma IPv6End(t: string, p: nat, filled: bool, digit: nat, digits: nat)
    requires digit <= p <= |t| && (At(t, p) == NUL || !IsIPv6Char(At(t, p)) || digits >= 8)
    ensures IPv6Loop(t, p, filled, digit, digits) == Some(p)
  {
  }

  // The literal at the front of t. An embedded IPv4 address that does not parse fails the literal.
  method ParseIPv6(t: string) returns (out: Option<string>, pos: nat)
    ensures out.None? <==> IPv6(t).None?
    ensures out.None? ==> pos == 0
    ensures out.Some? ==> pos <= |t| && out.value == t[..pos] && IPv6(t) == Some(pos)
  {
    if At(t, 0) != '[' {
      return None, 0;
    }
    var end := ParseIPv6Body(t);
    if end.None? {
      return None, 0;
    }
    pos := end.value;
    if At(t, pos) != ']' {
      return None, 0;
    }
    pos := pos + 1;
    if pos < 4 || pos > 47 {
      return None, 0;
    }
    out := Some(t[..pos]);
  }

  // The loop behind the bracket; the index of the character that ends it.
  method ParseIPv6Body(t: string) returns (end: Option<nat>)
    requires |t| > 0
    ensures end == IPv6Loop(t, 1, false, 0, 0)
  {
    var pos := 1;
    var filled := false;
    var digit: nat, digits: nat := 0, 0;
    ghost var loop := IPv6Loop(t, pos, filled, digit, digits);
    var c := At(t, pos);
    pos := pos + 1;
    while c != NUL && IsIPv6Char(c) && digits < 8
      invariant 1 < pos <= |t| + 1 && digit < pos && c == At(t, pos - 1)
      invariant loop == IPv6Loop(t, pos - 1, filled, digit, digits)
      decreases |t| + 1 - pos
    {
      if IsHexDigit(c) {
        IPv6Hex(t, pos - 1, filled, digit, digits);
        digit := digit + 1;
      } else if c == ':' {
        var ok;
        ok, pos, filled, digits := ColonTurn(t, pos, filled, digit, digits);
        if !ok {
          return None;
        }
        digit := 0;
      } else {
        end := ParseEmbedded(t, pos, filled, digit, digits);
        return;
      }
      c := At(t, pos);
      pos := pos + 1;
    }
    IPv6End(t, pos - 1, filled, digit, digits);
    end := Some(pos - 1);
  }

  // Behind a colon: a second one fills up the address, once; a single one ends a group of one to four digits.
  method ColonTurn(t: string, pos: nat, filled: bool, digit: nat, digits: nat)
    returns (ok: bool, pos': nat, filled': bool, digits': nat)
    requires digit < pos <= |t| && t[pos - 1] == ':' && digits < 8
    ensures pos <= pos' <= |t|
    ensures IPv6Loop(t, pos - 1, filled, digit, digits) == if ok then IPv6Loop(t, pos', filled', 0, digits') else None
  {
    if At(t, pos) == ':' {
      IPv6Colons(t, pos - 1, filled, digit, digits);
      return !filled, pos + 1, true, digits;
    }
    IPv6Colon(t, pos - 1, filled, digit, digits);
    return 1 <= digit <= 4, pos, filled, digits + 1;
  }

  // Behind a dot: go back to the start of the group and read an IPv4 address, which ends the literal.
  method ParseEmbedded(t: string, pos: nat, ghost filled: bool, digit: nat, ghost digits: nat)
    returns (end: Option<nat>)
    requires digit < pos <= |t| && t[pos - 1] == '.' && digits < 8
    ensures end == IPv6Loop(t, pos - 1, filled, digit, digits)
  {
    var start := pos - (digit + 1);
    IPv6Dot(t, pos - 1, filled, digit, digits);
    var ipv4, stop := ParseIPv4(t, start);
    end := if ipv4.Some? then Some(stop) else None;
  }

  // IPv4, else IPv6, else a host name.
  method ParseHost(t: string) returns (host: Option<string>, pos: nat)
    ensures host.None? <==> Host(t).None?
    ensures host.Some? ==> pos <= |t| && Host(t) == Some(pos) && host.value == t[..pos]
  {
    assert t[0..] == t;
    host, pos := ParseIPv4(t, 0);
    if host.None? {
      host, pos := ParseIPv6(t);
    }
    if host.None? {
      host, pos := ParseHostname(t, 0);
    }
  }

  method ParseServerName(t: string) returns (part: Option<ServerPart>)
    ensures part == ServerName(t)
  {
    var host, pos := ParseHost(t);
    if host.None? {
      return None;
    }
    if At(t, pos) != ':' {
      return Some(ServerPart(host.value, None));
    }
    var startPort := pos + 1;
    var chars := ParsePort(t, startPort);
    if chars < 1 || chars > 5 {
      return None;
    }
    var port := t[startPort..startPort + chars];
    assert t[startPort..][..chars] == port;
    if Value(port) > 65535 {
      return None;
    }
    return Some(ServerPart(host.value, Some(port)));
  }

  // The loop over the port: at most five digits are taken.
  method ParsePort(t: string, start: nat) returns (chars: nat)
    requires start <= |t|
    ensures chars == PortLength(t[start..])
  {
    var pos := start;
    chars := 0;
    var c := At(t, pos);
    pos := pos + 1;
    while IsDigit(c) && chars < 4
      invariant start < pos <= |t| + 1 && c == At(t, pos - 1)
      invariant chars == pos - 1 - start <= 4
      invariant InRun(t, start, pos - 1, Digits)
      decreases |t| + 1 - pos
    {
      chars := chars + 1;
      c := At(t, pos);
      pos := pos + 1;
    }
    if IsDigit(c) {
      chars := chars + 1;
      FiveDigits(t, start);
    } else {
      RunEnds(t, start, pos - 1, Digits);
    }
  }

  lemma FiveDigits(t: string, start: nat)
    requires start + 5 <= |t| && forall k :: start <= k < start + 5 ==> IsDigit(t[k])
    ensures Run(t[start..], Digits) >= 5
  {
    RunAtLeast(t[start..], Digits, 5);
  }

  lemma {:induction false} RunAtLeast(t: string, kind: Kind, n: nat)
    requires n <= |t| && forall k :: 0 <= k < n ==> Is(kind, t[k])
    ensures Run(t, kind) >= n
  {
    if n > 0 { RunAtLeast(t[1..], kind, n - 1); }
  }

  method ParseCommonID(str: string) returns (id: Option<CommonId>)
    ensures id == ParseCommonId(str)
  {
    if |str| < 2 {
      return None;
    }
    var sigil, t := str[0], str[1..];
    if (sigil == '#' || sigil == '@') && |t| > 255 {
      return None;
    }
    match sigil
    case '$' => id := ParseEventId(sigil, t);
    case '!' => id := ParseLocalAndServer(sigil, t);
    case '#' => id := ParseLocalAndServer(sigil, t);
    case '@' => id := ParseLocalAndServer(sigil, t);
    case _ => id := Some(CommonId(sigil, None, None));
  }

  method ParseEventId(sigil: char, t: string) returns (id: Option<CommonId>)
    ensures id == EventId(sigil, t)
  {
    assert t[0..] == t;
    var local, pos := ParseUserLocalpart(t, 0);
    if local.None? || At(t, pos) == ':' {
      return None;
    }
    return Some(CommonId(sigil, local, None));
  }

  lemma LocalThenServer(sigil: char, t: string, local: string, i: nat, server: Option<ServerPart>)
    requires Localpart(t) == Some((local, i)) && i < |t| && t[i] == ':' && server == ServerName(t[i + 1..])
    ensures LocalAndServer(sigil, t) == if server.None? then None else Some(CommonId(sigil, Some(local), server))
  {
  }

  lemma LocalWithoutServer(sigil: char, t: string)
    requires Localpart(t).Some? ==> At(t, Localpart(t).value.1) != ':'
    ensures LocalAndServer(sigil, t) == None
  {
  }

  method ParseLocalAndServer(sigil: char, t: string) returns (id: Option<CommonId>)
    ensures id == LocalAndServer(sigil, t)
  {
    assert t[0..] == t;
    var local, pos := ParseUserLocalpart(t, 0);
    if local.None? || At(t, pos) != ':' {
      LocalWithoutServer(sigil, t);
      return None;
    }
    var server := ParseServerName(t[pos + 1..]);
    LocalThenServer(sigil, t, local.value, pos, server);
    if server.None? {
      return None;
    }
    return Some(CommonId(sigil, local, server));
  }

  // The two validators differ only in their alphabets.
  method UserValidate(localpart: string, domain: string) returns (ok: bool)
    ensures ok <==> UserName(localpart, domain)
  {
    var maxLen := MaxLen(domain);
    var i := 0;
    while i < |localpart|
      invariant 0 <= i <= |localpart|
      invariant i > 0 ==> i - 1 <= maxLen
      invariant forall k :: 0 <= k < i ==> IsUserChar(localpart[k])
    {
      var c := localpart[i];
      assert c in localpart;
      if i > maxLen {
        return false;
      }
      if !IsUserChar(c) {
        return false;
      }
      i := i + 1;
    }
    return true;
  }

  method UserHistoricalValidate(localpart: string, domain: string) returns (ok: bool)
    ensures ok <==> HistoricalName(localpart, domain)
  {
    var maxLen := MaxLen(domain);
    var i := 0;
    while i < |localpart|
      invariant 0 <= i <= |localpart|
      invariant i > 0 ==> i - 1 <= maxLen
      invariant forall k :: 0 <= k < i ==> IsHistoricalChar(localpart[k])
    {
      var c := localpart[i];
      assert c in localpart;
      if i > maxLen {
        return false;
      }
      if !IsHistoricalChar(c) {
        return false;
      }
      i := i + 1;
    }
    return true;
  }

  method UserIdParse(id: string, defaultServer: string) returns (userId: Option<CommonId>)
    ensures userId == ParseUserId(id, defaultServer)
  {
    if At(id, 0) == '@' {
      userId := ParseCommonID(id);
      if userId.None? || userId.value.server.None? {
        return None;
      }
    } else {
      var part := ParseServerName(defaultServer);
      if part.None? {
        return None;
      }
      userId := Some(CommonId(NUL, Some(id), part));
    }
    CommonIdComplete(id);
    var server := Recompose(userId.value.server.value);
    var ok := UserHistoricalValidate(userId.value.local.value, server);
    if !ok {
      return None;
    }
  }

  lemma CommonIdComplete(str: string)
    ensures ParseCommonId(str).Some? && ParseCommonId(str).value.server.Some? ==> ParseCommonId(str).value.local.Some?
  {
  }
}
