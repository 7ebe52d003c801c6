/**
 * Identifiers: what Parser.c and UserIdParse accept, as functions of the text at the cursor. They implement
 * sections "Server Name" and "User Identifiers" of the Appendices of the Matrix Specification v1.7.
 *
 * The end of a string reads as NUL, and so does anything beyond it.
 */
module Identifiers {
  import opened Characters
  import opened Options

  const NUL: char := '\0'

  function At(t: string, i: nat): char {
    if i < |t| then t[i] else NUL
  }

  // ---------- Characters ----------

  // An ASCII character other than the colon and NUL.
  predicate IsLocalChar(c: char) {
    c as int < 128 && c != ':' && c != NUL
  }

  predicate IsDigitOrDot(c: char) {
    IsDigit(c) || c == '.'
  }

  predicate IsHostChar(c: char) {
    IsAlnum(c) || c == '.' || c == '-'
  }

  predicate IsIPv6Char(c: char) {
    IsHexDigit(c) || c == ':' || c == '.'
  }

  // ---------- Runs of characters ----------

  // The kinds of characters the parsers skip over.
  datatype Kind = Digits | DigitsAndDots | HostChars | LocalChars

  predicate Is(kind: Kind, c: char) {
    match kind
    case Digits => IsDigit(c)
    case DigitsAndDots => IsDigitOrDot(c)
    case HostChars => IsHostChar(c)
    case LocalChars => IsLocalChar(c)
  }

  /** The length of the longest run of characters of a kind at the front of t. */
  function Run(t: string, kind: Kind): (n: nat)
    ensures n <= |t|
    ensures forall k :: 0 <= k < n ==> Is(kind, t[k])
    ensures n < |t| ==> !Is(kind, t[n])
  {
    if t == "" || !Is(kind, t[0]) then 0 else 1 + Run(t[1..], kind)
  }

  lemma {:induction false} RunIs(t: string, kind: Kind, n: nat)
    requires n <= |t| && (forall k :: 0 <= k < n ==> Is(kind, t[k])) && (n < |t| ==> !Is(kind, t[n]))
    ensures Run(t, kind) == n
  {
    if n > 0 { RunIs(t[1..], kind, n - 1); }
  }

  predicate AllDigits(t: string) {
    forall k :: 0 <= k < |t| ==> IsDigit(t[k])
  }

  // The value of a string of digits, as atoi and atol read it.
  function Value(ds: string): nat
    requires AllDigits(ds)
  {
    if ds == "" then 0 else 10 * Value(ds[..|ds| - 1]) + (ds[|ds| - 1] as int - '0' as int)
  }

  // ---------- Hosts ----------

  // One of the first three groups of a dotted quad.
  predicate IsGroup(g: string) {
    1 <= |g| <= 3 && AllDigits(g) && Value(g) <= 255
  }

  // The dots of a quad.
  const DOTS: nat := 3

  // Groups followed by dots, as many as still to come, and then any digits at all.
  predicate Quad(t: string, groups: nat)
    decreases |t|
  {
    if groups == 0 then AllDigits(t)
    else
      var n := Run(t, Digits);
      n < |t| && t[n] == '.' && IsGroup(t[..n]) && Quad(t[n + 1..], groups - 1)
  }

  // ParseIPv4: all the digits and dots at the front must form a quad.
  function IPv4(t: string): Option<nat> {
    var n := Run(t, DigitsAndDots);
    if Quad(t[..n], DOTS) then Some(n) else None
  }

  // The loop of ParseIPv6 from index p of t: the index of the character that ends it.
  function IPv6Loop(t: string, p: nat, filled: bool, digit: nat, digits: nat): Option<nat>
    requires digit <= p <= |t|
    decreases |t| - p
  {
    var c := At(t, p);
    if p == |t| || c == NUL || !IsIPv6Char(c) || digits >= 8 then Some(p)
    else if IsHexDigit(c) then IPv6Loop(t, p + 1, filled, digit + 1, digits)
    else if c == ':' then
      if At(t, p + 1) == ':' then
        if filled then None else IPv6Loop(t, p + 2, true, 0, digits)
      else if digit < 1 || digit > 4 then None
      else IPv6Loop(t, p + 1, filled, 0, digits + 1)
    else
      match IPv4(t[p - digit..])
      case None => None
      case Some(n) => Some(p - digit + n)
  }

  // ParseIPv6: a bracketed literal of 4 to 47 characters.
  function IPv6(t: string): Option<nat> {
    if At(t, 0) != '[' then None else
    match IPv6Loop(t, 1, false, 0, 0)
    case None => None
    case Some(q) => if At(t, q) == ']' && 4 <= q + 1 <= 47 then Some(q + 1) else None
  }

  // ParseHostname.
  function Hostname(t: string): Option<nat> {
    var n := Run(t, HostChars);
    if 1 <= n <= 255 then Some(n) else None
  }

  // The length of the host at the front of t.
  function Host(t: string): Option<nat> {
    if IPv4(t).Some? then IPv4(t)
    else if IPv6(t).Some? then IPv6(t)
    else Hostname(t)
  }

  datatype ServerPart = ServerPart(hostname: string, port: Option<string>)

  // The number of port digits read: at most five.
  function PortLength(t: string): (n: nat)
    ensures n <= |t| && n <= 5 && forall k :: 0 <= k < n ==> IsDigit(t[k])
  {
    var n := Run(t, Digits);
    if n > 5 then 5 else n
  }

  lemma IPv6Bounded(t: string)
    ensures IPv6(t).Some? ==> IPv6(t).value <= |t|
  {
  }

  lemma HostBounded(t: string)
    ensures Host(t).Some? ==> Host(t).value <= |t|
  {
    IPv6Bounded(t);
  }

  // ParseServerName.
  function ServerName(t: string): Option<ServerPart> {
    match Host(t)
    case None => None
    case Some(n) =>
      HostBounded(t);
      if At(t, n) != ':' then Some(ServerPart(t[..n], None)) else
      var rest := t[n + 1..];
      var m := PortLength(rest);
      if m < 1 || Value(rest[..m]) > 65535 then None
      else Some(ServerPart(t[..n], Some(rest[..m])))
  }

  // ParserRecomposeServerPart.
  function Recompose(part: ServerPart): string {
    if part.port.Some? then part.hostname + ":" + part.port.value else part.hostname
  }

  // ParserServerNameEquals.
  predicate ServerNameEquals(part: ServerPart, str: string) {
    Recompose(part) == str
  }

  // ---------- Common identifiers ----------

  // local and server are None where the source leaves NULL.
  datatype CommonId = CommonId(sigil: char, local: Option<string>, server: Option<ServerPart>)

  // ParseUserLocalpart: the local part and the index the cursor is left at, one past the character that ended
  // it unless that is a colon.
  function Localpart(t: string): Option<(string, nat)> {
    var n := Run(t, LocalChars);
    if n < 1 then None else Some((t[..n], if At(t, n) == ':' then n else n + 1))
  }

  // An event ID is accepted only without a colon.
  function EventId(sigil: char, t: string): Option<CommonId> {
    match Localpart(t)
    case None => None
    case Some((local, i)) => if At(t, i) == ':' then None else Some(CommonId(sigil, Some(local), None))
  }

  function LocalAndServer(sigil: char, t: string): Option<CommonId> {
    match Localpart(t)
    case None => None
    case Some((local, i)) =>
      if At(t, i) != ':' then None else
      match ServerName(t[i + 1..])
      case None => None
      case Some(part) => Some(CommonId(sigil, Some(local), Some(part)))
  }

  // ParseCommonID.
  function ParseCommonId(str: string): Option<CommonId> {
    if |str| < 2 then None else
    var sigil, t := str[0], str[1..];
    if (sigil == '#' || sigil == '@') && |t| > 255 then None
    else if sigil == '$' then EventId(sigil, t)
    else if sigil == '!' || sigil == '#' || sigil == '@' then LocalAndServer(sigil, t)
    else Some(CommonId(sigil, None, None))
  }

  predicate ValidCommonId(str: string, sigil: char) {
    ParseCommonId(str).Some? && ParseCommonId(str).value.sigil == sigil
  }

  // ---------- User identifiers ----------

  // size_t arithmetic: for a domain of 255 characters and more the difference wraps around.
  function MaxLen(domain: string): nat {
    (255 - |domain| - 1) % 0x1_0000_0000_0000_0000
  }

  predicate WithinLength(localpart: string, domain: string) {
    localpart == "" || |localpart| - 1 <= MaxLen(domain)
  }

  predicate IsUserChar(c: char) {
    'a' <= c <= 'z' || IsDigit(c) || c == '.' || c == '_' || c == '=' || c == '-' || c == '/'
  }

  predicate IsHistoricalChar(c: char) {
    0x21 <= c as int <= 0x39 || 0x3B <= c as int <= 0x7E
  }

  // UserValidate.
  predicate UserName(localpart: string, domain: string) {
    (forall c :: c in localpart ==> IsUserChar(c)) && WithinLength(localpart, domain)
  }

  // UserHistoricalValidate.
  predicate HistoricalName(localpart: string, domain: string) {
    (forall c :: c in localpart ==> IsHistoricalChar(c)) && WithinLength(localpart, domain)
  }

  // UserIdParse; a bare local part has no sigil and belongs to the default server.
  function ParseUserId(id: string, defaultServer: string): Option<CommonId> {
    var parsed :=
      if At(id, 0) == '@' then ParseCommonId(id)
      else Some(CommonId(NUL, Some(id), ServerName(defaultServer)));
    if parsed.None? || parsed.value.local.None? || parsed.value.server.None? then None
    else if !HistoricalName(parsed.value.local.value, Recompose(parsed.value.server.value)) then None
    else parsed
  }
}
