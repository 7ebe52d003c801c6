/**
 * A reference parser for canonical JSON without floats, written from the grammar and not from the encoder: no spaces,
 * no leading zeros and no minus zero, strings with the shortest escapes, keys in ascending order. And the lemmas that
 * it reads back scalars.
 */
module CanonicalJsonParser {
  import opened Characters
  import opened Options
  import opened CanonicalJson

  datatype Parse<+T> = Fail | Done(value: T, rest: string)

  // Text that does not continue a number.
  predicate Ends(rest: string) {
    rest == "" || !IsDigit(rest[0])
  }

  // Read the digits at the front of s into a number that already stands at acc.
  function ParseNat(s: string, acc: nat): (r: (nat, string))
    ensures |r.1| <= |s|
    decreases |s|
  {
    if Ends(s) then (acc, s) else ParseNat(s[1..], 10 * acc + (s[0] as int - '0' as int))
  }

  function HexValue(c: char): Option<nat> {
    if IsDigit(c) then Some(c as int - '0' as int)
    else if 'a' <= c <= 'f' then Some(c as int - 'a' as int + 10)
    else None
  }

  // The character that follows a backslash.
  function ParseEscape(s: string): (r: Parse<char>)
    ensures r.Done? ==> |r.rest| < |s|
  {
    if s == "" then Fail
    else if s[0] == '"' || s[0] == '\\' then Done(s[0], s[1..])
    else if s[0] == 'b' then Done(8 as char, s[1..])
    else if s[0] == 't' then Done(9 as char, s[1..])
    else if s[0] == 'n' then Done(10 as char, s[1..])
    else if s[0] == 'f' then Done(12 as char, s[1..])
    else if s[0] == 'r' then Done(13 as char, s[1..])
    else if s[0] == 'u' && |s| >= 5 && s[1] == '0' && s[2] == '0' && HexValue(s[3]).Some? && HexValue(s[4]).Some?
    then
      var code := 16 * HexValue(s[3]).value + HexValue(s[4]).value;
      if NeedsCode(code) then Done(code as char, s[5..]) else Fail
    else Fail
  }

  // The control characters that have no short form.
  predicate NeedsCode(code: nat) {
    code < 32 && code != 8 && code != 9 && code != 10 && code != 12 && code != 13
  }

  // The rest of a string literal, its closing quotation mark included.
  function ParseChars(s: string): (r: Parse<string>)
    ensures r.Done? ==> |r.rest| < |s|
    decreases |s|
  {
    if s == "" then Fail
    else if s[0] == '"' then Done("", s[1..])
    else if s[0] == '\\' then
      match ParseEscape(s[1..])
      case Fail => Fail
      case Done(c, rest) => (match ParseChars(rest) case Fail => Fail case Done(cs, rest') => Done([c] + cs, rest'))
    else if s[0] as int < 32 then Fail
    else
      match ParseChars(s[1..])
      case Fail => Fail
      case Done(cs, rest) => Done([s[0]] + cs, rest)
  }

  function ParseWord(s: string, word: string, v: Value): (r: Parse<Value>)
    requires word != ""
    ensures r.Done? ==> |r.rest| < |s|
  {
    if word <= s then Done(v, s[|word|..]) else Fail
  }

  function ParseValue(s: string): (r: Parse<Value>)
    ensures r.Done? ==> |r.rest| < |s|
    decreases |s|, 0
  {
    if s == "" then Fail
    else if s[0] == '[' then
      if |s| > 1 && s[1] == ']' then Done(Arr([]), s[2..])
      else (match ParseElements(s[1..]) case Fail => Fail case Done(es, rest) => Done(Arr(es), rest))
    else if s[0] == '{' then
      if |s| > 1 && s[1] == '}' then Done(Obj(map[]), s[2..])
      else (match ParseMembers(s[1..]) case Fail => Fail case Done(m, rest) => Done(Obj(m), rest))
    else if s[0] == '"' then
      match ParseChars(s[1..]) case Fail => Fail case Done(cs, rest) => Done(Str(cs), rest)
    else if s[0] == '-' then
      if Ends(s[1..]) || s[1] == '0' then Fail else
      var (n: int, rest) := ParseNat(s[1..], 0);
      Done(Int(-n), rest)
    else if IsDigit(s[0]) then NonEmptyNat(s)
    else if s[0] == 'n' then ParseWord(s, "null", Null)
    else if s[0] == 't' then ParseWord(s, "true", Bool(true))
    else if s[0] == 'f' then ParseWord(s, "false", Bool(false))
    else Fail
  }

  function NonEmptyNat(s: string): (r: Parse<Value>)
    requires s != "" && IsDigit(s[0])
    ensures r.Done? ==> |r.rest| < |s|
  {
    if s[0] == '0' && !Ends(s[1..]) then Fail else
    var (n, rest) := ParseNat(s[1..], s[0] as int - '0' as int);
    Done(Int(n), rest)
  }

  // One or more values separated by commas, and the closing bracket.
  function ParseElements(s: string): (r: Parse<seq<Value>>)
    ensures r.Done? ==> |r.rest| < |s|
    decreases |s|, 1
  {
    match ParseValue(s)
    case Fail => Fail
    case Done(v, rest) =>
      if rest == "" then Fail
      else if rest[0] == ']' then Done([v], rest[1..])
      else if rest[0] == ',' then
        (match ParseElements(rest[1..]) case Fail => Fail case Done(vs, rest') => Done([v] + vs, rest'))
      else Fail
  }

  // A key, a colon and a value.
  function ParseMember(s: string): (r: Parse<(string, Value)>)
    ensures r.Done? ==> |r.rest| < |s|
    decreases |s|, 1
  {
    if s == "" || s[0] != '"' then Fail else
    match ParseChars(s[1..])
    case Fail => Fail
    case Done(key, rest) =>
      if rest == "" || rest[0] != ':' then Fail else
      match ParseValue(rest[1..])
      case Fail => Fail
      case Done(v, rest') => Done((key, v), rest')
  }

  // One or more members separated by commas, and the closing brace.
  function ParseMembers(s: string): (r: Parse<map<string, Value>>)
    ensures r.Done? ==> |r.rest| < |s|
    decreases |s|, 2
  {
    match ParseMember(s)
    case Fail => Fail
    case Done((key, v), rest) =>
      if rest == "" then Fail
      else if rest[0] == '}' then Done(map[key := v], rest[1..])
      else if rest[0] == ',' then
        match ParseMembers(rest[1..])
        case Fail => Fail
        case Done(m, rest') => if Precedes(key, m) then Done(map[key := v] + m, rest') else Fail
      else Fail
  }

  // The key comes before all keys of m.
  predicate Precedes(key: string, m: map<string, Value>) {
    forall k :: k in m ==> Less(key, k)
  }

  // ---------- Scalars are read back ----------

  lemma {:induction false} NatReadBack(n: nat, rest: string)
    ensures ParseNat(Digits(n) + rest, 0) == ParseNat(rest, n)
    decreases n
  {
    if n < 10 {
      assert (Digits(n) + rest)[1..] == rest;
    } else {
      var tail := [Digit(n % 10)] + rest;
      NatReadBack(n / 10, tail);
      assert Digits(n) + rest == Digits(n / 10) + tail;
      assert tail[1..] == rest;
    }
  }

  lemma {:induction false} DigitsStart(n: nat)
    ensures Digits(n) != "" && IsDigit(Digits(n)[0])
    ensures Digits(n)[0] == '0' <==> n == 0
    decreases n
  {
    if n >= 10 { DigitsStart(n / 10); }
  }

  lemma ParsePositive(t: string)
    requires !Ends(t) && (t[0] == '0' ==> Ends(t[1..]))
    ensures var (n, rest) := ParseNat(t, 0); ParseValue(t) == Done(Int(n), rest)
  {
    assert ParseNat(t, 0) == ParseNat(t[1..], t[0] as int - '0' as int);
  }

  lemma ParseNegative(t: string)
    requires !Ends(t) && t[0] != '0'
    ensures var (n: int, rest) := ParseNat(t, 0); ParseValue("-" + t) == Done(Int(-n), rest)
  {
    assert ("-" + t)[1..] == t;
  }

  lemma IntReadBack(n: int, rest: string)
    requires Ends(rest)
    ensures ParseValue(IntText(n) + rest) == Done(Int(n), rest)
  {
    var m := if n < 0 then -n else n;
    var t := Digits(m) + rest;
    DigitsStart(m);
    NatReadBack(m, rest);
    if n < 0 {
      ParseNegative(t);
      assert IntText(n) + rest == "-" + t;
    } else {
      if m == 0 { assert t[1..] == rest; }
      ParsePositive(t);
    }
  }

  lemma HexReadBack(d: nat)
    requires d < 16
    ensures HexValue(HexDigit(d)) == Some(d)
  {
  }

  lemma CharReadBack(c: char, rest: string)
    ensures EscapeChar(c)[0] != '"'
    ensures if EscapeChar(c)[0] == '\\'
      then ParseEscape((EscapeChar(c) + rest)[1..]) == Done(c, rest)
      else EscapeChar(c) == [c] && c as int >= 32
  {
    var code := c as int;
    if code < 32 {
      HexReadBack(code / 16);
      HexReadBack(code % 16);
    }
    assert (EscapeChar(c) + rest)[1..] == EscapeChar(c)[1..] + rest;
  }

  // One escaped character at the front of a literal is read as that character.
  lemma CharStep(c: char, more: string)
    ensures ParseChars(EscapeChar(c) + more)
         == match ParseChars(more) case Fail => Fail case Done(cs, rest) => Done([c] + cs, rest)
  {
    CharReadBack(c, more);
    var s := EscapeChar(c) + more;
    if EscapeChar(c)[0] == '\\' {
      assert ParseEscape(s[1..]) == Done(c, more);
    } else {
      assert s[1..] == more;
    }
  }

  lemma EscapeCons(c: char, cs: string, tail: string)
    ensures Escape([c] + cs) + tail == EscapeChar(c) + (Escape(cs) + tail)
  {
    assert ([c] + cs)[1..] == cs;
  }

  lemma CharsStep(c: char, cs: string, more: string, rest: string)
    requires ParseChars(more) == Done(cs, rest)
    ensures ParseChars(EscapeChar(c) + more) == Done([c] + cs, rest)
  {
    CharStep(c, more);
  }

  lemma {:induction false} CharsReadBack(cs: string, rest: string)
    ensures ParseChars(Escape(cs) + ("\"" + rest)) == Done(cs, rest)
    decreases |cs|
  {
    var tail := "\"" + rest;
    if cs == "" {
      assert Escape(cs) + tail == tail;
      assert tail[1..] == rest;
    } else {
      CharsReadBack(cs[1..], rest);
      assert [cs[0]] + cs[1..] == cs;
      EscapeCons(cs[0], cs[1..], tail);
      CharsStep(cs[0], cs[1..], Escape(cs[1..]) + tail, rest);
    }
  }

  lemma QuoteTail(cs: string, rest: string)
    ensures Quote(cs) + rest != "" && (Quote(cs) + rest)[0] == '"'
    ensures (Quote(cs) + rest)[1..] == Escape(cs) + ("\"" + rest)
  {
    assert Quote(cs) + rest == "\"" + (Escape(cs) + ("\"" + rest));
  }

  lemma QuoteReadBack(cs: string, rest: string)
    ensures (Quote(cs) + rest)[0] == '"'
    ensures ParseChars((Quote(cs) + rest)[1..]) == Done(cs, rest)
  {
    QuoteTail(cs, rest);
    CharsReadBack(cs, rest);
  }

  lemma WordReadBack(word: string, v: Value, rest: string)
    requires word != ""
    ensures ParseWord(word + rest, word, v) == Done(v, rest)
  {
  }

  lemma ScalarReadBack(v: Value, rest: string)
    requires !v.Arr? && !v.Obj? && !v.Float? && Ends(rest)
    ensures ParseValue(ScalarText(v) + rest) == Done(v, rest)
  {
    match v
    case Null => WordReadBack("null", Null, rest);
    case Bool(b) => if b { WordReadBack("true", v, rest); } else { WordReadBack("false", v, rest); }
    case Int(n) => IntReadBack(n, rest);
    case Str(cs) => QuoteReadBack(cs, rest);
  }
}
