/**
 * Canonical JSON is nothing but what the encoder writes: every text the reference parser accepts is the encoding of
 * the value it reads.
 */
module CanonicalJsonLanguage {
  import opened Characters
  import opened Options
  import opened CanonicalJson
  import opened CanonicalJsonParser
  import opened CanonicalJsonTheorems

  // ---------- Scalars ----------

  lemma DigitText(c: char)
    requires IsDigit(c)
    ensures Digits(c as int - '0' as int) == [c]
  {
  }

  lemma DigitsSnoc(n: nat, c: char)
    requires n > 0 && IsDigit(c)
    ensures Digits(10 * n + (c as int - '0' as int)) == Digits(n) + [c]
  {
  }

  // The digits read after a number that does not begin with zero are those of the number that results.
  lemma {:induction false} NatText(s: string, acc: nat)
    requires acc > 0
    ensures var (n, rest) := ParseNat(s, acc); n > 0 && Digits(acc) + s == Digits(n) + rest
    decreases |s|
  {
    if !Ends(s) {
      var acc' := 10 * acc + (s[0] as int - '0' as int);
      DigitsSnoc(acc, s[0]);
      NatText(s[1..], acc');
      assert s == [s[0]] + s[1..];
      assert Digits(acc) + s == Digits(acc) + [s[0]] + s[1..];
    }
  }

  lemma NonNegativeText(s: string)
    requires s != "" && IsDigit(s[0]) && NonEmptyNat(s).Done?
    ensures var r := NonEmptyNat(s); r.value.Int? && s == IntText(r.value.n) + r.rest
  {
    var d := s[0] as int - '0' as int;
    DigitText(s[0]);
    assert s == [s[0]] + s[1..];
    if d > 0 { NatText(s[1..], d); }
  }

  lemma NegativeText(s: string, t: string)
    requires s == "-" + t && !Ends(t) && t[0] != '0'
    ensures var (n: int, rest) := ParseNat(t, 0); s == IntText(-n) + rest
  {
    var d := t[0] as int - '0' as int;
    DigitText(t[0]);
    assert t == [t[0]] + t[1..];
    NatText(t[1..], d);
    var (n, rest) := ParseNat(t[1..], d);
    assert ParseNat(t, 0) == (n, rest);
    assert t == Digits(n) + rest;
    assert "-" + (Digits(n) + rest) == ("-" + Digits(n)) + rest;
  }

  lemma HexText(c: char)
    requires HexValue(c).Some?
    ensures HexValue(c).value < 16 && HexDigit(HexValue(c).value) == c
  {
  }

  // ---------- Strings ----------

  lemma CodeText(h: char, l: char, rest: string)
    requires HexValue(h).Some? && HexValue(l).Some? && NeedsCode(16 * HexValue(h).value + HexValue(l).value)
    ensures EscapeChar((16 * HexValue(h).value + HexValue(l).value) as char) == "\\u00" + [h, l]
  {
    HexText(h);
    HexText(l);
  }

  lemma EscapeText(s: string)
    requires ParseEscape(s).Done?
    ensures "\\" + s == EscapeChar(ParseEscape(s).value) + ParseEscape(s).rest
  {
    if s[0] == 'u' {
      CodeText(s[3], s[4], s[5..]);
      assert s == "u00" + [s[3], s[4]] + s[5..];
    } else {
      assert s == [s[0]] + s[1..];
    }
  }

  lemma EscapeFirst(s: string, c: char, more: string, cs: string, rest: string)
    requires s == EscapeChar(c) + more && more == Escape(cs) + ("\"" + rest)
    ensures s == Escape([c] + cs) + ("\"" + rest)
  {
    EscapeCons(c, cs, "\"" + rest);
  }

  lemma {:induction false} CharsText(s: string, cs: string, rest: string)
    requires ParseChars(s) == Done(cs, rest)
    ensures s == Escape(cs) + ("\"" + rest)
    decreases |s|
  {
    if s[0] == '"' {
      assert s == "\"" + s[1..];
    } else if s[0] == '\\' {
      var first := ParseEscape(s[1..]);
      EscapeText(s[1..]);
      assert s == "\\" + s[1..];
      CharsText(first.rest, cs[1..], rest);
      EscapeFirst(s, first.value, first.rest, cs[1..], rest);
      assert cs == [first.value] + cs[1..];
    } else {
      CharsText(s[1..], cs[1..], rest);
      assert s == EscapeChar(s[0]) + s[1..];
      EscapeFirst(s, s[0], s[1..], cs[1..], rest);
      assert cs == [s[0]] + cs[1..];
    }
  }

  lemma QuoteText(s: string, cs: string, rest: string)
    requires s != "" && s[0] == '"' && ParseChars(s[1..]) == Done(cs, rest)
    ensures s == Quote(cs) + rest
  {
    CharsText(s[1..], cs, rest);
    assert s == "\"" + s[1..];
    Regroup("\"", Escape(cs), "\"", rest);
  }

  // ---------- Values ----------

  // The text is the encoding of a float-free value and what follows it.
  ghost predicate Writes(v: Value, rest: string, s: string) {
    FloatFree(v) && s == Enc(v) + rest
  }

  ghost predicate WritesAll(es: seq<Value>, rest: string, s: string) {
    es != [] && (forall e :: e in es ==> FloatFree(e)) && s == Sep(EncAll(es), false) + ("]" + rest)
  }

  ghost predicate WritesMembers(m: map<string, Value>, rest: string, s: string) {
    && m != map[] && (forall k :: k in m ==> FloatFree(m[k]))
    && s == Sep(EncMembers(Obj(m), Keys(Obj(m))), false) + ("}" + rest)
  }

  lemma StringWritten(s: string, v: Value, rest: string)
    requires ParseValue(s) == Done(v, rest) && s[0] == '"'
    ensures Writes(v, rest, s)
  {
    QuoteText(s, v.s, rest);
  }

  lemma NumberWritten(s: string, v: Value, rest: string)
    requires ParseValue(s) == Done(v, rest) && (s[0] == '-' || IsDigit(s[0]))
    ensures Writes(v, rest, s)
  {
    if s[0] == '-' {
      NegativeText(s, s[1..]);
    } else {
      NonNegativeText(s);
    }
  }

  lemma ScalarWritten(s: string, v: Value, rest: string)
    requires ParseValue(s) == Done(v, rest) && s[0] != '[' && s[0] != '{'
    ensures Writes(v, rest, s)
  {
    if s[0] == '"' {
      StringWritten(s, v, rest);
    } else if s[0] == '-' || IsDigit(s[0]) {
      NumberWritten(s, v, rest);
    } else {
      WordWritten(s, v, rest);
    }
  }

  lemma WordWritten(s: string, v: Value, rest: string)
    requires ParseValue(s) == Done(v, rest) && (s[0] == 'n' || s[0] == 't' || s[0] == 'f')
    ensures Writes(v, rest, s)
  {
    if s[0] == 'n' {
      assert s == "null" + s[4..];
    } else if s[0] == 't' {
      assert s == "true" + s[4..];
    } else {
      assert s == "false" + s[5..];
    }
  }

  lemma Bracketed(text: string, open: string, body: string, close: string)
    requires text + "" == open + (body + (close + ""))
    ensures text == open + body + close
  {
    Regroup(open, body, close, "");
    assert text + "" == text && open + body + close + "" == open + body + close;
  }

  lemma ArrayWritten(es: seq<Value>, rest: string, body: string)
    requires WritesAll(es, rest, body)
    ensures Writes(Arr(es), rest, "[" + body)
  {
    var v, text := Arr(es), Sep(EncAll(es), false);
    FloatFreeArrayText(v);
    Bracketed(Enc(v), "[", text, "]");
    Regroup("[", text, "]", rest);
  }

  lemma EmptyWritten(rest: string)
    ensures Writes(Arr([]), rest, "[" + ("]" + rest))
    ensures Writes(Obj(map[]), rest, "{" + ("}" + rest))
  {
    var es: seq<Value> := [];
    FloatFreeArrayText(Arr(es));
    Bracketed(Enc(Arr(es)), "[", "", "]");
    Regroup("[", "", "]", rest);
    var m: map<string, Value> := map[];
    FloatFreeObjectText(Obj(m));
    assert m.Keys == {} && Keys(Obj(m)) == SortedKeys({});
    Bracketed(Enc(Obj(m)), "{", "", "}");
    Regroup("{", "", "}", rest);
  }

  lemma ObjectWritten(m: map<string, Value>, rest: string, body: string)
    requires WritesMembers(m, rest, body)
    ensures Writes(Obj(m), rest, "{" + body)
  {
    var v, text := Obj(m), Sep(EncMembers(Obj(m), Keys(Obj(m))), false);
    FloatFreeObjectText(v);
    Bracketed(Enc(v), "{", text, "}");
    Regroup("{", text, "}", rest);
  }

  lemma LastElement(v: Value, rest: string, s: string)
    requires Writes(v, "]" + rest, s)
    ensures WritesAll([v], rest, s)
  {
    FirstElementText(v, [], false, "]" + rest);
    assert [v] + [] == [v];
  }

  lemma MoreElements(v: Value, es: seq<Value>, more: string, rest: string, s: string)
    requires Writes(v, "," + more, s) && WritesAll(es, rest, more)
    ensures WritesAll([v] + es, rest, s)
  {
    FirstElementText(v, es, false, "]" + rest);
  }

  lemma LastMember(k: string, v: Value, rest: string, s: string)
    requires FloatFree(v) && s == Quote(k) + ":" + Enc(v) + ("}" + rest)
    ensures WritesMembers(map[k := v], rest, s)
  {
    var m := map[k := v];
    OneKey(k, v);
    FirstMemberText(Obj(m), k, [], false, "}" + rest);
    assert [k] + [] == [k];
  }

  lemma OneKey(k: string, v: Value)
    ensures Keys(Obj(map[k := v])) == [k]
  {
    assert Ascending([k]);
    AscendingUnique([k]);
    assert KeySet([k]) == (map[k := v]).Keys;
  }

  // The keys of an object with one more member that comes first.
  lemma FirstKey(k: string, v: Value, m: map<string, Value>)
    requires Precedes(k, m)
    ensures Keys(Obj(map[k := v] + m)) == [k] + Keys(Obj(m))
  {
    var ks := Keys(Obj(m));
    forall i, j | 0 <= i < j < |[k] + ks| ensures Less(([k] + ks)[i], ([k] + ks)[j]) {
      assert ([k] + ks)[j] == ks[j - 1];
    }
    AscendingUnique([k] + ks);
    assert KeySet([k] + ks) == (map[k := v] + m).Keys;
  }

  lemma SameMembers(k: string, v: Value, m: map<string, Value>)
    requires Precedes(k, m)
    ensures var all := Obj(map[k := v] + m);
      && k in all.fields && (forall x :: x in Keys(Obj(m)) ==> x in all.fields)
      && all.fields[k] == v && EncMembers(all, Keys(Obj(m))) == EncMembers(Obj(m), Keys(Obj(m)))
  {
    LessTotal(k, k);
  }

  lemma MoreMembers(k: string, v: Value, m: map<string, Value>, more: string, rest: string, s: string)
    requires FloatFree(v) && s == Quote(k) + ":" + Enc(v) + ("," + more)
    requires WritesMembers(m, rest, more) && Precedes(k, m)
    ensures WritesMembers(map[k := v] + m, rest, s)
  {
    var all, ks := map[k := v] + m, Keys(Obj(m));
    FirstKey(k, v, m);
    SameMembers(k, v, m);
    FirstMemberText(Obj(all), k, ks, false, "}" + rest);
    var x :| x in m;
    assert x in ks;
  }

  lemma {:induction false} ValueWritten(s: string, v: Value, rest: string)
    requires ParseValue(s) == Done(v, rest)
    ensures Writes(v, rest, s)
    decreases |s|, 0
  {
    if s[0] == '[' {
      assert s == "[" + s[1..];
      if |s| > 1 && s[1] == ']' {
        EmptyWritten(rest);
        assert s[1..] == "]" + rest;
      } else {
        ElementsWritten(s[1..], v.elems, rest);
        ArrayWritten(v.elems, rest, s[1..]);
      }
    } else if s[0] == '{' {
      assert s == "{" + s[1..];
      if |s| > 1 && s[1] == '}' {
        EmptyWritten(rest);
        assert s[1..] == "}" + rest;
      } else {
        MembersWritten(s[1..], v.fields, rest);
        ObjectWritten(v.fields, rest, s[1..]);
      }
    } else {
      ScalarWritten(s, v, rest);
    }
  }

  lemma {:induction false} ElementsWritten(s: string, es: seq<Value>, rest: string)
    requires ParseElements(s) == Done(es, rest)
    ensures WritesAll(es, rest, s)
    decreases |s|, 1
  {
    var first := ParseValue(s);
    ValueWritten(s, first.value, first.rest);
    assert first.rest == [first.rest[0]] + first.rest[1..];
    if first.rest[0] == ']' {
      LastElement(first.value, rest, s);
    } else {
      ElementsWritten(first.rest[1..], es[1..], rest);
      MoreElements(first.value, es[1..], first.rest[1..], rest, s);
      assert es == [first.value] + es[1..];
    }
  }

  lemma {:induction false} MemberWritten(s: string, key: string, v: Value, rest: string)
    requires ParseMember(s) == Done((key, v), rest)
    ensures FloatFree(v) && s == Quote(key) + ":" + Enc(v) + rest
    decreases |s|, 1
  {
    var more := ParseChars(s[1..]).rest;
    QuoteText(s, key, more);
    assert more == ":" + more[1..];
    ValueWritten(more[1..], v, rest);
    MemberRegroup(Quote(key), Enc(v), rest);
  }

  lemma {:induction false} MembersWritten(s: string, m: map<string, Value>, rest: string)
    requires ParseMembers(s) == Done(m, rest)
    ensures WritesMembers(m, rest, s)
    decreases |s|, 2
  {
    var first := ParseMember(s);
    var (key, v) := first.value;
    MemberWritten(s, key, v, first.rest);
    assert first.rest == [first.rest[0]] + first.rest[1..];
    if first.rest[0] == '}' {
      LastMember(key, v, rest, s);
    } else {
      var others := ParseMembers(first.rest[1..]).value;
      MembersWritten(first.rest[1..], others, rest);
      MoreMembers(key, v, others, first.rest[1..], rest, s);
    }
  }

  /** Whatever text parses is the canonical JSON of the value it parses to. */
  lemma {:induction false} ParsedIsEncoded(t: string, v: Value)
    requires ParseValue(t) == Done(v, "")
    ensures FloatFree(v) && Enc(v) == t
  {
    ValueWritten(t, v, "");
    assert Enc(v) + "" == Enc(v);
  }

  /** The encodings of float-free values are exactly the texts of the canonical grammar. */
  lemma {:induction false} EncodingsAreCanonical(t: string)
    ensures (exists v :: FloatFree(v) && Enc(v) == t) <==> (ParseValue(t).Done? && ParseValue(t).rest == "")
  {
    if v :| FloatFree(v) && Enc(v) == t {
      RoundTrip(v);
    }
    if ParseValue(t).Done? && ParseValue(t).rest == "" {
      ParsedIsEncoded(t, ParseValue(t).value);
    }
  }
}
