/**
 * What canonical JSON is for: the bytes determine the value, and depend on nothing else.
 */
module CanonicalJsonTheorems {
  import opened Options
  import opened CanonicalJson
  import opened CanonicalJsonParser

  // ---------- Values without their floats ----------

  function Kept(es: seq<Value>): seq<Value> {
    if es == [] then []
    else Kept(es[..|es| - 1]) + (if es[|es| - 1].Float? then [] else [es[|es| - 1]])
  }

  function KeptKeys(m: map<string, Value>, ks: seq<string>): seq<string>
    requires forall k :: k in ks ==> k in m
  {
    if ks == [] then []
    else KeptKeys(m, ks[..|ks| - 1]) + (if m[ks[|ks| - 1]].Float? then [] else [ks[|ks| - 1]])
  }

  lemma {:induction false} KeptIn(es: seq<Value>)
    ensures forall e :: e in Kept(es) ==> e in es && !e.Float?
    ensures forall e :: e in es && !e.Float? ==> e in Kept(es)
  {
    if es != [] {
      KeptIn(es[..|es| - 1]);
      assert es == es[..|es| - 1] + [es[|es| - 1]];
    }
  }

  lemma {:induction false} KeptKeysIn(m: map<string, Value>, ks: seq<string>)
    requires forall k :: k in ks ==> k in m
    ensures forall k :: k in KeptKeys(m, ks) ==> k in ks && !m[k].Float?
    ensures forall k :: k in ks && !m[k].Float? ==> k in KeptKeys(m, ks)
  {
    if ks != [] {
      KeptKeysIn(m, ks[..|ks| - 1]);
      assert ks == ks[..|ks| - 1] + [ks[|ks| - 1]];
    }
  }

  /** The value with floats removed at all depths. */
  ghost function Strip(v: Value): Value
    decreases v, 0
  {
    match v
    case Arr(es) =>
      KeptIn(es);
      Arr(StripAll(v, Kept(es)))
    case Obj(m) => Obj(map k | k in m && !m[k].Float? :: Strip(m[k]))
    case _ => v
  }

  ghost function StripAll(v: Value, es: seq<Value>): seq<Value>
    requires v.Arr? && forall e :: e in es ==> e in v.elems
    decreases v, -1
  {
    seq(|es|, i requires 0 <= i < |es| => assert es[i] in v.elems; Strip(es[i]))
  }

  /**
   * At every level that is written, the last element, or the last key in sorted order, is not a float,
   * unless everything at that level is one.
   */
  ghost predicate Tidy(v: Value) {
    match v
    case Arr(es) =>
      && (es != [] && es[|es| - 1].Float? ==> forall e :: e in es ==> e.Float?)
      && (forall e :: e in es && !e.Float? ==> Tidy(e))
    case Obj(m) =>
      && (m != map[] && m[LastKey(m)].Float? ==> forall k :: k in m ==> m[k].Float?)
      && (forall k :: k in m && !m[k].Float? ==> Tidy(m[k]))
    case _ => true
  }

  ghost function LastKey(m: map<string, Value>): (k: string)
    requires m != map[]
    ensures k in m
  {
    SortedKeysSound(m.Keys);
    var ks := SortedKeys(m.Keys);
    assert ks[|ks| - 1] in KeySet(ks);
    ks[|ks| - 1]
  }

  ghost predicate FloatFree(v: Value) {
    match v
    case Float(_) => false
    case Arr(es) => forall e :: e in es ==> FloatFree(e)
    case Obj(m) => forall k :: k in m ==> FloatFree(m[k])
    case _ => true
  }

  // ---------- Where the commas go ----------

  ghost function Present(items: Items): seq<string> {
    if items == [] then []
    else Present(items[..|items| - 1]) + (if items[|items| - 1].None? then [] else [items[|items| - 1].value])
  }

  // Texts with commas between them, and one more after the last if trailing.
  ghost function Sep(ts: seq<string>, trailing: bool): string {
    if ts == [] then ""
    else ts[0] + (if |ts| > 1 || trailing then "," else "") + Sep(ts[1..], trailing)
  }

  ghost predicate LastSkipped(items: Items) {
    items != [] && items[|items| - 1].None?
  }

  lemma {:induction false} SepSnoc(ts: seq<string>, t: string, trailing: bool)
    ensures Sep(ts + [t], trailing) == Sep(ts, true) + t + (if trailing then "," else "")
  {
    if ts == [] {
      assert ts + [t] == [t];
    } else {
      SepSnoc(ts[1..], t, trailing);
      assert (ts + [t])[1..] == ts[1..] + [t];
    }
  }

  lemma PresentSnoc(items: Items, n: nat)
    requires n < |items|
    ensures Present(items[..n + 1]) == Present(items[..n]) + (if items[n].None? then [] else [items[n].value])
  {
    assert items[..n + 1][..n] == items[..n];
  }

  // What the loop has written of the first n items.
  ghost predicate WrittenTo(items: Items, n: nat, trailing: bool)
    requires n <= |items|
  {
    Pieces(items, n) == Sep(Present(items[..n]), trailing)
  }

  // One more piece, from the text written so far.
  lemma PieceStep(items: Items, n: nat, m: nat, before: bool, comma: bool)
    requires n < |items| && m == n + 1 && before && WrittenTo(items, n, before)
    requires comma == (n < |items| - 1)
    ensures WrittenTo(items, m, comma || items[n].None?)
  {
    PresentSnoc(items, n);
    var texts := Present(items[..n]);
    if items[n].Some? {
      var t, c := items[n].value, if comma then "," else "";
      SepSnoc(texts, t, comma);
      assert Sep(texts, before) + t + c == Sep(texts, before) + (t + c);
    } else {
      assert texts + [] == texts;
    }
  }

  lemma {:induction false} PiecesBefore(items: Items, n: nat, trailing: bool)
    requires n < |items| && trailing
    ensures WrittenTo(items, n, trailing)
    decreases n
  {
    if n > 0 {
      PiecesBefore(items, n - 1, trailing);
      PieceStep(items, n - 1, n, trailing, trailing);
    }
  }

  lemma AllWritten(items: Items, last: nat, trailing: bool)
    requires |items| == last + 1 && trailing
    ensures WrittenTo(items, |items|, items[last].None?)
  {
    PiecesBefore(items, last, trailing);
    PieceStep(items, last, |items|, trailing, !trailing);
  }

  /** Commas stand exactly between the members written, and one after them all when the last index is skipped. */
  lemma {:induction false} PiecesSep(items: Items)
    ensures Pieces(items, |items|) == Sep(Present(items), LastSkipped(items))
  {
    if items != [] {
      AllWritten(items, |items| - 1, true);
      assert items[..|items|] == items;
    }
  }

  ghost function EncAll(es: seq<Value>): seq<string> {
    seq(|es|, i requires 0 <= i < |es| => Enc(es[i]))
  }

  lemma {:induction false} PresentElements(es: seq<Value>)
    ensures Present(Texts(Arr(es))) == EncAll(Kept(es))
  {
    if es != [] {
      var front, last := es[..|es| - 1], es[|es| - 1];
      PresentElements(front);
      assert Texts(Arr(es))[..|es| - 1] == Texts(Arr(front));
      assert EncAll(Kept(front) + [last]) == EncAll(Kept(front)) + [Enc(last)];
    }
  }

  ghost function MemberItems(v: Value, ks: seq<string>): Items
    requires v.Obj? && forall k :: k in ks ==> k in v.fields
  {
    seq(|ks|, i requires 0 <= i < |ks| => MemberText(v, ks[i]))
  }

  ghost function EncMembers(v: Value, ks: seq<string>): seq<string>
    requires v.Obj? && forall k :: k in ks ==> k in v.fields
  {
    seq(|ks|, i requires 0 <= i < |ks| => Quote(ks[i]) + ":" + Enc(v.fields[ks[i]]))
  }

  lemma PresentLast(items: Items, x: Option<string>)
    ensures Present(items + [x]) == Present(items) + (if x.None? then [] else [x.value])
  {
    assert (items + [x])[..|items|] == items;
  }

  lemma MembersSnoc(v: Value, ks: seq<string>, k: string)
    requires v.Obj? && k in v.fields && forall x :: x in ks ==> x in v.fields
    ensures forall x :: x in ks + [k] ==> x in v.fields
    ensures MemberItems(v, ks + [k]) == MemberItems(v, ks) + [MemberText(v, k)]
    ensures EncMembers(v, ks + [k]) == EncMembers(v, ks) + [Quote(k) + ":" + Enc(v.fields[k])]
    ensures KeptKeys(v.fields, ks + [k]) == KeptKeys(v.fields, ks) + (if v.fields[k].Float? then [] else [k])
  {
    assert (ks + [k])[..|ks|] == ks;
  }

  lemma {:induction false} PresentMembers(v: Value, ks: seq<string>)
    requires v.Obj? && forall k :: k in ks ==> k in v.fields
    ensures forall k :: k in KeptKeys(v.fields, ks) ==> k in v.fields
    ensures Present(MemberItems(v, ks)) == EncMembers(v, KeptKeys(v.fields, ks))
    decreases |ks|
  {
    KeptKeysIn(v.fields, ks);
    if ks != [] {
      var front, last := ks[..|ks| - 1], ks[|ks| - 1];
      assert ks == front + [last];
      PresentMembers(v, front);
      MembersSnoc(v, front, last);
      PresentLast(MemberItems(v, front), MemberText(v, last));
      if !v.fields[last].Float? { MembersSnoc(v, KeptKeys(v.fields, front), last); }
    }
  }

  // ---------- Reading back ----------

  ghost predicate AllTidy(es: seq<Value>) {
    forall e :: e in es ==> Tidy(e)
  }

  ghost predicate MembersTidy(m: map<string, Value>, ks: seq<string>) {
    forall k :: k in ks && k in m ==> Tidy(m[k])
  }

  ghost function StripMembers(m: map<string, Value>, ks: seq<string>): map<string, Value>
    requires forall k :: k in ks ==> k in m
  {
    map k | k in ks :: Strip(m[k])
  }

  // What a value decodes to.
  ghost function Reading(v: Value, rest: string): Parse<Value> {
    if Tidy(v) then Done(Strip(v), rest) else Fail
  }

  // The text after the first of some members: a comma and the others, or the closing bracket.
  lemma SepFront(ts: seq<string>, trailing: bool, close: string)
    requires ts != []
    ensures Sep(ts, trailing) + close
         == ts[0] + (if |ts| > 1 || trailing then "," + (Sep(ts[1..], trailing) + close) else close)
  {
  }

  /**
   * Reading the output of the encoder gives back the value without its floats when the value is tidy, and fails
   * otherwise: the output is canonical JSON exactly for tidy values.
   */
  lemma {:induction false} Decodes(v: Value, rest: string)
    requires !v.Float? && Ends(rest)
    ensures ParseValue(Enc(v) + rest) == Reading(v, rest)
    decreases v, 1, 0
  {
    match v
    case Arr(es) => DecodesArray(v, rest);
    case Obj(m) => DecodesObject(v, rest);
    case _ => ScalarReadBack(v, rest);
  }

  lemma Regroup(open: string, body: string, close: string, rest: string)
    ensures open + body + close + rest == open + (body + (close + rest))
  {
  }

  lemma ArrayText(v: Value, rest: string)
    requires v.Arr?
    ensures Enc(v) + rest == "[" + (Sep(EncAll(Kept(v.elems)), LastSkipped(Texts(v))) + ("]" + rest))
  {
    PresentElements(v.elems);
    PiecesSep(Texts(v));
    Regroup("[", Pieces(Texts(v), |Texts(v)|), "]", rest);
  }

  // A tidy array has no comma after its last element.
  lemma TidyArray(v: Value)
    requires v.Arr?
    ensures Tidy(v) <==> Kept(v.elems) == [] || (!LastSkipped(Texts(v)) && AllTidy(Kept(v.elems)))
    ensures forall e :: e in Kept(v.elems) ==> e in v.elems && !e.Float?
  {
    var es := v.elems;
    KeptIn(es);
    assert LastSkipped(Texts(v)) <==> es != [] && es[|es| - 1].Float?;
    if Kept(es) == [] {
      forall e | e in es ensures e.Float? { }
    } else {
      assert Kept(es)[0] in Kept(es);
    }
  }

  lemma {:induction false} DecodesArray(v: Value, rest: string)
    requires v.Arr? && Ends(rest)
    ensures ParseValue(Enc(v) + rest) == Reading(v, rest)
    decreases v, 0, 2 * |v.elems| + 1
  {
    var kept, trailing := Kept(v.elems), LastSkipped(Texts(v));
    ArrayText(v, rest);
    TidyArray(v);
    if kept == [] {
      assert Sep(EncAll(kept), trailing) + ("]" + rest) == "]" + rest;
      assert ("[" + ("]" + rest))[2..] == rest;
      assert Strip(v) == Arr([]);
    } else {
      KeptSmaller(v.elems);
      DecodesElements(v, kept, trailing, rest);
      SepFront(EncAll(kept), trailing, "]" + rest);
      BodyIsElements(v, kept[0], Sep(EncAll(kept), trailing) + ("]" + rest));
    }
  }

  // The text after an opening bracket does not close it at once when an element follows.
  lemma BodyIsElements(v: Value, first: Value, body: string)
    requires !first.Float? && Enc(first) <= body
    ensures ParseValue("[" + body) == match ParseElements(body) case Fail => Fail case Done(es, r) => Done(Arr(es), r)
  {
    EncStart(first);
    assert ("[" + body)[1..] == body;
  }

  lemma EncStart(v: Value)
    requires !v.Float?
    ensures Enc(v) != "" && Enc(v)[0] != ']' && Enc(v)[0] != '}'
  {
    match v
    case Int(n) => DigitsStart(if n < 0 then -n else n);
    case _ =>
  }

  lemma {:induction false} KeptSmaller(es: seq<Value>)
    ensures |Kept(es)| <= |es|
  {
    if es != [] { KeptSmaller(es[..|es| - 1]); }
  }

  // An element followed by a comma, and an element followed by the closing bracket.
  lemma ElementsStep(s: string, v: Value, more: string)
    requires ParseValue(s) == Done(v, "," + more)
    ensures ParseElements(s)
         == match ParseElements(more) case Fail => Fail case Done(es, rest) => Done([v] + es, rest)
  {
    assert ("," + more)[1..] == more;
  }

  lemma ElementsEnd(s: string, v: Value, rest: string)
    requires ParseValue(s) == Done(v, "]" + rest)
    ensures ParseElements(s) == Done([v], rest)
  {
    assert ("]" + rest)[1..] == rest;
  }

  // The text of some elements: the first, and then a comma and the others or the closing bracket.
  lemma FirstElementText(e: Value, es: seq<Value>, trailing: bool, close: string)
    ensures Sep(EncAll([e] + es), trailing) + close
         == Enc(e) + (if es != [] || trailing then "," + (Sep(EncAll(es), trailing) + close) else close)
  {
    var ts := EncAll([e] + es);
    SepFront(ts, trailing, close);
    assert ts[1..] == EncAll(es);
  }

  ghost function ElementsReading(v: Value, es: seq<Value>, trailing: bool, rest: string): Parse<seq<Value>>
    requires v.Arr? && forall e :: e in es ==> e in v.elems
  {
    if !trailing && AllTidy(es) then Done(StripAll(v, es), rest) else Fail
  }

  lemma ElementsCons(v: Value, e: Value, es: seq<Value>)
    requires v.Arr? && e in v.elems && forall x :: x in es ==> x in v.elems
    ensures forall x :: x in [e] + es ==> x in v.elems
    ensures AllTidy([e] + es) <==> Tidy(e) && AllTidy(es)
    ensures StripAll(v, [e] + es) == [Strip(e)] + StripAll(v, es)
  {
    assert forall x :: x in [e] + es <==> x == e || x in es;
  }

  lemma FirstElementReading(v: Value, e: Value, es: seq<Value>, trailing: bool, rest: string)
    requires v.Arr? && e in v.elems && forall x :: x in es ==> x in v.elems
    ensures forall x :: x in [e] + es ==> x in v.elems
    ensures ElementsReading(v, [e] + es, trailing, rest)
         == if !Tidy(e) then Fail else
            match ElementsReading(v, es, trailing, rest)
            case Fail => Fail
            case Done(others, r) => Done([Strip(e)] + others, r)
  {
    ElementsCons(v, e, es);
  }

  lemma {:induction false} DecodesElements(v: Value, es: seq<Value>, trailing: bool, rest: string)
    requires v.Arr? && forall e :: e in es ==> e in v.elems && !e.Float?
    requires es != [] || trailing
    ensures ParseElements(Sep(EncAll(es), trailing) + ("]" + rest)) == ElementsReading(v, es, trailing, rest)
    decreases v, 0, 2 * |es|
  {
    if es == [] {
      assert Sep(EncAll(es), trailing) + ("]" + rest) == "]" + rest;
    } else {
      assert es == [es[0]] + es[1..];
      assert es[0] in v.elems;
      DecodesFirstElement(v, es[0], es[1..], trailing, rest);
    }
  }

  lemma {:induction false} DecodesFirstElement(v: Value, e: Value, es: seq<Value>, trailing: bool, rest: string)
    requires v.Arr? && e in v.elems && !e.Float?
    requires forall x :: x in es ==> x in v.elems && !x.Float?
    ensures forall x :: x in [e] + es ==> x in v.elems
    ensures ParseElements(Sep(EncAll([e] + es), trailing) + ("]" + rest))
         == ElementsReading(v, [e] + es, trailing, rest)
    decreases v, 0, 2 * |es| + 1
  {
    var close := "]" + rest;
    FirstElementText(e, es, trailing, close);
    FirstElementReading(v, e, es, trailing, rest);
    if es != [] || trailing {
      var more := Sep(EncAll(es), trailing) + close;
      Decodes(e, "," + more);
      DecodesElements(v, es, trailing, rest);
      if Tidy(e) {
        ElementsStep(Enc(e) + ("," + more), Strip(e), more);
      }
    } else {
      Decodes(e, close);
      assert [Strip(e)] + StripAll(v, []) == [Strip(e)];
      assert AllTidy(es);
      if Tidy(e) {
        ElementsEnd(Enc(e) + close, Strip(e), rest);
      }
    }
  }

  lemma {:induction false} DecodesMember(v: Value, key: string, rest: string)
    requires v.Obj? && key in v.fields && !v.fields[key].Float? && Ends(rest)
    ensures ParseMember(Quote(key) + ":" + Enc(v.fields[key]) + rest)
         == if Tidy(v.fields[key]) then Done((key, Strip(v.fields[key])), rest) else Fail
    decreases v, 0, 0
  {
    Decodes(v.fields[key], rest);
    MemberReadBack(key, Enc(v.fields[key]), rest, Reading(v.fields[key], rest));
  }

  lemma MemberReadBack(key: string, text: string, rest: string, reading: Parse<Value>)
    requires ParseValue(text + rest) == reading
    ensures ParseMember(Quote(key) + ":" + text + rest)
         == match reading case Fail => Fail case Done(v, r) => Done((key, v), r)
  {
    var more := text + rest;
    var s := Quote(key) + (":" + more);
    QuoteReadBack(key, ":" + more);
    KeyedReadBack(s, key, more);
    MemberRegroup(Quote(key), text, rest);
  }

  lemma MemberRegroup(quoted: string, text: string, rest: string)
    ensures quoted + ":" + text + rest == quoted + (":" + (text + rest))
  {
  }

  lemma KeyedReadBack(s: string, key: string, more: string)
    requires s != "" && s[0] == '"' && ParseChars(s[1..]) == Done(key, ":" + more)
    ensures ParseMember(s) == match ParseValue(more) case Fail => Fail case Done(v, r) => Done((key, v), r)
  {
    assert (":" + more)[1..] == more;
  }

  lemma StripCons(m: map<string, Value>, k: string, ks: seq<string>)
    requires k in m && forall x :: x in ks ==> x in m
    ensures StripMembers(m, [k]) == map[k := Strip(m[k])]
    ensures StripMembers(m, [k] + ks) == map[k := Strip(m[k])] + StripMembers(m, ks)
  {
  }

  // A member followed by a comma, and a member followed by the closing brace.
  lemma MembersStep(s: string, key: string, v: Value, more: string)
    requires ParseMember(s) == Done((key, v), "," + more)
    requires var others := ParseMembers(more); others.Done? ==> Precedes(key, others.value)
    ensures ParseMembers(s)
         == match ParseMembers(more) case Fail => Fail case Done(m, rest) => Done(map[key := v] + m, rest)
  {
    assert ("," + more)[1..] == more;
  }

  lemma MembersEnd(s: string, key: string, v: Value, rest: string)
    requires ParseMember(s) == Done((key, v), "}" + rest)
    ensures ParseMembers(s) == Done(map[key := v], rest)
  {
    assert ("}" + rest)[1..] == rest;
  }

  lemma EncMembersCons(v: Value, k: string, ks: seq<string>)
    requires v.Obj? && k in v.fields && forall x :: x in ks ==> x in v.fields
    ensures forall x :: x in [k] + ks ==> x in v.fields
    ensures EncMembers(v, [k] + ks) == [Quote(k) + ":" + Enc(v.fields[k])] + EncMembers(v, ks)
  {
  }

  lemma {:induction false} DecodesMembers(v: Value, ks: seq<string>, trailing: bool, rest: string)
    requires v.Obj? && forall k :: k in ks ==> k in v.fields && !v.fields[k].Float?
    requires Ascending(ks) && (ks != [] || trailing)
    ensures ParseMembers(Sep(EncMembers(v, ks), trailing) + ("}" + rest))
         == MembersReading(v.fields, ks, trailing, rest)
    decreases v, 0, 2 * |ks| + 1
  {
    var close := "}" + rest;
    if ks == [] {
      assert Sep(EncMembers(v, ks), trailing) + close == close;
    } else {
      assert ks == [ks[0]] + ks[1..];
      DecodesFirstMember(v, ks[0], ks[1..], trailing, rest);
    }
  }

  lemma TidyCons(m: map<string, Value>, k: string, ks: seq<string>)
    requires k in m && forall x :: x in ks ==> x in m
    ensures MembersTidy(m, [k] + ks) <==> Tidy(m[k]) && MembersTidy(m, ks)
    ensures MembersTidy(m, [k]) <==> Tidy(m[k])
  {
    assert forall x :: x in [k] + ks <==> x == k || x in ks;
  }

  // The text of some members: the first, and then a comma and the others or the closing brace.
  lemma FirstMemberText(v: Value, k: string, ks: seq<string>, trailing: bool, close: string)
    requires v.Obj? && k in v.fields && forall x :: x in ks ==> x in v.fields
    ensures forall x :: x in [k] + ks ==> x in v.fields
    ensures Sep(EncMembers(v, [k] + ks), trailing) + close
         == Quote(k) + ":" + Enc(v.fields[k])
            + (if ks != [] || trailing then "," + (Sep(EncMembers(v, ks), trailing) + close) else close)
  {
    EncMembersCons(v, k, ks);
    var ts := EncMembers(v, [k] + ks);
    SepFront(ts, trailing, close);
    assert ts[1..] == EncMembers(v, ks);
  }

  // What the others decode to decides, with the first, what all decode to.
  ghost function MembersReading(m: map<string, Value>, ks: seq<string>, trailing: bool, rest: string)
    : Parse<map<string, Value>>
    requires forall k :: k in ks ==> k in m
  {
    if !trailing && MembersTidy(m, ks) then Done(StripMembers(m, ks), rest) else Fail
  }

  lemma FirstMemberReading(m: map<string, Value>, k: string, ks: seq<string>, trailing: bool, rest: string)
    requires k in m && forall x :: x in ks ==> x in m
    ensures forall x :: x in [k] + ks ==> x in m
    ensures MembersReading(m, [k] + ks, trailing, rest)
         == if !Tidy(m[k]) then Fail else
            match MembersReading(m, ks, trailing, rest)
            case Fail => Fail
            case Done(others, r) => Done(map[k := Strip(m[k])] + others, r)
  {
    TidyCons(m, k, ks);
    StripCons(m, k, ks);
  }

  lemma AscendingTail(k: string, ks: seq<string>)
    requires Ascending([k] + ks)
    ensures Ascending(ks) && forall x :: x in ks ==> Less(k, x)
  {
    assert ([k] + ks)[0] == k;
    forall i | 0 <= i < |ks| ensures Less(k, ks[i]) { assert ([k] + ks)[i + 1] == ks[i]; }
    forall i, j | 0 <= i < j < |ks| ensures Less(ks[i], ks[j]) {
      assert ([k] + ks)[i + 1] == ks[i] && ([k] + ks)[j + 1] == ks[j];
    }
  }

  lemma {:induction false} DecodesFirstMember(v: Value, k: string, ks: seq<string>, trailing: bool, rest: string)
    requires v.Obj? && k in v.fields && !v.fields[k].Float?
    requires forall x :: x in ks ==> x in v.fields && !v.fields[x].Float?
    requires Ascending([k] + ks)
    ensures forall x :: x in [k] + ks ==> x in v.fields
    ensures ParseMembers(Sep(EncMembers(v, [k] + ks), trailing) + ("}" + rest))
         == MembersReading(v.fields, [k] + ks, trailing, rest)
    decreases v, 0, 2 * |ks| + 2
  {
    var close := "}" + rest;
    var text := Quote(k) + ":" + Enc(v.fields[k]);
    FirstMemberText(v, k, ks, trailing, close);
    if ks != [] || trailing {
      var more := Sep(EncMembers(v, ks), trailing) + close;
      DecodesMember(v, k, "," + more);
      AscendingTail(k, ks);
      DecodesMembers(v, ks, trailing, rest);
      FirstMemberReading(v.fields, k, ks, trailing, rest);
      if Tidy(v.fields[k]) {
        MembersStep(text + ("," + more), k, Strip(v.fields[k]), more);
      }
    } else {
      DecodesMember(v, k, close);
      assert [k] + ks == [k];
      TidyCons(v.fields, k, []);
      StripCons(v.fields, k, []);
      if Tidy(v.fields[k]) {
        MembersEnd(text + close, k, Strip(v.fields[k]), rest);
      }
    }
  }

  ghost function Keys(v: Value): (ks: seq<string>)
    requires v.Obj?
    ensures forall k :: k in ks <==> k in v.fields
    ensures Ascending(ks)
  {
    SortedKeysSound(v.fields.Keys);
    var ks := SortedKeys(v.fields.Keys);
    assert forall k :: k in ks <==> k in KeySet(ks);
    ks
  }

  lemma ObjectText(v: Value, rest: string)
    requires v.Obj?
    ensures forall k :: k in KeptKeys(v.fields, Keys(v)) ==> k in v.fields
    ensures Enc(v) + rest
         == "{" + (Sep(EncMembers(v, KeptKeys(v.fields, Keys(v))), LastSkipped(Texts(v))) + ("}" + rest))
  {
    PresentMembers(v, Keys(v));
    PiecesSep(Texts(v));
    assert Texts(v) == MemberItems(v, Keys(v));
    Regroup("{", Pieces(Texts(v), |Texts(v)|), "}", rest);
  }

  lemma KeptMembers(v: Value)
    requires v.Obj?
    ensures forall k :: k in KeptKeys(v.fields, Keys(v)) <==> k in v.fields && !v.fields[k].Float?
    ensures v.fields != map[] <==> Keys(v) != []
  {
    KeptKeysIn(v.fields, Keys(v));
    if v.fields != map[] { assert LastKey(v.fields) in Keys(v); }
    if Keys(v) != [] { assert Keys(v)[0] in v.fields; }
  }

  lemma ObjectLastSkipped(v: Value)
    requires v.Obj?
    ensures LastSkipped(Texts(v)) <==> v.fields != map[] && v.fields[LastKey(v.fields)].Float?
  {
    KeptMembers(v);
    MemberTexts(v);
    if v.fields != map[] { assert LastKey(v.fields) == Keys(v)[|Keys(v)| - 1]; }
  }

  // A tidy object has no comma after its last member.
  lemma TidyObject(v: Value)
    requires v.Obj?
    ensures var kept := KeptKeys(v.fields, Keys(v));
      Tidy(v) <==> kept == [] || (!LastSkipped(Texts(v)) && MembersTidy(v.fields, kept))
  {
    var kept := KeptKeys(v.fields, Keys(v));
    KeptMembers(v);
    ObjectLastSkipped(v);
    if kept != [] { assert kept[0] in kept; }
    assert MembersTidy(v.fields, kept) <==> forall k :: k in v.fields && !v.fields[k].Float? ==> Tidy(v.fields[k]);
  }

  // The text after an opening brace does not close it at once when a member follows.
  lemma BodyIsMembers(key: string, body: string)
    requires Quote(key) <= body
    ensures ParseValue("{" + body) == match ParseMembers(body) case Fail => Fail case Done(m, r) => Done(Obj(m), r)
  {
    assert body[0] == Quote(key)[0] == '"';
    assert ("{" + body)[1..] == body;
  }

  lemma EmptyObject(v: Value, rest: string)
    requires v.Obj? && KeptKeys(v.fields, Keys(v)) == []
    ensures ParseValue(Enc(v) + rest) == Done(Obj(map[]), rest)
  {
    ObjectText(v, rest);
    var kept: seq<string> := [];
    assert Sep(EncMembers(v, kept), LastSkipped(Texts(v))) + ("}" + rest) == "}" + rest;
    assert ("{" + ("}" + rest))[2..] == rest;
  }

  lemma NonEmptyObject(v: Value, kept: seq<string>, trailing: bool, rest: string)
    requires v.Obj? && kept == KeptKeys(v.fields, Keys(v)) && kept != [] && trailing == LastSkipped(Texts(v))
    ensures forall k :: k in kept ==> k in v.fields
    ensures ParseValue(Enc(v) + rest)
         == match ParseMembers(Sep(EncMembers(v, kept), trailing) + ("}" + rest))
            case Fail => Fail
            case Done(m, r) => Done(Obj(m), r)
  {
    ObjectText(v, rest);
    var ts := EncMembers(v, kept);
    SepFront(ts, trailing, "}" + rest);
    assert Quote(kept[0]) <= ts[0] <= Sep(ts, trailing) + ("}" + rest);
    BodyIsMembers(kept[0], Sep(ts, trailing) + ("}" + rest));
  }

  lemma {:induction false} DecodesObject(v: Value, rest: string)
    requires v.Obj? && Ends(rest)
    ensures ParseValue(Enc(v) + rest) == Reading(v, rest)
    decreases v, 0, 2 * |KeptKeys(v.fields, Keys(v))| + 2
  {
    var kept, trailing := KeptKeys(v.fields, Keys(v)), LastSkipped(Texts(v));
    KeptMembers(v);
    TidyObject(v);
    assert Strip(v) == Obj(StripMembers(v.fields, kept));
    if kept == [] {
      EmptyObject(v, rest);
      assert Strip(v) == Obj(map[]);
    } else {
      KeptKeysAscending(v.fields, Keys(v));
      DecodesMembers(v, kept, trailing, rest);
      NonEmptyObject(v, kept, trailing, rest);
    }
  }

  // ---------- The main results ----------

  lemma {:induction false} FloatFreeIsTidy(v: Value)
    requires FloatFree(v)
    ensures Tidy(v) && Strip(v) == v
    decreases v
  {
    match v
    case Arr(es) =>
      forall e | e in es ensures Tidy(e) && Strip(e) == e && !e.Float? { FloatFreeIsTidy(e); }
      KeptAll(es);
      if es != [] { assert es[|es| - 1] in es; }
      assert StripAll(v, es) == es;
    case Obj(m) =>
      forall k | k in m ensures Tidy(m[k]) && Strip(m[k]) == m[k] && !m[k].Float? { FloatFreeIsTidy(m[k]); }
      assert (map k | k in m && !m[k].Float? :: Strip(m[k])) == m;
    case _ =>
  }

  lemma {:induction false} KeptAll(es: seq<Value>)
    requires forall e :: e in es ==> !e.Float?
    ensures Kept(es) == es
  {
    if es != [] {
      KeptAll(es[..|es| - 1]);
      assert es == es[..|es| - 1] + [es[|es| - 1]];
    }
  }

  /** A float-free value is what its canonical JSON parses to. */
  lemma {:induction false} RoundTrip(v: Value)
    requires FloatFree(v)
    ensures ParseValue(Enc(v)) == Done(v, "")
  {
    FloatFreeIsTidy(v);
    Decodes(v, "");
    assert Enc(v) + "" == Enc(v);
  }

  /** Canonical JSON is uniquely decodable: equal bytes mean equal values. */
  lemma {:induction false} UniquelyDecodable(v: Value, w: Value)
    requires FloatFree(v) && FloatFree(w)
    ensures Enc(v) == Enc(w) <==> v == w
  {
    RoundTrip(v);
    RoundTrip(w);
  }

  /** The output is canonical JSON exactly when the value is tidy, and then it says the value without its floats. */
  lemma ValidExactlyWhenTidy(v: Value)
    requires !v.Float?
    ensures ParseValue(Enc(v)).Done? <==> Tidy(v)
    ensures Tidy(v) ==> ParseValue(Enc(v)) == Done(Strip(v), "")
  {
    Decodes(v, "");
    assert Enc(v) + "" == Enc(v);
  }

  lemma {:induction false} StripIsFloatFree(v: Value)
    requires !v.Float?
    ensures FloatFree(Strip(v))
    decreases v
  {
    match v
    case Arr(es) =>
      KeptIn(es);
      forall e | e in Kept(es) ensures e in es && !e.Float? && FloatFree(Strip(e)) { StripIsFloatFree(e); }
      forall x | x in StripAll(v, Kept(es)) ensures FloatFree(x) {
        var i :| 0 <= i < |Kept(es)| && x == Strip(Kept(es)[i]);
        assert Kept(es)[i] in Kept(es);
      }
    case Obj(m) =>
      forall k | k in m && !m[k].Float? ensures FloatFree(Strip(m[k])) { StripIsFloatFree(m[k]); }
    case _ =>
  }

  lemma {:induction false} KeptKeysAscending(m: map<string, Value>, ks: seq<string>)
    requires Ascending(ks) && forall k :: k in ks ==> k in m
    ensures Ascending(KeptKeys(m, ks))
  {
    if ks != [] {
      var front, last := ks[..|ks| - 1], ks[|ks| - 1];
      KeptKeysAscending(m, front);
      KeptKeysIn(m, front);
      forall k | k in KeptKeys(m, front) ensures Less(k, last) {
        var i :| 0 <= i < |front| && front[i] == k;
      }
    }
  }

  lemma StrippedKeys(v: Value)
    requires v.Obj?
    ensures Strip(v).Obj?
    ensures Keys(Strip(v)) == KeptKeys(v.fields, Keys(v))
    ensures forall k :: k in Keys(Strip(v)) ==> k in v.fields && !v.fields[k].Float?
  {
    var kept := KeptKeys(v.fields, Keys(v));
    KeptMembers(v);
    KeptKeysAscending(v.fields, Keys(v));
    AscendingUnique(kept);
    assert KeySet(kept) == Strip(v).fields.Keys;
  }

  /** Stripping floats before encoding makes no difference to a tidy value. */
  lemma {:induction false} TidyStrips(v: Value)
    requires Tidy(v) && !v.Float?
    ensures Enc(v) == Enc(Strip(v))
    decreases v
  {
    match v
    case Arr(es) =>
      var kept := Kept(es);
      KeptIn(es);
      forall e | e in kept ensures Enc(Strip(e)) == Enc(e) { TidyStrips(e); }
      StripIsFloatFree(v);
      StrippedArray(v);
    case Obj(m) =>
      StrippedKeys(v);
      forall k | k in m && !m[k].Float? ensures Enc(Strip(m[k])) == Enc(m[k]) { TidyStrips(m[k]); }
      StripIsFloatFree(v);
      StrippedObject(v);
    case _ =>
  }

  // Without floats an array is written as its elements with commas between them.
  lemma FloatFreeArrayText(w: Value)
    requires w.Arr? && FloatFree(w)
    ensures Enc(w) + "" == "[" + (Sep(EncAll(w.elems), false) + ("]" + ""))
  {
    forall e | e in w.elems ensures !e.Float? { assert FloatFree(e); }
    KeptAll(w.elems);
    FloatFreeIsTidy(w);
    TidyArray(w);
    ArrayText(w, "");
  }

  lemma TidyArrayText(v: Value)
    requires v.Arr? && Tidy(v)
    ensures Enc(v) + "" == "[" + (Sep(EncAll(Kept(v.elems)), false) + ("]" + ""))
  {
    TidyArray(v);
    ArrayText(v, "");
  }

  lemma StrippedElements(v: Value)
    requires v.Arr?
    requires forall e :: e in Kept(v.elems) ==> Enc(Strip(e)) == Enc(e)
    ensures Strip(v).Arr? && EncAll(Strip(v).elems) == EncAll(Kept(v.elems))
  {
    var w, kept := Strip(v), Kept(v.elems);
    KeptIn(v.elems);
    assert w.elems == StripAll(v, kept);
    forall i | 0 <= i < |kept| ensures Enc(w.elems[i]) == Enc(kept[i]) { assert kept[i] in kept; }
  }

  lemma StrippedArray(v: Value)
    requires v.Arr? && Tidy(v) && FloatFree(Strip(v))
    requires forall e :: e in Kept(v.elems) ==> Enc(Strip(e)) == Enc(e)
    ensures Enc(v) == Enc(Strip(v))
  {
    TidyArrayText(v);
    StrippedElements(v);
    FloatFreeArrayText(Strip(v));
    assert Enc(v) + "" == Enc(v) && Enc(Strip(v)) + "" == Enc(Strip(v));
  }

  // Without floats an object is written as its members in key order with commas between them.
  lemma FloatFreeObjectText(w: Value)
    requires w.Obj? && FloatFree(w)
    ensures Enc(w) + "" == "{" + (Sep(EncMembers(w, Keys(w)), false) + ("}" + ""))
  {
    forall k | k in w.fields ensures !w.fields[k].Float? { assert FloatFree(w.fields[k]); }
    KeptKeysAll(w.fields, Keys(w));
    FloatFreeIsTidy(w);
    TidyObject(w);
    ObjectText(w, "");
  }

  lemma TidyObjectText(v: Value)
    requires v.Obj? && Tidy(v)
    ensures forall k :: k in KeptKeys(v.fields, Keys(v)) ==> k in v.fields
    ensures Enc(v) + "" == "{" + (Sep(EncMembers(v, KeptKeys(v.fields, Keys(v))), false) + ("}" + ""))
  {
    TidyObject(v);
    ObjectText(v, "");
  }

  lemma StrippedMembers(v: Value)
    requires v.Obj?
    requires forall k :: k in v.fields && !v.fields[k].Float? ==> Enc(Strip(v.fields[k])) == Enc(v.fields[k])
    ensures Strip(v).Obj?
    ensures forall k :: k in KeptKeys(v.fields, Keys(v)) ==> k in v.fields
    ensures EncMembers(Strip(v), Keys(Strip(v))) == EncMembers(v, KeptKeys(v.fields, Keys(v)))
  {
    StrippedKeys(v);
  }

  lemma StrippedObject(v: Value)
    requires v.Obj? && Tidy(v) && FloatFree(Strip(v))
    requires forall k :: k in v.fields && !v.fields[k].Float? ==> Enc(Strip(v.fields[k])) == Enc(v.fields[k])
    ensures Enc(v) == Enc(Strip(v))
  {
    TidyObjectText(v);
    StrippedMembers(v);
    FloatFreeObjectText(Strip(v));
    assert Enc(v) + "" == Enc(v) && Enc(Strip(v)) + "" == Enc(Strip(v));
  }

  lemma {:induction false} KeptKeysAll(m: map<string, Value>, ks: seq<string>)
    requires forall k :: k in ks ==> k in m && !m[k].Float?
    ensures KeptKeys(m, ks) == ks
  {
    if ks != [] {
      KeptKeysAll(m, ks[..|ks| - 1]);
      assert ks == ks[..|ks| - 1] + [ks[|ks| - 1]];
    }
  }

  /** Skipping floats while encoding equals removing them before, at all depths, exactly for tidy values. */
  lemma {:induction false} SkippingIsStripping(v: Value)
    requires !v.Float?
    ensures Enc(v) == Enc(Strip(v)) <==> Tidy(v)
  {
    StripIsFloatFree(v);
    RoundTrip(Strip(v));
    ValidExactlyWhenTidy(v);
    if Tidy(v) { TidyStrips(v); }
  }

  /** A value whose encoding is not JSON: an array that ends in a float. */
  lemma TrailingFloatBreaksJson()
    ensures var v := Arr([Null, Float("0.5")]);
      Enc(v) == "[null,]" && ParseValue(Enc(v)).Fail?
  {
    var v := Arr([Null, Float("0.5")]);
    assert v.elems[0] == Null && !Null.Float? && v.elems[0] in v.elems;
    assert !Tidy(v);
    ValidExactlyWhenTidy(v);
    assert Texts(v) == [Some("null"), None];
    assert Pieces(Texts(v), 1) == Pieces(Texts(v), 0) + Piece(Texts(v), 0);
  }
}
