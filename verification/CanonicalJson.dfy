/**
 * The canonical JSON encoder of CanonicalJson.c: what it writes, as a function of the value, and the
 * two mutually recursive procedures that write it to a stream.
 *
 * A char stands for one byte. JsonEncodeString and JsonEncodeValue belong to a library that is not part
 * of this model; strings are escaped as in section 7 of RFC 8259 with the short forms of the Matrix
 * Specification, and the text of a float is whatever the library prints.
 */
module CanonicalJson {
  import opened Options

  datatype Value =
    | Null
    | Bool(b: bool)
    | Int(n: int)
    | Float(text: string)
    | Str(s: string)
    | Arr(elems: seq<Value>)
    | Obj(fields: map<string, Value>)

  // ---------- Scalars ----------

  function Digits(n: nat): string {
    if n < 10 then [Digit(n)] else Digits(n / 10) + [Digit(n % 10)]
  }

  function Digit(d: nat): char
    requires d < 10
  {
    '0' + d as char
  }

  function IntText(n: int): string {
    if n < 0 then "-" + Digits(-n) else Digits(n)
  }

  function HexDigit(d: nat): char
    requires d < 16
  {
    if d < 10 then '0' + d as char else 'a' + (d - 10) as char
  }

  function EscapeChar(c: char): string {
    if c == '"' then "\\\""
    else if c == '\\' then "\\\\"
    else if c as int == 8 then "\\b"
    else if c as int == 9 then "\\t"
    else if c as int == 10 then "\\n"
    else if c as int == 12 then "\\f"
    else if c as int == 13 then "\\r"
    else if c as int < 32 then "\\u00" + [HexDigit(c as int / 16), HexDigit(c as int % 16)]
    else [c]
  }

  function Escape(s: string): string {
    if s == "" then "" else EscapeChar(s[0]) + Escape(s[1..])
  }

  function Quote(s: string): string {
    "\"" + Escape(s) + "\""
  }

  // What JsonEncodeValue writes for a value that is neither an object nor an array.
  function ScalarText(v: Value): string
    requires !v.Arr? && !v.Obj?
  {
    match v
    case Null => "null"
    case Bool(b) => if b then "true" else "false"
    case Int(n) => IntText(n)
    case Float(text) => text
    case Str(s) => Quote(s)
  }

  // ---------- Key order ----------

  // strcmp(a, b) < 0.
  predicate Less(a: string, b: string)
    decreases |a|
  {
    b != "" && (a == "" || a[0] < b[0] || (a[0] == b[0] && Less(a[1..], b[1..])))
  }

  lemma {:induction false} LessTransitive(a: string, b: string, c: string)
    requires Less(a, b) && Less(b, c)
    ensures Less(a, c)
    decreases |a|
  {
    if a != "" && a[0] == b[0] && b[0] == c[0] {
      LessTransitive(a[1..], b[1..], c[1..]);
    }
  }

  lemma {:induction false} LessTotal(a: string, b: string)
    ensures a == b || Less(a, b) || Less(b, a)
    ensures !(Less(a, b) && Less(b, a))
    ensures !Less(a, a)
    decreases |a|
  {
    if a != "" && b != "" && a[0] == b[0] {
      LessTotal(a[1..], b[1..]);
      assert a == [a[0]] + a[1..] && b == [b[0]] + b[1..];
    }
    if a != "" { LessTotal(a[1..], a[1..]); }
  }

  // Byte order said by position: the two agree before n, and there a ends or has the smaller byte.
  ghost predicate SmallerAt(a: string, b: string, n: nat) {
    n <= |a| && n < |b| && a[..n] == b[..n] && (n == |a| || a[n] as int < b[n] as int)
  }

  ghost predicate ByteBefore(a: string, b: string) {
    exists n: nat :: SmallerAt(a, b, n)
  }

  // Moving the place by one common byte in front.
  lemma SmallerBehind(a: string, b: string, n: nat)
    requires a != "" && b != "" && a[0] == b[0]
    ensures SmallerAt(a, b, n + 1) <==> SmallerAt(a[1..], b[1..], n)
    ensures !SmallerAt(a, b, 0)
  {
    if n + 1 <= |a| && n + 1 <= |b| {
      assert a[..n + 1] == [a[0]] + a[1..][..n] && b[..n + 1] == [b[0]] + b[1..][..n];
      assert a[1..][..n] == a[..n + 1][1..] && b[1..][..n] == b[..n + 1][1..];
    }
  }

  lemma SmallerInFront(a: string, b: string, n: nat)
    requires a != "" && b != "" && a[0] != b[0]
    ensures SmallerAt(a, b, n) <==> n == 0 && a[0] < b[0]
  {
    if 0 < n <= |a| && n < |b| { assert a[..n][0] == a[0] && b[..n][0] == b[0]; }
  }

  /** strcmp puts a before b exactly when they agree up to a place where a ends or has the smaller byte. */
  lemma {:induction false} LessIsByteOrder(a: string, b: string)
    ensures Less(a, b) <==> ByteBefore(a, b)
    decreases |a|
  {
    if a == "" || b == "" {
      if b != "" { assert SmallerAt(a, b, 0); }
    } else if a[0] == b[0] {
      LessIsByteOrder(a[1..], b[1..]);
      if ByteBefore(a[1..], b[1..]) {
        var n: nat :| SmallerAt(a[1..], b[1..], n);
        SmallerBehind(a, b, n);
      }
      if ByteBefore(a, b) {
        var n: nat :| SmallerAt(a, b, n);
        SmallerBehind(a, b, if n > 0 then n - 1 else 0);
      }
    } else {
      SmallerInFront(a, b, 0);
      if ByteBefore(a, b) {
        var n: nat :| SmallerAt(a, b, n);
        SmallerInFront(a, b, n);
      }
    }
  }

  ghost predicate Ascending(ks: seq<string>) {
    forall i, j :: 0 <= i < j < |ks| ==> Less(ks[i], ks[j])
  }

  ghost function KeySet(ks: seq<string>): set<string> {
    set k | k in ks
  }

  ghost predicate IsLeast(k: string, ks: set<string>) {
    k in ks && forall k' :: k' in ks && k' != k ==> Less(k, k')
  }

  lemma {:induction false} HasLeast(ks: set<string>)
    requires ks != {}
    ensures exists k :: IsLeast(k, ks)
    decreases |ks|
  {
    var k :| k in ks;
    if ks == {k} {
      assert IsLeast(k, ks);
    } else {
      HasLeast(ks - {k});
      var least :| IsLeast(least, ks - {k});
      LessTotal(k, least);
      if Less(k, least) {
        forall k' | k' in ks && k' != k ensures Less(k, k') {
          if k' != least { LessTransitive(k, least, k'); }
        }
        assert IsLeast(k, ks);
      } else {
        assert IsLeast(least, ks);
      }
    }
  }

  ghost function Least(ks: set<string>): (k: string)
    requires ks != {}
    ensures IsLeast(k, ks)
  {
    HasLeast(ks);
    var k :| IsLeast(k, ks);
    k
  }

  ghost function SortedKeys(ks: set<string>): seq<string>
    decreases |ks|
  {
    if ks == {} then [] else [Least(ks)] + SortedKeys(ks - {Least(ks)})
  }

  lemma {:induction false} SortedKeysSound(ks: set<string>)
    ensures KeySet(SortedKeys(ks)) == ks
    ensures Ascending(SortedKeys(ks))
    decreases |ks|
  {
    if ks != {} {
      var k := Least(ks);
      var rest := SortedKeys(ks - {k});
      SortedKeysSound(ks - {k});
      assert forall x :: x in rest <==> x in KeySet(rest);
      assert SortedKeys(ks) == [k] + rest;
      forall x ensures x in KeySet([k] + rest) <==> x in ks {
      }
      forall i, j | 0 <= i < j < |[k] + rest| ensures Less(([k] + rest)[i], ([k] + rest)[j]) {
        assert ([k] + rest)[j] == rest[j - 1] && rest[j - 1] in rest;
      }
    }
  }

  /** A strictly ascending sequence of keys is determined by its set: any iteration order sorts to the same one. */
  lemma {:induction false} AscendingUnique(ks: seq<string>)
    requires Ascending(ks)
    ensures ks == SortedKeys(KeySet(ks))
    decreases |ks|
  {
    if ks != [] {
      var s := KeySet(ks);
      assert ks[0] in s;
      var k := Least(s);
      assert k == ks[0] by {
        var i :| 0 <= i < |ks| && ks[i] == k;
        if i > 0 { LessTotal(ks[0], k); }
      }
      forall i | 1 <= i < |ks| ensures ks[i] != k { LessTotal(ks[0], ks[0]); }
      assert ks == [ks[0]] + ks[1..];
      assert KeySet(ks[1..]) == s - {k};
      AscendingUnique(ks[1..]);
    }
  }

  // ---------- What the encoder writes ----------

  // The members of an array or object as the loops see them: None for one that is skipped for being a float.
  type Items = seq<Option<string>>

  ghost function Texts(v: Value): Items
    requires v.Arr? || v.Obj?
    decreases v, 0
  {
    match v
    case Arr(es) => seq(|es|, i requires 0 <= i < |es| => if es[i].Float? then None else Some(Enc(es[i])))
    case Obj(m) =>
      SortedKeysSound(m.Keys);
      var ks := SortedKeys(m.Keys);
      seq(|ks|, i requires 0 <= i < |ks| =>
        assert ks[i] in KeySet(ks);
        MemberText(v, ks[i]))
  }

  ghost function MemberText(v: Value, key: string): Option<string>
    requires v.Obj? && key in v.fields
    decreases v, -1
  {
    if v.fields[key].Float? then None else Some(Quote(key) + ":" + Enc(v.fields[key]))
  }

  // A comma follows every member written but the one at the last index.
  ghost function Piece(items: Items, i: nat): string
    requires i < |items|
  {
    if items[i].None? then "" else items[i].value + (if i < |items| - 1 then "," else "")
  }

  ghost function Pieces(items: Items, n: nat): string
    requires n <= |items|
  {
    if n == 0 then "" else Pieces(items, n - 1) + Piece(items, n - 1)
  }

  /** The bytes CanonicalJsonEncodeValue writes for a value. */
  ghost function Enc(v: Value): string
    decreases v, 1
  {
    match v
    case Arr(_) => "[" + Pieces(Texts(v), |Texts(v)|) + "]"
    case Obj(_) => "{" + Pieces(Texts(v), |Texts(v)|) + "}"
    case _ => ScalarText(v)
  }

  // ---------- The encoder itself ----------

  class Stream {
    var bytes: string

    constructor ()
      ensures bytes == ""
    {
      bytes := "";
    }

    method Putc(c: char)
      modifies this
      ensures bytes == old(bytes) + [c]
    {
      bytes := bytes + [c];
    }

    // Writes a whole string and returns the number of bytes written.
    method Puts(s: string) returns (length: int)
      modifies this
      ensures bytes == old(bytes) + s
      ensures length == |s|
    {
      bytes := bytes + s;
      length := |s|;
    }
  }

  // CanonicalJsonKeyCompare: the sign of strcmp.
  method KeyCompare(k1: string, k2: string) returns (sign: int)
    ensures sign < 0 <==> Less(k1, k2)
    ensures sign < 0 <==> ByteBefore(k1, k2)
    ensures sign > 0 <==> ByteBefore(k2, k1)
    ensures sign == 0 <==> k1 == k2
  {
    LessIsByteOrder(k1, k2);
    LessIsByteOrder(k2, k1);
    LessTotal(k1, k2);
    var i := 0;
    while i < |k1| && i < |k2| && k1[i] == k2[i]
      invariant 0 <= i <= |k1| && i <= |k2|
      invariant k1[..i] == k2[..i]
      invariant Less(k1, k2) <==> Less(k1[i..], k2[i..])
    {
      i := i + 1;
    }
    assert k1 == k1[..i] + k1[i..] && k2 == k2[..i] + k2[i..];
    if i == |k1| && i == |k2| {
      return 0;
    } else if i == |k1| {
      return -1;
    } else if i == |k2| {
      return 1;
    } else if k1[i] < k2[i] {
      return -1;
    } else {
      return 1;
    }
  }

  // ArraySort with the comparison above, on keys without repetition.
  method SortKeys(keys: array<string>)
    requires forall i, j :: 0 <= i < j < keys.Length ==> keys[i] != keys[j]
    modifies keys
    ensures keys[..] == SortedKeys(old(KeySet(keys[..])))
  {
    ghost var ks := KeySet(keys[..]);
    ghost var was := keys[..];
    var n := 0;
    while n < keys.Length
      invariant 0 <= n <= keys.Length
      invariant Ascending(keys[..n])
      invariant keys[n..] == was[n..]
      invariant KeySet(keys[..]) == ks
      invariant forall i, j :: 0 <= i < j < keys.Length ==> keys[i] != keys[j]
    {
      Insert(keys, n);
      n := n + 1;
    }
    assert keys[..n] == keys[..];
    AscendingUnique(keys[..]);
  }

  // Move keys[n] down to its place among the sorted keys before it.
  method Insert(keys: array<string>, n: nat)
    requires n < keys.Length && Ascending(keys[..n])
    requires forall i, j :: 0 <= i < j < keys.Length ==> keys[i] != keys[j]
    modifies keys
    ensures Ascending(keys[..n + 1])
    ensures keys[n + 1..] == old(keys[n + 1..])
    ensures KeySet(keys[..]) == old(KeySet(keys[..]))
    ensures forall i, j :: 0 <= i < j < keys.Length ==> keys[i] != keys[j]
  {
    var i := n;
    var done := false;
    while i > 0 && !done
      invariant 0 <= i <= n
      invariant forall a, b :: 0 <= a < b <= n && a != i && b != i ==> Less(keys[a], keys[b])
      invariant forall b :: i < b <= n ==> Less(keys[i], keys[b])
      invariant done ==> i > 0 && Less(keys[i - 1], keys[i])
      invariant keys[n + 1..] == old(keys[n + 1..])
      invariant KeySet(keys[..]) == old(KeySet(keys[..]))
      invariant forall a, b :: 0 <= a < b < keys.Length ==> keys[a] != keys[b]
      decreases i, !done
    {
      var sign := KeyCompare(keys[i - 1], keys[i]);
      LessTotal(keys[i - 1], keys[i]);
      if sign < 0 {
        done := true;
      } else {
        ghost var before := keys[..];
        keys[i - 1], keys[i] := keys[i], keys[i - 1];
        SwapKeepsKeys(before, keys[..], i);
        i := i - 1;
      }
    }
    if done {
      forall a | 0 <= a < i - 1 ensures Less(keys[a], keys[i]) { LessTransitive(keys[a], keys[i - 1], keys[i]); }
    }
  }

  lemma SwapKeepsKeys(a: seq<string>, b: seq<string>, i: nat)
    requires 0 < i < |a| == |b|
    requires b == a[i - 1 := a[i]][i := a[i - 1]]
    ensures KeySet(b) == KeySet(a)
  {
    forall k ensures k in KeySet(b) <==> k in KeySet(a) {
      if k in a {
        var j :| 0 <= j < |a| && a[j] == k;
        assert b[if j == i then i - 1 else if j == i - 1 then i else j] == k;
      }
      if k in b {
        var j :| 0 <= j < |b| && b[j] == k;
        assert a[if j == i then i - 1 else if j == i - 1 then i else j] == k;
      }
    }
  }

  lemma PieceAppended(items: Items, i: nat, start: string)
    requires i < |items|
    ensures start + Pieces(items, i) + Piece(items, i) == start + Pieces(items, i + 1)
    ensures |Pieces(items, i + 1)| == |Pieces(items, i)| + |Piece(items, i)|
  {
    assert Pieces(items, i + 1) == Pieces(items, i) + Piece(items, i);
  }

  /** CanonicalJsonEncodeValue: whatever order the hash map is iterated in, the bytes are those of Enc. */
  method EncodeValue(value: Value, out: Stream) returns (length: int)
    modifies out
    ensures out.bytes == old(out.bytes) + Enc(value)
    ensures length == |Enc(value)|
    decreases value, 4
  {
    length := 0;
    match value {
      case Obj(fields) =>
        var l := Encode(Some(fields), out);
        length := length + l;
      case Arr(arr) =>
        ghost var items := Texts(value);
        var l := EncodeBrackets(value, items, Pieces(items, |items|), out);
        length := length + l;
      case _ =>
        var l := out.Puts(ScalarText(value));
        length := length + l;
    }
  }

  ghost predicate IsElementText(value: Value, items: Items, i: nat)
    requires value.Arr? && i < |items| == |value.elems|
  {
    items[i] == if value.elems[i].Float? then None else Some(Enc(value.elems[i]))
  }

  // The brackets around the elements.
  method EncodeBrackets(value: Value, ghost items: Items, ghost elements: string, out: Stream) returns (length: int)
    requires value.Arr? && |items| == |value.elems|
    requires forall i :: 0 <= i < |items| ==> IsElementText(value, items, i)
    requires elements == Pieces(items, |items|)
    modifies out
    ensures out.bytes == old(out.bytes) + ("[" + elements + "]")
    ensures length == |"[" + elements + "]"|
    decreases value, 2
  {
    ghost var start := out.bytes;
    out.Putc('[');
    length := 1;
    var l := EncodeElements(value, items, out);
    length := length + l;
    out.Putc(']');
    length := length + 1;
    assert start + "[" + elements + "]" == start + ("[" + elements + "]");
  }

  // One element, whose text the caller names.
  method EncodeText(element: Value, out: Stream, ghost text: string) returns (length: int)
    requires text == Enc(element)
    modifies out
    ensures out.bytes == old(out.bytes) + text
    ensures length == |text|
    decreases element, 5
  {
    length := EncodeValue(element, out);
  }

  // The array loop of CanonicalJsonEncodeValue.
  method EncodeElements(value: Value, ghost items: Items, out: Stream) returns (length: int)
    requires value.Arr? && |items| == |value.elems|
    requires forall i :: 0 <= i < |items| ==> IsElementText(value, items, i)
    modifies out
    ensures out.bytes == old(out.bytes) + Pieces(items, |items|)
    ensures length == |Pieces(items, |items|)|
    decreases value, 1
  {
    ghost var start := out.bytes;
    length := 0;
    var i := 0;
    while i < |value.elems|
      invariant 0 <= i <= |value.elems|
      invariant out.bytes == start + Pieces(items, i)
      invariant length == |Pieces(items, i)|
    {
      var l := EncodeElement(value, i, items, out);
      length := length + l;
      PieceAppended(items, i, start);
      i := i + 1;
    }
  }

  // One turn of the array loop.
  method EncodeElement(value: Value, i: nat, ghost items: Items, out: Stream) returns (length: int)
    requires value.Arr? && i < |value.elems| == |items| && IsElementText(value, items, i)
    modifies out
    ensures out.bytes == old(out.bytes) + Piece(items, i)
    ensures length == |Piece(items, i)|
    decreases value, 0
  {
    length := 0;
    if !value.elems[i].Float? {
      ghost var text := items[i].value;
      var l := EncodeText(value.elems[i], out, text);
      length := length + l;
      if i < |value.elems| - 1 {
        out.Putc(',');
        length := length + 1;
      }
    }
  }

  /** CanonicalJsonEncode: -1 and no output without an object, otherwise the bytes of Enc and their number. */
  method Encode(hashMap: Option<map<string, Value>>, out: Stream) returns (length: int)
    modifies out
    ensures hashMap.None? ==> length == -1 && out.bytes == old(out.bytes)
    ensures hashMap.Some? ==> out.bytes == old(out.bytes) + Enc(Obj(hashMap.value))
    ensures hashMap.Some? ==> length == |Enc(Obj(hashMap.value))|
    decreases if hashMap.Some? then Obj(hashMap.value) else Null, 3
  {
    if hashMap.None? {
      return -1;
    }
    var value := Obj(hashMap.value);
    var keys := SortedKeyArray(hashMap.value);
    MemberTexts(value);
    ghost var members := Pieces(Texts(value), |Texts(value)|);
    length := EncodeBraces(value, keys, Texts(value), members, out);
  }

  ghost predicate IsMemberText(value: Value, keys: seq<string>, items: Items, i: nat)
    requires value.Obj? && i < |items| == |keys| && forall k :: k in keys ==> k in value.fields
  {
    items[i] == MemberText(value, keys[i])
  }

  // The braces around the members.
  method EncodeBraces(value: Value, keys: seq<string>, ghost items: Items, ghost members: string, out: Stream)
    returns (length: int)
    requires value.Obj? && |items| == |keys| && forall k :: k in keys ==> k in value.fields
    requires forall i :: 0 <= i < |items| ==> IsMemberText(value, keys, items, i)
    requires members == Pieces(items, |items|)
    modifies out
    ensures out.bytes == old(out.bytes) + ("{" + members + "}")
    ensures length == |"{" + members + "}"|
    decreases value, 2
  {
    ghost var start := out.bytes;
    out.Putc('{');
    length := 1;
    var l := EncodeMembers(value, keys, items, out);
    length := length + l;
    out.Putc('}');
    length := length + 1;
    assert start + "{" + members + "}" == start + ("{" + members + "}");
  }

  // The member loop of CanonicalJsonEncode, over the sorted keys.
  method EncodeMembers(value: Value, keys: seq<string>, ghost items: Items, out: Stream) returns (length: int)
    requires value.Obj? && |items| == |keys| && forall k :: k in keys ==> k in value.fields
    requires forall i :: 0 <= i < |items| ==> IsMemberText(value, keys, items, i)
    modifies out
    ensures out.bytes == old(out.bytes) + Pieces(items, |items|)
    ensures length == |Pieces(items, |items|)|
    decreases value, 1
  {
    ghost var start := out.bytes;
    length := 0;
    var i := 0;
    while i < |keys|
      invariant 0 <= i <= |keys|
      invariant out.bytes == start + Pieces(items, i)
      invariant length == |Pieces(items, i)|
    {
      var l := EncodeKeyed(value, keys, i, items, out);
      length := length + l;
      PieceAppended(items, i, start);
      i := i + 1;
    }
  }

  // One turn of the member loop.
  method EncodeKeyed(value: Value, keys: seq<string>, i: nat, ghost items: Items, out: Stream) returns (length: int)
    requires value.Obj? && i < |keys| == |items| && forall k :: k in keys ==> k in value.fields
    requires IsMemberText(value, keys, items, i)
    modifies out
    ensures out.bytes == old(out.bytes) + Piece(items, i)
    ensures length == |Piece(items, i)|
    decreases value, 0
  {
    length := 0;
    var key := keys[i];
    if !value.fields[key].Float? {
      ghost var text := items[i].value;
      var l := EncodeMember(key, value.fields[key], out, text);
      length := length + l;
      if i < |keys| - 1 {
        out.Putc(',');
        length := length + 1;
      }
    }
  }

  lemma MemberTexts(v: Value)
    requires v.Obj?
    ensures var ks := SortedKeys(v.fields.Keys);
      && |Texts(v)| == |ks|
      && (forall k :: k in ks ==> k in v.fields)
      && (forall i :: 0 <= i < |ks| ==> IsMemberText(v, ks, Texts(v), i))
  {
    SortedKeysSound(v.fields.Keys);
    var ks := SortedKeys(v.fields.Keys);
    forall k | k in ks ensures k in v.fields { assert k in KeySet(ks); }
  }

  // One member, whose text the caller names.
  method EncodeMember(key: string, member: Value, out: Stream, ghost text: string) returns (length: int)
    requires text == Quote(key) + ":" + Enc(member)
    modifies out
    ensures out.bytes == old(out.bytes) + text
    ensures length == |text|
    decreases member, 5
  {
    length := out.Puts(Quote(key));
    out.Putc(':');
    length := length + 1;
    var l := EncodeValue(member, out);
    length := length + l;
  }

  lemma KeySetSnoc(ks: seq<string>, k: string)
    ensures KeySet(ks + [k]) == KeySet(ks) + {k}
  {
    forall x ensures x in KeySet(ks + [k]) <==> x in KeySet(ks) + {k} {
    }
  }

  // Collect the keys in whatever order the hash map yields them.
  method CollectKeys(fields: map<string, Value>) returns (keys: seq<string>)
    ensures KeySet(keys) == fields.Keys
    ensures forall i, j :: 0 <= i < j < |keys| ==> keys[i] != keys[j]
  {
    keys := [];
    var pending := fields.Keys;
    while pending != {}
      invariant pending <= fields.Keys
      invariant KeySet(keys) == fields.Keys - pending
      invariant forall i, j :: 0 <= i < j < |keys| ==> keys[i] != keys[j]
      decreases |pending|
    {
      var key :| key in pending;
      KeySetSnoc(keys, key);
      assert key !in KeySet(keys);
      pending := pending - {key};
      keys := keys + [key];
    }
  }

  method SortedKeyArray(fields: map<string, Value>) returns (keys: seq<string>)
    ensures keys == SortedKeys(fields.Keys)
  {
    keys := CollectKeys(fields);
    var a := new string[|keys|](i requires 0 <= i < |keys| => keys[i]);
    assert a[..] == keys;
    SortKeys(a);
    keys := a[..];
  }
}
