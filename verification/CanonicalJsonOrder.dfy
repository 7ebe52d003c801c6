/**
 * The order of keys in canonical JSON, said of the bytes written and by the bytes of the keys.
 */
module CanonicalJsonOrder {
  import opened Options
  import opened CanonicalJson
  import opened CanonicalJsonTheorems

  // The keys of an object in an order in which each comes before the next by its bytes.
  ghost predicate InByteOrder(v: Value, ks: seq<string>) {
    && v.Obj? && KeySet(ks) == v.fields.Keys
    && forall i, j :: 0 <= i < j < |ks| ==> ByteBefore(ks[i], ks[j])
  }

  lemma ByteOrderIsSorted(v: Value, ks: seq<string>)
    requires InByteOrder(v, ks)
    ensures ks == SortedKeys(v.fields.Keys) && forall k :: k in ks ==> k in v.fields
  {
    forall i, j | 0 <= i < j < |ks| ensures Less(ks[i], ks[j]) { LessIsByteOrder(ks[i], ks[j]); }
    AscendingUnique(ks);
    forall k | k in ks ensures k in v.fields { assert k in KeySet(ks); }
  }

  /**
   * What is written of an object, at whatever depth it stands, are its members in the one order of its keys that
   * ascends by their bytes; there is such an order for every object.
   */
  lemma {:induction false} MembersInByteOrder(v: Value)
    requires v.Obj?
    ensures exists ks :: InByteOrder(v, ks)
    ensures forall ks :: InByteOrder(v, ks) ==>
      && (forall k :: k in ks ==> k in v.fields)
      && Enc(v) == "{" + Pieces(MemberItems(v, ks), |ks|) + "}"
  {
    var sorted := SortedKeys(v.fields.Keys);
    SortedKeysSound(v.fields.Keys);
    forall i, j | 0 <= i < j < |sorted| ensures ByteBefore(sorted[i], sorted[j]) {
      LessIsByteOrder(sorted[i], sorted[j]);
    }
    assert InByteOrder(v, sorted);
    forall ks | InByteOrder(v, ks)
      ensures (forall k :: k in ks ==> k in v.fields) && Enc(v) == "{" + Pieces(MemberItems(v, ks), |ks|) + "}"
    {
      ByteOrderIsSorted(v, ks);
      MemberTexts(v);
      assert Texts(v) == MemberItems(v, ks);
    }
  }

  /** For any two keys the member of the one that comes first by its bytes is written first. */
  lemma {:induction false} TwoMembers(a: string, b: string, x: Value, y: Value)
    requires ByteBefore(a, b) && !x.Float? && !y.Float?
    ensures Enc(Obj(map[a := x, b := y])) == "{" + Quote(a) + ":" + Enc(x) + "," + Quote(b) + ":" + Enc(y) + "}"
  {
    var v, ks := Obj(map[a := x, b := y]), [a, b];
    LessIsByteOrder(a, b);
    LessTotal(a, b);
    assert KeySet(ks) == v.fields.Keys;
    assert InByteOrder(v, ks);
    MembersInByteOrder(v);
    var items := MemberItems(v, ks);
    assert Pieces(items, 2) == Pieces(items, 1) + Piece(items, 1);
    assert Pieces(items, 1) == Pieces(items, 0) + Piece(items, 0);
    TwoRegroup(Quote(a), Enc(x), Quote(b), Enc(y));
  }

  lemma TwoRegroup(qa: string, ex: string, qb: string, ey: string)
    ensures "{" + ("" + (qa + ":" + ex + ",") + (qb + ":" + ey + "")) + "}"
         == "{" + qa + ":" + ex + "," + qb + ":" + ey + "}"
  {
  }
}
