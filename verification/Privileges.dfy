/**
 * User privileges: the packed bit field of User.h, its JSON encoding in User.c,
 * and the POST, PUT and DELETE transitions of RoutePrivileges.c.
 */
module Privileges {
  import opened Options

  // C's 32-bit int, whose bits are manipulated with |, & and ~.
  type Bits = bv32

  datatype Privilege = Deactivate | IssueTokens | Config | GrantPrivileges | ProcControl | Alias

  const ALL: Bits := 63

  // A JSON array of privileges; None is an element that is not a string.
  type Json = seq<Option<string>>

  function Bit(x: Privilege): Bits {
    match x
    case Deactivate => 1
    case IssueTokens => 2
    case Config => 4
    case GrantPrivileges => 8
    case ProcControl => 16
    case Alias => 32
  }

  function Name(x: Privilege): string {
    match x
    case Deactivate => "DEACTIVATE"
    case IssueTokens => "ISSUE_TOKENS"
    case Config => "CONFIG"
    case GrantPrivileges => "GRANT_PRIVILEGES"
    case ProcControl => "PROC_CONTROL"
    case Alias => "ALIAS"
  }

  function ParseName(p: string): Option<Privilege> {
    if p == "DEACTIVATE" then Some(Deactivate)
    else if p == "ISSUE_TOKENS" then Some(IssueTokens)
    else if p == "CONFIG" then Some(Config)
    else if p == "GRANT_PRIVILEGES" then Some(GrantPrivileges)
    else if p == "PROC_CONTROL" then Some(ProcControl)
    else if p == "ALIAS" then Some(Alias)
    else None
  }

  function DecodeOne(p: string): Bits {
    if p == "ALL" then ALL else
    match ParseName(p)
    case Some(x) => Bit(x)
    case None => 0
  }

  function DecodeElement(v: Option<string>): Bits {
    if v.None? then 0 else DecodeOne(v.value)
  }

  function OrAll(fields: seq<Bits>): Bits {
    if fields == [] then 0 else OrAll(fields[..|fields| - 1]) | fields[|fields| - 1]
  }

  function Fields(arr: Json): seq<Bits> {
    seq(|arr|, i requires 0 <= i < |arr| => DecodeElement(arr[i]))
  }

  function Decode(arr: Json): Bits {
    OrAll(Fields(arr))
  }

  predicate HasBit(p: Bits, b: Bits) {
    p & b != 0
  }

  /** Whether the bit field p grants x. */
  predicate Has(p: Bits, x: Privilege) {
    HasBit(p, Bit(x))
  }

  /** Whether a JSON array names x, by its own name or by the "ALL" shorthand. */
  predicate Names(arr: Json, x: Privilege) {
    Some("ALL") in arr || Some(Name(x)) in arr
  }

  predicate SingleBit(b: Bits) {
    b == 1 || b == 2 || b == 4 || b == 8 || b == 16 || b == 32
  }

  lemma BitwiseAt(p: Bits, q: Bits, b: Bits)
    requires SingleBit(b)
    ensures HasBit(p | q, b) <==> HasBit(p, b) || HasBit(q, b)
    ensures HasBit(p & !q, b) <==> HasBit(p, b) && !HasBit(q, b)
  {
    assert (p | q) & b != 0 <==> p & b != 0 || q & b != 0;
    assert p & !q & b != 0 <==> p & b != 0 && q & b == 0;
  }

  // A privilege's bit by another name, so that proofs about it need not tell the privileges apart.
  lemma HasIs(p: Bits, x: Privilege, b: Bits)
    requires b == Bit(x)
    ensures SingleBit(b)
    ensures Has(p, x) <==> HasBit(p, b)
  {
  }

  /** Union and difference of bit fields act privilege by privilege. */
  lemma Bitwise(p: Bits, q: Bits, x: Privilege)
    ensures Has(p | q, x) <==> Has(p, x) || Has(q, x)
    ensures Has(p & !q, x) <==> Has(p, x) && !Has(q, x)
  {
    var b, union, difference := Bit(x), p | q, p & !q;
    HasIs(p, x, b);
    HasIs(q, x, b);
    HasIs(union, x, b);
    HasIs(difference, x, b);
    BitwiseAt(p, q, b);
  }

  ghost predicate SomeHas(fields: seq<Bits>, b: Bits) {
    exists i :: 0 <= i < |fields| && HasBit(fields[i], b)
  }

  lemma SomeHasSnoc(front: seq<Bits>, last: Bits, b: Bits)
    ensures SomeHas(front + [last], b) <==> SomeHas(front, b) || HasBit(last, b)
  {
    var fields := front + [last];
    if i :| 0 <= i < |front| && HasBit(front[i], b) { assert HasBit(fields[i], b); }
    if HasBit(last, b) { assert HasBit(fields[|front|], b); }
  }

  lemma {:induction false} OrAllHas(fields: seq<Bits>, b: Bits)
    requires SingleBit(b)
    ensures HasBit(OrAll(fields), b) <==> SomeHas(fields, b)
  {
    if fields == [] {
      assert OrAll(fields) == 0;
    } else {
      var front, last := fields[..|fields| - 1], fields[|fields| - 1];
      OrAllHas(front, b);
      BitwiseAt(OrAll(front), last, b);
      SomeHasSnoc(front, last, b);
      assert fields == front + [last];
    }
  }

  lemma DecodeElementNames(v: Option<string>, x: Privilege)
    ensures Has(DecodeElement(v), x) <==> v == Some("ALL") || v == Some(Name(x))
  {
  }

  /** Decoding depends only on which names occur: not on order, repetition or unknown names. */
  lemma DecodeNames(arr: Json, x: Privilege)
    ensures Has(Decode(arr), x) <==> Names(arr, x)
  {
    var fields := Fields(arr);
    OrAllHas(fields, Bit(x));
    forall i | 0 <= i < |arr|
      ensures HasBit(fields[i], Bit(x)) <==> arr[i] == Some("ALL") || arr[i] == Some(Name(x))
    {
      DecodeElementNames(arr[i], x);
    }
  }

  /** The names on the wire and the bits they stand for. */
  lemma WireNames()
    ensures Decode([Some("DEACTIVATE")]) == 1 && Decode([Some("ISSUE_TOKENS")]) == 2 && Decode([Some("CONFIG")]) == 4
    ensures Decode([Some("GRANT_PRIVILEGES")]) == 8 && Decode([Some("PROC_CONTROL")]) == 16
    ensures Decode([Some("ALIAS")]) == 32 && Decode([Some("ALL")]) == 63 && Decode([None]) == 0
    ensures Has(1, Deactivate) && Has(2, IssueTokens) && Has(4, Config)
    ensures Has(8, GrantPrivileges) && Has(16, ProcControl) && Has(32, Alias)
  {
    DecodesTo(Some("DEACTIVATE"), 1);
    DecodesTo(Some("ISSUE_TOKENS"), 2);
    DecodesTo(Some("CONFIG"), 4);
    DecodesTo(Some("GRANT_PRIVILEGES"), 8);
    DecodesTo(Some("PROC_CONTROL"), 16);
    DecodesTo(Some("ALIAS"), 32);
    DecodesTo(Some("ALL"), 63);
    DecodesTo(None, 0);
  }

  lemma DecodesTo(v: Option<string>, b: Bits)
    requires DecodeElement(v) == b
    ensures Decode([v]) == b
  {
    var fields := Fields([v]);
    assert fields == [b];
    assert fields[..0] == [];
    assert OrAll([]) == 0;
    NothingOr(b);
  }

  lemma NothingOr(b: Bits)
    ensures 0 | b == b
  {
  }

  // ---------- Encoding ----------

  function EncodeBit(p: Bits, x: Privilege): Json {
    if p & Bit(x) == Bit(x) then [Some(Name(x))] else []
  }

  function Encode(p: Bits): Json {
    if p & ALL == ALL then [Some("ALL")] else EncodeApart(p)
  }

  function EncodeApart(p: Bits): Json {
    EncodeBit(p, Deactivate) + EncodeBit(p, IssueTokens) + EncodeBit(p, Config)
    + EncodeBit(p, GrantPrivileges) + EncodeBit(p, ProcControl) + EncodeBit(p, Alias)
  }

  lemma AllBits(p: Bits, b: Bits)
    requires SingleBit(b)
    ensures p & b == b <==> HasBit(p, b)
    ensures p & ALL == ALL ==> HasBit(p, b)
  {
  }

  lemma EncodeBitIs(p: Bits, x: Privilege, b: Bits)
    requires b == Bit(x)
    ensures EncodeBit(p, x) == if p & b == b then [Some(Name(x))] else []
  {
  }

  lemma EncodeBitWhen(p: Bits, x: Privilege)
    ensures EncodeBit(p, x) == if Has(p, x) then [Some(Name(x))] else []
  {
    var b := Bit(x);
    HasIs(p, x, b);
    EncodeBitIs(p, x, b);
    AllBits(p, b);
  }

  lemma EncodeBitNames(p: Bits, x: Privilege, y: Privilege)
    ensures EncodeBit(p, x) == if Has(p, x) then [Some(Name(x))] else []
    ensures Some(Name(y)) in EncodeBit(p, x) <==> x == y && Has(p, x)
    ensures Some("ALL") !in EncodeBit(p, x)
  {
    EncodeBitWhen(p, x);
    NamesOne(if Has(p, x) then [Some(Name(x))] else [], x, y);
  }

  lemma NamesOne(json: Json, x: Privilege, y: Privilege)
    requires json == [Some(Name(x))] || json == []
    ensures Some(Name(y)) in json <==> x == y && json != []
    ensures Some("ALL") !in json
  {
    DistinctNames(x, y);
  }

  lemma DistinctNames(x: Privilege, y: Privilege)
    ensures Name(x) == Name(y) <==> x == y
    ensures Name(x) != "ALL"
  {
    assert |Name(Deactivate)| == |Name(IssueTokens)| - 2 == 10;
    assert |Name(ProcControl)| == 12 && |Name(GrantPrivileges)| == 16;
  }

  /** Encoding loses nothing but the bits that name no privilege. */
  lemma {:induction false} EncodeNames(p: Bits, x: Privilege)
    ensures Names(Encode(p), x) <==> Has(p, x)
  {
    if p & ALL == ALL {
      AllBits(p, Bit(x));
    } else {
      EncodedApart(p, x);
    }
  }

  // Without the "ALL" shorthand, each privilege is written under its own name.
  lemma EncodedApart(p: Bits, x: Privilege)
    ensures Names(EncodeApart(p), x) <==> Has(p, x)
  {
    EncodeBitNames(p, Deactivate, x);
    EncodeBitNames(p, IssueTokens, x);
    EncodeBitNames(p, Config, x);
    EncodeBitNames(p, GrantPrivileges, x);
    EncodeBitNames(p, ProcControl, x);
    EncodeBitNames(p, Alias, x);
  }

  lemma SixBits(p: Bits, q: Bits)
    requires q & 0xFFFF_FFC0 == 0
    requires HasBit(p, 1) <==> HasBit(q, 1)
    requires HasBit(p, 2) <==> HasBit(q, 2)
    requires HasBit(p, 4) <==> HasBit(q, 4)
    requires HasBit(p, 8) <==> HasBit(q, 8)
    requires HasBit(p, 16) <==> HasBit(q, 16)
    requires HasBit(p, 32) <==> HasBit(q, 32)
    ensures q == p & ALL
  {
  }

  lemma {:induction false} OrAllMasked(fields: seq<Bits>)
    requires forall i :: 0 <= i < |fields| ==> fields[i] & 0xFFFF_FFC0 == 0
    ensures OrAll(fields) & 0xFFFF_FFC0 == 0
  {
    if fields == [] {
    } else {
      OrAllMasked(fields[..|fields| - 1]);
    }
  }

  lemma DecodeMasked(arr: Json)
    ensures Decode(arr) & 0xFFFF_FFC0 == 0
  {
    OrAllMasked(Fields(arr));
  }

  // ---------- The privileges stored in a user object ----------

  // What UserSetPrivileges leaves under the "privileges" key; None is an absent key.
  function Stored(p: Bits): Option<Json> {
    if p == 0 then None else Some(Encode(p))
  }

  // What UserGetPrivileges reads back.
  function Fetch(json: Option<Json>): Bits {
    if json.None? then 0 else Decode(json.value)
  }

  lemma FetchStored(p: Bits, x: Privilege)
    ensures Has(Fetch(Stored(p)), x) <==> Has(p, x)
  {
    if p != 0 {
      DecodeNames(Encode(p), x);
      EncodeNames(p, x);
    }
  }

  /** Setting privileges and getting them back keeps exactly the six defined bits of any int. */
  lemma SetThenGet(p: Bits)
    ensures Fetch(Stored(p)) == p & ALL
  {
    var q := Fetch(Stored(p));
    FetchStored(p, Deactivate);
    FetchStored(p, IssueTokens);
    FetchStored(p, Config);
    FetchStored(p, GrantPrivileges);
    FetchStored(p, ProcControl);
    FetchStored(p, Alias);
    if p != 0 { DecodeMasked(Encode(p)); }
    SixBits(p, q);
  }

  /** Two arrays naming the same privileges decode to the same int, whatever their order or repetitions. */
  lemma DecodeIsSetLike(a: Json, b: Json)
    requires forall x :: Names(a, x) <==> Names(b, x)
    ensures Decode(a) == Decode(b)
  {
    forall x ensures Has(Decode(a), x) <==> Has(Decode(b), x) {
      DecodeNames(a, x);
      DecodeNames(b, x);
    }
    DecodeMasked(a);
    DecodeMasked(b);
    SameSixBits(Decode(a), Decode(b));
  }

  lemma SameSixBits(p: Bits, q: Bits)
    requires p & 0xFFFF_FFC0 == 0 && q & 0xFFFF_FFC0 == 0
    requires forall x :: Has(p, x) <==> Has(q, x)
    ensures p == q
  {
    assert Has(p, Deactivate) <==> Has(q, Deactivate);
    assert Has(p, IssueTokens) <==> Has(q, IssueTokens);
    assert Has(p, Config) <==> Has(q, Config);
    assert Has(p, GrantPrivileges) <==> Has(q, GrantPrivileges);
    assert Has(p, ProcControl) <==> Has(q, ProcControl);
    assert Has(p, Alias) <==> Has(q, Alias);
    SixBits(p, q);
    SixBits(p, p);
  }

  // ---------- The route ----------

  datatype Verb = Post | Put | Delete

  /** The privilege x after a request, from whether it was granted and whether the request names it. */
  predicate Outcome(verb: Verb, granted: bool, named: bool) {
    match verb
    case Post => named
    case Put => granted || named
    case Delete => granted && !named
  }

  lemma OrAllStep(fields: seq<Bits>, i: nat)
    requires i < |fields|
    ensures OrAll(fields[..i + 1]) == OrAll(fields[..i]) | fields[i]
  {
    assert fields[..i + 1][..i] == fields[..i];
  }

  lemma OrNothing(p: Bits)
    ensures p | 0 == p
  {
  }

  // One turn of the decoding loop: elements that are not strings are skipped.
  method AddElement(privileges: Bits, v: Option<string>, ghost field: Bits) returns (privileges': Bits)
    requires field == DecodeElement(v)
    ensures privileges' == privileges | field
  {
    privileges' := privileges;
    if v.Some? {
      privileges' := privileges | DecodeOne(v.value);
    } else {
      OrNothing(privileges);
    }
  }

  method UserDecodePrivileges(arr: Json) returns (privileges: Bits)
    ensures privileges == Decode(arr)
  {
    ghost var fields := Fields(arr);
    privileges := 0;
    var i := 0;
    while i < |arr|
      invariant 0 <= i <= |arr|
      invariant fields == Fields(arr)
      invariant privileges == OrAll(fields[..i])
    {
      OrAllStep(fields, i);
      privileges := AddElement(privileges, arr[i], fields[i]);
      i := i + 1;
    }
    assert fields[..|arr|] == fields;
  }

  // The switch on the method of the request.
  method NewPrivileges(current: Bits, verb: Verb, named: Bits) returns (privileges: Bits)
    ensures privileges == Combine(verb, current, named)
  {
    match verb {
      case Post =>
        privileges := named;
      case Put =>
        privileges := current;
        privileges := privileges | named;
      case Delete =>
        privileges := current;
        privileges := privileges & !named;
    }
  }

  /** The array stored after a request, and the privileges it then grants. */
  method Update(stored: Option<Json>, verb: Verb, request: Json) returns (stored': Option<Json>)
    ensures stored' == Updated(stored, verb, request)
    ensures Outcomes(stored, verb, request, stored')
  {
    UpdatedGrantsAll(stored, verb, request);
    var named := UserDecodePrivileges(request);
    var privileges := NewPrivileges(Fetch(stored), verb, named);
    stored' := Stored(privileges);
  }

  ghost predicate Outcomes(stored: Option<Json>, verb: Verb, request: Json, stored': Option<Json>) {
    forall x :: Has(Fetch(stored'), x) <==> Outcome(verb, Has(Fetch(stored), x), Names(request, x))
  }

  lemma UpdatedGrantsAll(stored: Option<Json>, verb: Verb, request: Json)
    ensures Outcomes(stored, verb, request, Updated(stored, verb, request))
  {
    forall x ensures Has(Fetch(Updated(stored, verb, request)), x)
      <==> Outcome(verb, Has(Fetch(stored), x), Names(request, x))
    {
      UpdatedGrants(stored, verb, request, x);
    }
  }

  function Combine(verb: Verb, p: Bits, q: Bits): Bits {
    match verb
    case Post => q
    case Put => p | q
    case Delete => p & !q
  }

  function Updated(stored: Option<Json>, verb: Verb, request: Json): Option<Json> {
    Stored(Combine(verb, Fetch(stored), Decode(request)))
  }

  lemma CombineIs(verb: Verb, p: Bits, q: Bits, r: Bits)
    requires r == Combine(verb, p, q)
    ensures verb.Post? ==> r == q
    ensures verb.Put? ==> r == p | q
    ensures verb.Delete? ==> r == p & !q
  {
  }

  lemma UnionAt(p: Bits, q: Bits, r: Bits, b: Bits)
    requires SingleBit(b) && r == p | q
    ensures HasBit(r, b) <==> HasBit(p, b) || HasBit(q, b)
  {
    BitwiseAt(p, q, b);
  }

  lemma DifferenceAt(p: Bits, q: Bits, r: Bits, b: Bits)
    requires SingleBit(b) && r == p & !q
    ensures HasBit(r, b) <==> HasBit(p, b) && !HasBit(q, b)
  {
    BitwiseAt(p, q, b);
  }

  lemma CombineAt(verb: Verb, p: Bits, q: Bits, r: Bits, b: Bits)
    requires SingleBit(b)
    requires verb.Post? ==> r == q
    requires verb.Put? ==> r == p | q
    requires verb.Delete? ==> r == p & !q
    ensures HasBit(r, b) <==> Outcome(verb, HasBit(p, b), HasBit(q, b))
  {
    match verb
    case Post =>
    case Put => UnionAt(p, q, r, b);
    case Delete => DifferenceAt(p, q, r, b);
  }

  lemma CombineHas(verb: Verb, p: Bits, q: Bits, r: Bits, x: Privilege)
    requires r == Combine(verb, p, q)
    ensures Has(r, x) <==> Outcome(verb, Has(p, x), Has(q, x))
  {
    var b := Bit(x);
    HasIs(p, x, b);
    HasIs(q, x, b);
    HasIs(r, x, b);
    CombineIs(verb, p, q, r);
    CombineAt(verb, p, q, r, b);
  }

  lemma CombineGrants(verb: Verb, p: Bits, q: Bits, x: Privilege)
    ensures Has(Fetch(Stored(Combine(verb, p, q))), x) <==> Outcome(verb, Has(p, x), Has(q, x))
  {
    var r := Combine(verb, p, q);
    CombineHas(verb, p, q, r, x);
    FetchStored(r, x);
  }

  /** POST, PUT and DELETE replace, extend and reduce the set of privileges. */
  lemma UpdatedGrants(stored: Option<Json>, verb: Verb, request: Json, x: Privilege)
    ensures Has(Fetch(Updated(stored, verb, request)), x)
       <==> Outcome(verb, Has(Fetch(stored), x), Names(request, x))
  {
    DecodeNames(request, x);
    CombineGrants(verb, Fetch(stored), Decode(request), x);
  }
}
