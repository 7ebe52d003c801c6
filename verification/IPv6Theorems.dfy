/**
 * Which bracketed literals the IPv6 parser accepts, said of the text between the brackets and not of the loop.
 */
module IPv6Theorems {
  import opened Characters
  import opened Options
  import opened Identifiers
  import IdentifierParser
  import opened QuadTheorems

  // ---------- The literals ----------

  // The position of the first dot, or the end.
  function Dot(b: string): (z: nat)
    ensures z <= |b| && (z < |b| ==> b[z] == '.')
    ensures forall i :: 0 <= i < z ==> b[i] != '.'
  {
    if b == "" || b[0] == '.' then 0 else 1 + Dot(b[1..])
  }

  // The number of hexadecimal digits right before position i.
  function HexRun(b: string, i: nat): (n: nat)
    requires i <= |b|
    ensures n <= i
  {
    if i == 0 || !IsHexDigit(b[i - 1]) then 0 else 1 + HexRun(b, i - 1)
  }

  // "::" begins at i.
  predicate Double(b: string, i: nat) {
    i + 1 < |b| && b[i] == ':' && b[i + 1] == ':'
  }

  // A colon with no other beside it.
  predicate Single(b: string, i: nat) {
    i < |b| && b[i] == ':' && (i > 0 ==> b[i - 1] != ':') && (i + 1 < |b| ==> b[i + 1] != ':')
  }

  // From position p on, and before z: no two pairs of colons, and a group before each single one.
  predicate OnePair(b: string, p: nat, z: nat) {
    forall i, j :: p <= i < j && j + 1 < z ==> !(Double(b, i) && Double(b, j))
  }

  predicate Grouped(b: string, p: nat, z: nat)
    requires z <= |b|
  {
    forall i :: p <= i < z && Single(b, i) ==> 1 <= HexRun(b, i) <= 4
  }

  // The single colons before position n.
  function Singles(b: string, n: nat): nat
    requires n <= |b|
  {
    if n == 0 then 0 else Singles(b, n - 1) + (if Single(b, n - 1) then 1 else 0)
  }

  // The position before which there may be seven single colons: that of the dot at z, or else of the last character.
  function Limit(b: string, z: nat): (n: nat)
    ensures n <= |b|
  {
    if z < |b| then z else if b == "" then 0 else |b| - 1
  }

  // Digits and colons before z, and a dot or nothing at z.
  predicate Plain(b: string, z: nat) {
    z <= |b| && (z < |b| ==> b[z] == '.') && forall i :: 0 <= i < z ==> IsHexDigit(b[i]) || b[i] == ':'
  }

  // The digits and colons before the dot at z, or before the end.
  predicate Shaped(b: string, z: nat) {
    Plain(b, z) && OnePair(b, 0, z) && Grouped(b, 0, z) && Singles(b, Limit(b, z)) <= 7
  }

  /**
   * Digits and colons, of which at most one pair stands together and every other is preceded by a group of one to four
   * digits; no more than seven of those before the last character. The first dot, at z, belongs to a dotted quad
   * that takes the place of the last group. Groups before the pair and the last group may have any length.
   */
  ghost predicate Literal(b: string, z: nat)
    requires z <= |b|
  {
    Shaped(b, z) && (z < |b| ==> IsDottedQuad(b[z - HexRun(b, z)..]))
  }

  // ---------- The loop ----------

  // The text between the brackets.
  ghost predicate Between(t: string, b: string) {
    |t| >= |b| + 2 && t[0] == '[' && t[|b| + 1] == ']' && b == t[1..|b| + 1]
  }

  // What is left to require from position p on; quad says whether a dotted quad stands where the first dot wants one.
  ghost predicate Rest(b: string, p: nat, z: nat, filled: bool, quad: bool)
    requires z <= |b|
  {
    && OnePair(b, p, z) && Grouped(b, p, z)
    && (filled ==> forall i :: p <= i && i + 1 < z ==> !Double(b, i))
    && (p < |b| ==> Singles(b, Limit(b, z)) <= 7)
    && (z < |b| ==> quad)
  }

  // The loop from index p of t on ends at the given index.
  ghost predicate EndsAt(t: string, p: nat, filled: bool, digit: nat, digits: nat, end: nat)
    requires digit <= p <= |t|
  {
    IPv6Loop(t, p, filled, digit, digits) == Some(end)
  }

  // p is not inside a pair of colons.
  predicate Clear(b: string, p: nat, z: nat) {
    p <= z && Plain(b, z) && !(0 < p < |b| && b[p - 1] == ':' && b[p] == ':')
  }

  // The loop gets to the closing bracket exactly when the rest is as required.
  ghost predicate Agrees(t: string, b: string, p: nat, z: nat, filled: bool, quad: bool)
    requires p <= |b| < |t| && z <= |b|
  {
    EndsAt(t, p + 1, filled, HexRun(b, p), Singles(b, p), |b| + 1) <==> Rest(b, p, z, filled, quad)
  }

  lemma {:induction false} SinglesGrow(b: string, m: nat, n: nat)
    requires m <= n <= |b|
    ensures Singles(b, m) <= Singles(b, n)
    decreases n - m
  {
    if m < n { SinglesGrow(b, m, n - 1); }
  }

  ghost predicate AddressTo(t: string, start: nat, end: nat)
    requires start <= |t|
  {
    start <= end && IPv4(t[start..]) == Some(end - start)
  }

  // A dotted quad from position g up to the bracket.
  lemma EmbeddedQuad(t: string, b: string, g: nat, start: nat)
    requires Between(t, b) && g <= |b| && start == g + 1
    ensures AddressTo(t, start, |b| + 1) <==> IsDottedQuad(b[g..])
  {
    var s, quad, n := t[start..], b[g..], |b| - g;
    QuadExactly(quad);
    assert s[..n] == quad;
    assert s[n] == ']';
    if Quad(quad, DOTS) {
      QuadChars(quad, DOTS);
      forall k | 0 <= k < n ensures Is(DigitsAndDots, s[k]) { assert s[k] == quad[k]; }
      RunIs(s, DigitsAndDots, n);
    }
  }

  lemma AtEnd(t: string, b: string, z: nat, filled: bool, quad: bool)
    requires Between(t, b) && z == |b|
    ensures Agrees(t, b, |b|, z, filled, quad)
  {
    assert At(t, |b| + 1) == ']';
  }

  lemma RestAtDot(b: string, z: nat, filled: bool, quad: bool)
    requires z < |b|
    ensures Rest(b, z, z, filled, quad) <==> Singles(b, z) <= 7 && quad
  {
  }

  lemma DotTurn(t: string, p: nat, filled: bool, digit: nat, digits: nat, end: nat)
    requires digit <= p < |t| && t[p] == '.' && digits < 8
    ensures EndsAt(t, p, filled, digit, digits, end) <==> AddressTo(t, p - digit, end)
  {
    IdentifierParser.IPv6Dot(t, p, filled, digit, digits);
  }

  lemma DotTooMany(t: string, p: nat, filled: bool, digit: nat, digits: nat, end: nat)
    requires digit <= p < end && p < |t| && digits >= 8
    ensures !EndsAt(t, p, filled, digit, digits, end)
  {
    IdentifierParser.IPv6End(t, p, filled, digit, digits);
  }

  // At a dot the loop ends at the given index exactly if a dotted quad stands there.
  ghost predicate DotDecides(t: string, p: nat, filled: bool, digit: nat, digits: nat, end: nat, quad: bool)
    requires digit <= p <= |t|
  {
    EndsAt(t, p, filled, digit, digits, end) <==> digits < 8 && quad
  }

  lemma DotEnds(t: string, p: nat, filled: bool, digit: nat, digits: nat, start: nat, end: nat, quad: bool)
    requires digit <= p < end && p < |t| && t[p] == '.' && start == p - digit
    requires quad <==> AddressTo(t, start, end)
    ensures DotDecides(t, p, filled, digit, digits, end, quad)
  {
    if digits < 8 {
      DotTurn(t, p, filled, digit, digits, end);
    } else {
      DotTooMany(t, p, filled, digit, digits, end);
    }
  }

  // Whether or not a pair of colons came before.
  ghost predicate BothDecide(t: string, p: nat, digit: nat, digits: nat, end: nat, quad: bool)
    requires digit <= p <= |t|
  {
    DotDecides(t, p, false, digit, digits, end, quad) && DotDecides(t, p, true, digit, digits, end, quad)
  }

  lemma QuadDecides(t: string, p: nat, digit: nat, digits: nat, start: nat, end: nat, quad: bool)
    requires digit <= p < end && p < |t| && t[p] == '.' && start == p - digit
    requires quad <==> AddressTo(t, start, end)
    ensures BothDecide(t, p, digit, digits, end, quad)
  {
    DotEnds(t, p, false, digit, digits, start, end, quad);
    DotEnds(t, p, true, digit, digits, start, end, quad);
  }

  lemma AtDot(t: string, b: string, z: nat, filled: bool, quad: bool)
    requires Between(t, b) && z < |b|
    requires BothDecide(t, z + 1, HexRun(b, z), Singles(b, z), |b| + 1, quad)
    ensures Agrees(t, b, z, z, filled, quad)
  {
    RestAtDot(b, z, filled, quad);
  }

  // Eight colons before p, and more to come.
  lemma TooManyColons(t: string, b: string, p: nat, z: nat, filled: bool, quad: bool)
    requires Between(t, b) && Clear(b, p, z) && p < |b| && Singles(b, p) >= 8
    ensures Agrees(t, b, p, z, filled, quad)
  {
    SinglesGrow(b, p, Limit(b, z));
  }

  lemma RestOfDigit(b: string, p: nat, z: nat, filled: bool, quad: bool)
    requires Clear(b, p, z) && p < z && IsHexDigit(b[p]) && Singles(b, p) < 8
    ensures Rest(b, p, z, filled, quad) <==> Rest(b, p + 1, z, filled, quad)
    ensures HexRun(b, p + 1) == HexRun(b, p) + 1 && Singles(b, p + 1) == Singles(b, p)
  {
    assert !Single(b, p) && !Double(b, p);
  }

  lemma RestOfSingle(b: string, p: nat, z: nat, filled: bool, quad: bool)
    requires Clear(b, p, z) && p < z && b[p] == ':' && !Double(b, p) && Singles(b, p) < 8
    ensures Rest(b, p, z, filled, quad) <==> 1 <= HexRun(b, p) <= 4 && Rest(b, p + 1, z, filled, quad)
    ensures HexRun(b, p + 1) == 0 && Singles(b, p + 1) == Singles(b, p) + 1
  {
    assert Single(b, p);
  }

  lemma RestOfDouble(b: string, p: nat, z: nat, filled: bool, quad: bool)
    requires Clear(b, p, z) && p + 1 < z && Double(b, p) && Singles(b, p) < 8
    ensures filled ==> !Rest(b, p, z, filled, quad)
    ensures Double(b, p + 1) && p + 2 < z ==> !Rest(b, p, z, filled, quad)
    ensures !Double(b, p + 1) && !filled ==> (Rest(b, p, z, filled, quad) <==> Rest(b, p + 2, z, true, quad))
    ensures HexRun(b, p + 2) == 0 && Singles(b, p + 2) == Singles(b, p)
  {
    assert !Single(b, p) && !Single(b, p + 1);
    assert HexRun(b, p + 1) == 0;
    assert Singles(b, p + 1) == Singles(b, p);
    if !Double(b, p + 1) && !filled && Rest(b, p + 2, z, true, quad) {
      forall i, j | p <= i < j && j + 1 < z ensures !(Double(b, i) && Double(b, j)) {
        if j >= p + 2 { assert !Double(b, j); }
      }
    }
  }

  // The loop behind a pair of colons that a third follows fails.
  lemma AfterTriple(t: string, b: string, p: nat)
    requires Between(t, b) && p < |b| && b[p] == ':' && HexRun(b, p) == 0 && Singles(b, p) < 8
    ensures IPv6Loop(t, p + 1, true, 0, Singles(b, p)) == None
  {
    assert t[p + 1] == ':' && At(t, p + 2) == t[p + 2];
    if t[p + 2] == ':' {
      IdentifierParser.IPv6Colons(t, p + 1, true, 0, Singles(b, p));
    } else {
      IdentifierParser.IPv6Colon(t, p + 1, true, 0, Singles(b, p));
    }
  }

  lemma LoopAgreesAtDouble(t: string, b: string, p: nat, z: nat, filled: bool, quad: bool)
    requires Between(t, b) && Clear(b, p, z) && p + 1 < z && Double(b, p) && Singles(b, p) < 8
    requires !Double(b, p + 1) ==> Agrees(t, b, p + 2, z, true, quad)
    ensures Agrees(t, b, p, z, filled, quad)
  {
    RestOfDouble(b, p, z, filled, quad);
    assert t[p + 1] == ':' && t[p + 2] == ':';
    IdentifierParser.IPv6Colons(t, p + 1, filled, HexRun(b, p), Singles(b, p));
    if Double(b, p + 1) { AfterTriple(t, b, p + 2); }
  }

  lemma LoopAgreesAtSingle(t: string, b: string, p: nat, z: nat, filled: bool, quad: bool)
    requires Between(t, b) && Clear(b, p, z) && p < z && b[p] == ':' && !Double(b, p) && Singles(b, p) < 8
    requires Agrees(t, b, p + 1, z, filled, quad)
    ensures Agrees(t, b, p, z, filled, quad)
  {
    RestOfSingle(b, p, z, filled, quad);
    assert t[p + 1] == ':' && At(t, p + 2) == t[p + 2] != ':';
    IdentifierParser.IPv6Colon(t, p + 1, filled, HexRun(b, p), Singles(b, p));
  }

  lemma LoopAgreesAtDigit(t: string, b: string, p: nat, z: nat, filled: bool, quad: bool)
    requires Between(t, b) && Clear(b, p, z) && p < z && IsHexDigit(b[p]) && Singles(b, p) < 8
    requires Agrees(t, b, p + 1, z, filled, quad)
    ensures Agrees(t, b, p, z, filled, quad)
  {
    RestOfDigit(b, p, z, filled, quad);
    IdentifierParser.IPv6Hex(t, p + 1, filled, HexRun(b, p), Singles(b, p));
  }

  lemma {:induction false} LoopAgrees(t: string, b: string, p: nat, z: nat, filled: bool, quad: bool)
    requires Between(t, b) && Clear(b, p, z)
    requires z < |b| ==> BothDecide(t, z + 1, HexRun(b, z), Singles(b, z), |b| + 1, quad)
    ensures Agrees(t, b, p, z, filled, quad)
    decreases |b| - p
  {
    if p == |b| {
      AtEnd(t, b, z, filled, quad);
    } else if p == z {
      AtDot(t, b, p, filled, quad);
    } else if Singles(b, p) >= 8 {
      TooManyColons(t, b, p, z, filled, quad);
    } else if IsHexDigit(b[p]) {
      LoopAgrees(t, b, p + 1, z, filled, quad);
      LoopAgreesAtDigit(t, b, p, z, filled, quad);
    } else if Double(b, p) {
      if !Double(b, p + 1) { LoopAgrees(t, b, p + 2, z, true, quad); }
      LoopAgreesAtDouble(t, b, p, z, filled, quad);
    } else {
      LoopAgrees(t, b, p + 1, z, filled, quad);
      LoopAgreesAtSingle(t, b, p, z, filled, quad);
    }
  }

  // ---------- The theorem ----------

  // The loop passes only characters of IPv6 literals.
  lemma {:induction false} LoopChars(t: string, p: nat, filled: bool, digit: nat, digits: nat, end: nat)
    requires digit <= p <= |t| && IPv6Loop(t, p, filled, digit, digits) == Some(end)
    ensures end <= |t| && forall k :: p <= k < end ==> IsIPv6Char(t[k])
    decreases |t| - p
  {
    var c := At(t, p);
    if p == |t| || c == NUL || !IsIPv6Char(c) || digits >= 8 {
    } else if IsHexDigit(c) {
      LoopChars(t, p + 1, filled, digit + 1, digits, end);
    } else if c == ':' {
      if At(t, p + 1) == ':' {
        LoopChars(t, p + 2, true, 0, digits, end);
      } else {
        IdentifierParser.IPv6Colon(t, p, filled, digit, digits);
        LoopChars(t, p + 1, filled, 0, digits + 1, end);
      }
    } else {
      forall k | p <= k < end ensures IsIPv6Char(t[k]) {
        assert t[k] == t[p - digit..][k - (p - digit)];
      }
    }
  }

  lemma DotReady(t: string, b: string, z: nat, g: nat, run: nat, singles: nat, quad: bool)
    requires Between(t, b) && z < |b| && b[z] == '.' && run <= z && g == z - run
    requires quad <==> IsDottedQuad(b[g..])
    ensures BothDecide(t, z + 1, run, singles, |b| + 1, quad)
  {
    EmbeddedQuad(t, b, g, g + 1);
    assert t[z + 1] == b[z];
    QuadDecides(t, z + 1, run, singles, g + 1, |b| + 1, quad);
  }

  lemma RestIsShaped(b: string, z: nat, quad: bool)
    requires b != "" && Plain(b, z)
    ensures Rest(b, 0, z, false, quad) <==> Shaped(b, z) && (z < |b| ==> quad)
  {
  }

  lemma LoopDecides(t: string, b: string, z: nat, quad: bool)
    requires Between(t, b) && b != "" && Plain(b, z)
    requires z < |b| ==> BothDecide(t, z + 1, HexRun(b, z), Singles(b, z), |b| + 1, quad)
    ensures EndsAt(t, 1, false, 0, 0, |b| + 1) <==> Shaped(b, z) && (z < |b| ==> quad)
  {
    LoopAgrees(t, b, 0, z, false, quad);
    RestIsShaped(b, z, quad);
  }

  lemma LoopIsShaped(t: string, b: string, z: nat, run: nat, quad: bool)
    requires Between(t, b) && b != "" && Plain(b, z) && run == HexRun(b, z)
    requires z < |b| ==> (quad <==> IsDottedQuad(b[z - run..]))
    ensures EndsAt(t, 1, false, 0, 0, |b| + 1) <==> Shaped(b, z) && (z < |b| ==> quad)
  {
    if z < |b| { DotReady(t, b, z, z - run, run, Singles(b, z), quad); }
    LoopDecides(t, b, z, quad);
  }

  lemma LiteralIs(b: string, z: nat, quad: bool)
    requires z <= |b| && (quad <==> IsDottedQuad(b[z - HexRun(b, z)..]))
    ensures Literal(b, z) <==> Shaped(b, z) && (z < |b| ==> quad)
  {
  }

  lemma BracketedLiteral(t: string, b: string, z: nat, quad: bool)
    requires Between(t, b) && b != "" && Plain(b, z)
    requires quad <==> IsDottedQuad(b[z - HexRun(b, z)..])
    ensures EndsAt(t, 1, false, 0, 0, |b| + 1) <==> Literal(b, z)
  {
    LiteralIs(b, z, quad);
    LoopIsShaped(t, b, z, HexRun(b, z), quad);
  }

  lemma LiteralExactly(t: string, b: string, z: nat)
    requires Between(t, b) && b != "" && z == Dot(b)
    ensures EndsAt(t, 1, false, 0, 0, |b| + 1) <==> Literal(b, z)
  {
    if EndsAt(t, 1, false, 0, 0, |b| + 1) {
      LoopChars(t, 1, false, 0, 0, |b| + 1);
      forall i | 0 <= i < |b| ensures IsIPv6Char(b[i]) { assert b[i] == t[i + 1]; }
    }
    if Plain(b, z) { BracketedLiteral(t, b, z, IsDottedQuad(b[z - HexRun(b, z)..])); }
  }

  // The first n characters are brackets around something.
  predicate Brackets(t: string, n: nat) {
    4 <= n <= 47 && n <= |t| && t[0] == '[' && t[n - 1] == ']'
  }

  lemma IPv6Is(t: string, n: nat)
    ensures IPv6(t) == Some(n) <==> Brackets(t, n) && EndsAt(t, 1, false, 0, 0, n - 1)
  {
  }

  // They are brackets around an IPv6 literal.
  ghost predicate IsBracketed(t: string, n: nat) {
    Brackets(t, n) && Literal(t[1..n - 1], Dot(t[1..n - 1]))
  }

  /** The parser takes n characters exactly when they are brackets around a literal of 2 to 45 characters. */
  lemma {:induction false} IPv6Exactly(t: string, n: nat)
    ensures IPv6(t) == Some(n) <==> IsBracketed(t, n)
  {
    IPv6Is(t, n);
    if Brackets(t, n) {
      var b := t[1..n - 1];
      LiteralExactly(t, b, Dot(b));
    }
  }

  /** Neither the length of the last group nor the number of groups is checked: any 2 to 45 digits are an address. */
  lemma {:induction false} BareDigitsAccepted(b: string)
    requires 2 <= |b| <= 45 && forall i :: 0 <= i < |b| ==> IsHexDigit(b[i])
    ensures IPv6("[" + b + "]") == Some(|b| + 2)
  {
    var t := "[" + b + "]";
    assert t[1..|b| + 1] == b;
    assert Dot(b) == |b|;
    NoColons(b, |b| - 1);
    IPv6Exactly(t, |b| + 2);
  }

  lemma {:induction false} NoColons(b: string, n: nat)
    requires n <= |b| && forall i :: 0 <= i < |b| ==> IsHexDigit(b[i])
    ensures Singles(b, n) == 0
  {
    if n > 0 { NoColons(b, n - 1); }
  }

  /** A literal is read the same whatever follows it. */
  lemma {:induction false} IPv6Prefix(h: string, tail: string)
    ensures IPv6(h + tail) == Some(|h|) <==> IPv6(h) == Some(|h|)
  {
    IPv6Exactly(h, |h|);
    IPv6Exactly(h + tail, |h|);
    if |h| >= 4 { assert (h + tail)[1..|h| - 1] == h[1..|h| - 1]; }
  }
}
