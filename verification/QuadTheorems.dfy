/**
 * Dotted quads: what the recursion over the groups accepts, said of the whole text.
 */
module QuadTheorems {
  import opened Characters
  import opened Identifiers

  lemma {:induction false} QuadShape(t: string, groups: nat)
    requires Quad(t, groups) && groups > 0
    ensures exists g, rest :: t == g + "." + rest && IsGroup(g) && Quad(rest, groups - 1)
  {
    var n := Run(t, Digits);
    assert t == t[..n] + "." + t[n + 1..];
  }

  lemma {:induction false} QuadChars(t: string, groups: nat)
    requires Quad(t, groups)
    ensures forall k :: 0 <= k < |t| ==> IsDigitOrDot(t[k])
    decreases |t|
  {
    if groups > 0 {
      var n := Run(t, Digits);
      QuadChars(t[n + 1..], groups - 1);
      forall k | 0 <= k < |t| ensures IsDigitOrDot(t[k]) {
        if k > n { assert t[k] == t[n + 1..][k - n - 1]; }
      }
    }
  }

  ghost predicate IsDottedQuad(t: string) {
    exists a, b, c, d :: DotJoined(t, a, b, c, d) && IsGroup(a) && IsGroup(b) && IsGroup(c) && AllDigits(d)
  }

  predicate DotJoined(t: string, a: string, b: string, c: string, d: string) {
    t == a + "." + b + "." + c + "." + d
  }

  lemma JoinDots(t: string, a: string, r1: string, b: string, r2: string, c: string, d: string)
    requires t == a + "." + r1 && r1 == b + "." + r2 && r2 == c + "." + d
    ensures DotJoined(t, a, b, c, d)
  {
    assert a + "." + (b + "." + r2) == a + "." + b + "." + r2;
    assert a + "." + b + "." + (c + "." + d) == a + "." + b + "." + c + "." + d;
  }

  // The first group of a quad and what follows its dot.
  lemma SplitQuad(t: string, groups: nat) returns (g: string, rest: string)
    requires Quad(t, groups) && groups > 0
    ensures t == g + "." + rest && IsGroup(g) && Quad(rest, groups - 1)
  {
    QuadShape(t, groups);
    g, rest :| t == g + "." + rest && IsGroup(g) && Quad(rest, groups - 1);
  }

  lemma NoGroupsLeft(t: string, groups: nat)
    requires Quad(t, groups) && groups == 0
    ensures AllDigits(t)
  {
  }

  lemma ThreeDots(t: string)
    requires Quad(t, DOTS)
    ensures IsDottedQuad(t)
  {
    var left := DOTS;
    var a, r1 := SplitQuad(t, left);
    var b, r2 := SplitQuad(r1, left - 1);
    var c, d := SplitQuad(r2, left - 2);
    NoGroupsLeft(d, left - 3);
    JoinDots(t, a, r1, b, r2, c, d);
  }

  lemma JoinQuad(t: string, g: string, rest: string, groups: nat)
    requires t == g + ("." + rest) && IsGroup(g) && groups > 0 && Quad(rest, groups - 1)
    ensures Quad(t, groups)
  {
    RunIs(t, Digits, |g|);
    assert t[..|g|] == g && t[|g| + 1..] == rest;
  }

  lemma DottedIsQuad(t: string, a: string, b: string, c: string, d: string)
    requires DotJoined(t, a, b, c, d) && IsGroup(a) && IsGroup(b) && IsGroup(c) && AllDigits(d)
    ensures Quad(t, DOTS)
  {
    var r2 := c + ("." + d);
    var r1 := b + ("." + r2);
    assert t == a + ("." + r1);
    GroupsJoin(t, a, r1, b, r2, c, d, DOTS);
  }

  lemma GroupsJoin(t: string, a: string, r1: string, b: string, r2: string, c: string, d: string, groups: nat)
    requires t == a + ("." + r1) && r1 == b + ("." + r2) && r2 == c + ("." + d) && groups == 3
    requires IsGroup(a) && IsGroup(b) && IsGroup(c) && AllDigits(d)
    ensures Quad(t, groups)
  {
    NoGroupsIsDigits(d, groups - 3);
    JoinQuad(r2, c, d, groups - 2);
    JoinQuad(r1, b, r2, groups - 1);
    JoinQuad(t, a, r1, groups);
  }

  lemma NoGroupsIsDigits(d: string, groups: nat)
    requires AllDigits(d) && groups == 0
    ensures Quad(d, groups)
  {
  }

  /** The loop of ParseIPv4 accepts exactly the dotted quads, the last group being any digits at all, even none. */
  lemma QuadExactly(t: string)
    ensures Quad(t, DOTS) <==> IsDottedQuad(t)
  {
    if IsDottedQuad(t) {
      var a, b, c, d :| DotJoined(t, a, b, c, d) && IsGroup(a) && IsGroup(b) && IsGroup(c) && AllDigits(d);
      DottedIsQuad(t, a, b, c, d);
    } else if Quad(t, DOTS) {
      ThreeDots(t);
    }
  }
}
