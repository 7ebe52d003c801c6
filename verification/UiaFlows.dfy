/**
 * Which flows UiaComplete answers for as documented: 1 exactly when the client has completed a flow. The condition
 * is one on the flows alone, which a route can evaluate before it offers them.
 */
module UiaFlows {
  import opened Options
  import opened UiaModel
  import opened UiaTheorems

  // ---------- The condition ----------

  // Flow j is the first of the flows that has its stage at position i.
  predicate FirstToOffer(flows: seq<Flow>, i: nat, j: nat) {
    && j < |flows| && |flows[j]| > i
    && forall k :: 0 <= k < j && |flows[k]| > i ==> flows[k][i] != flows[j][i]
  }

  predicate Verifiable(stage: string) {
    stage == DUMMY || stage == PASSWORD || stage == REGISTRATION
  }

  function Longest(flows: seq<Flow>): nat {
    if flows == [] then 0
    else
      var front := Longest(flows[..|flows| - 1]);
      if |flows[|flows| - 1]| > front then |flows[|flows| - 1]| else front
  }

  lemma {:induction false} LongestBounds(flows: seq<Flow>, j: nat)
    requires j < |flows|
    ensures |flows[j]| <= Longest(flows)
  {
    if j < |flows| - 1 { LongestBounds(flows[..|flows| - 1], j); }
  }

  /**
   * From c on, following at each stage the first flow that has it next, a flow ends exactly where a flow has been
   * completed.
   */
  predicate Unmixed(flows: seq<Flow>, c: seq<string>)
    decreases Longest(flows) - |c|
  {
    c in flows
    || forall j :: 0 <= j < |flows| && FirstToOffer(flows, |c|, j) && Verifiable(flows[j][|c|]) ==>
         (LongestBounds(flows, j);
          var c' := c + [flows[j][|c|]];
          (|flows[j]| == |c'| <==> c' in flows) && Unmixed(flows, c'))
  }

  // ---------- The promise ----------

  // A call naming a session returns 1 exactly when what the session has then completed is one of the flows.
  predicate Documented(s: State, step: Step, id: string)
    requires Names(step, s, id)
  {
    && id in Next(s, step).sessions
    && (ReplyTo(s, step).Passed? <==> Next(s, step).sessions[id].completed in step.flows)
  }

  // The call that follows a run in which all calls naming the session offer the same flows as it does.
  ghost predicate AnswersAsDocumented(flows: seq<Flow>, steps: seq<Step>, step: Step, id: string) {
    Driven(steps + [step], id, flows) && Names(step, Exec(EMPTY, steps), id) ==>
      Documented(Exec(EMPTY, steps), step, id)
  }

  ghost predicate AlwaysDocumented(flows: seq<Flow>) {
    forall steps, step, id :: AnswersAsDocumented(flows, steps, step, id)
  }

  // ---------- What the search computes ----------

  lemma {:induction false} RemainingAppend(xs: seq<Candidate>, ys: seq<Candidate>, stage: string)
    ensures Remaining(xs + ys, stage)
         == if Remaining(xs, stage).Some? then Remaining(xs, stage) else Remaining(ys, stage)
  {
    if xs == [] {
      assert xs + ys == ys;
    } else {
      RemainingAppend(xs[1..], ys, stage);
      assert (xs + ys)[1..] == xs[1..] + ys;
    }
  }

  lemma RemainingSnoc(flows: seq<Flow>, i: nat, stage: string)
    requires flows != []
    ensures var front, last := flows[..|flows| - 1], flows[|flows| - 1];
      Remaining(Candidates(flows, i), stage)
      == if Remaining(Candidates(front, i), stage).Some? then Remaining(Candidates(front, i), stage)
         else if |last| > i && last[i] == stage then Some(|last| - i)
         else None
  {
    var front, last := flows[..|flows| - 1], flows[|flows| - 1];
    RemainingAppend(Candidates(front, i), if |last| > i then [Candidate(last[i], |last| - i)] else [], stage);
  }

  // The stages left are those of the first flow that has the stage next.
  ghost predicate IsFirst(flows: seq<Flow>, i: nat, stage: string, j: nat, left: nat) {
    FirstToOffer(flows, i, j) && flows[j][i] == stage && |flows[j]| - i == left
  }

  lemma {:induction false} RemainingIsFirst(flows: seq<Flow>, i: nat, stage: string)
    ensures Remaining(Candidates(flows, i), stage).None? ==>
      forall k :: 0 <= k < |flows| && |flows[k]| > i ==> flows[k][i] != stage
    ensures Remaining(Candidates(flows, i), stage).Some? ==>
      exists j :: IsFirst(flows, i, stage, j, Remaining(Candidates(flows, i), stage).value)
  {
    if flows != [] {
      var front, last := flows[..|flows| - 1], flows[|flows| - 1];
      RemainingSnoc(flows, i, stage);
      RemainingIsFirst(front, i, stage);
      if Remaining(Candidates(front, i), stage).Some? {
        var left := Remaining(Candidates(front, i), stage).value;
        var j :| IsFirst(front, i, stage, j, left);
        assert IsFirst(flows, i, stage, j, left);
      } else if |last| > i && last[i] == stage {
        assert IsFirst(flows, i, stage, |flows| - 1, |last| - i);
      }
    }
  }

  lemma RemainingOfFirst(flows: seq<Flow>, i: nat, j: nat)
    requires FirstToOffer(flows, i, j)
    ensures Remaining(Candidates(flows, i), flows[j][i]) == Some(|flows[j]| - i)
  {
    var stage := flows[j][i];
    RemainingIsFirst(flows, i, stage);
    var left := Remaining(Candidates(flows, i), stage).value;
    var k :| IsFirst(flows, i, stage, k, left);
    assert k == j;
  }

  // ---------- The condition is sufficient ----------

  lemma UnmixedNext(flows: seq<Flow>, c: seq<string>, j: nat)
    requires Unmixed(flows, c) && c !in flows && FirstToOffer(flows, |c|, j) && Verifiable(flows[j][|c|])
    ensures var c' := c + [flows[j][|c|]];
      (|flows[j]| == |c'| <==> c' in flows) && Unmixed(flows, c')
  {
  }

  lemma StepDocumented(s: State, step: Step, id: string)
    requires Names(step, s, id) && Unmixed(step.flows, s.sessions[id].completed)
    ensures Documented(s, step, id)
    ensures Unmixed(step.flows, Next(s, step).sessions[id].completed)
  {
    var c, auth := s.sessions[id].completed, step.request.auth;
    if Accepted(step.flows, s, id, auth) {
      var stage := auth.stage.value;
      var left := Remaining(Candidates(step.flows, |c|), stage).value;
      RemainingIsFirst(step.flows, |c|, stage);
      var j :| IsFirst(step.flows, |c|, stage, j, left);
      UnmixedNext(step.flows, c, j);
    }
  }

  lemma {:induction false} RunUnmixed(flows: seq<Flow>, s: State, steps: seq<Step>, id: string)
    requires Unmixed(flows, []) && Driven(steps, id, flows)
    requires id in s.sessions ==> Unmixed(flows, s.sessions[id].completed)
    ensures id in Exec(s, steps).sessions ==> Unmixed(flows, Exec(s, steps).sessions[id].completed)
    decreases |steps|
  {
    if steps != [] {
      var s1 := Next(s, steps[0]);
      if Names(steps[0], s, id) {
        StepDocumented(s, steps[0], id);
      } else if id in s.sessions && id in s1.sessions {
        GrowthIsVerified(s, steps[0], id);
      }
      RunUnmixed(flows, s1, steps[1..], id);
    }
  }

  lemma UnmixedIsDocumented(flows: seq<Flow>)
    requires Unmixed(flows, [])
    ensures AlwaysDocumented(flows)
  {
    forall steps: seq<Step>, step: Step, id: string ensures AnswersAsDocumented(flows, steps, step, id) {
      if Driven(steps + [step], id, flows) && Names(step, Exec(EMPTY, steps), id) {
        forall i | 0 <= i < |steps| && Addresses(steps[i], id) ensures steps[i].flows == flows {
          assert (steps + [step])[i] == steps[i];
        }
        assert (steps + [step])[|steps|] == step;
        RunUnmixed(flows, EMPTY, steps, id);
        StepDocumented(Exec(EMPTY, steps), step, id);
      }
    }
  }

  // ---------- The condition is necessary ----------

  // The session and the registration token of the failing run.
  const ID := "x"
  const TOKEN := "t"

  function Present(flows: seq<Flow>, stage: string): Step {
    DoComplete(flows, WithAuth(Auth(Some(ID), Some(stage), true, Some(TOKEN))), "")
  }

  lemma {:induction false} ExecSnoc(s: State, steps: seq<Step>, step: Step)
    ensures Exec(s, steps + [step]) == Next(Exec(s, steps), step)
    decreases |steps|
  {
    if steps == [] {
      assert [step][1..] == [];
      assert Exec(Next(s, step), []) == Next(s, step);
      assert steps + [step] == [step];
    } else {
      assert (steps + [step])[1..] == steps[1..] + [step];
      ExecSnoc(Next(s, steps[0]), steps[1..], step);
    }
  }

  // The session has completed c, and every kind of evidence can be given.
  ghost predicate Stands(s: State, c: seq<string>) {
    && ID in s.sessions && s.sessions[ID].completed == c
    && TOKEN in s.tokens && s.tokens[TOKEN].uses == -1 && s.tokens[TOKEN].expiresOn == 0
  }

  ghost predicate Led(flows: seq<Flow>, steps: seq<Step>, c: seq<string>) {
    Driven(steps, ID, flows) && Stands(Exec(EMPTY, steps), c)
  }

  lemma Opening(flows: seq<Flow>) returns (steps: seq<Step>)
    ensures Led(flows, steps, [])
  {
    var create, open := DoCreate(TOKEN, "", 0, -1, 0), DoComplete(flows, NoAuth, ID);
    assert TokenName(TOKEN);
    ExecSnoc(EMPTY, [], create);
    ExecSnoc(EMPTY, [create], open);
    assert [] + [create] == [create] && [create] + [open] == [create, open];
    steps := [create, open];
  }

  lemma PresentAccepted(flows: seq<Flow>, s: State, c: seq<string>, j: nat)
    requires Stands(s, c) && c !in flows && FirstToOffer(flows, |c|, j) && Verifiable(flows[j][|c|])
    ensures var stage := flows[j][|c|];
      && Stands(Next(s, Present(flows, stage)), c + [stage])
      && (ReplyTo(s, Present(flows, stage)).Passed? <==> |flows[j]| == |c| + 1)
  {
    RemainingOfFirst(flows, |c|, j);
    assert Accepted(flows, s, ID, Present(flows, flows[j][|c|]).request.auth);
  }

  lemma {:induction false} MixedRun(flows: seq<Flow>, c: seq<string>, steps: seq<Step>)
    returns (steps': seq<Step>, step: Step)
    requires Led(flows, steps, c) && !Unmixed(flows, c)
    ensures !AnswersAsDocumented(flows, steps', step, ID)
    decreases Longest(flows) - |c|
  {
    var j :| 0 <= j < |flows| && FirstToOffer(flows, |c|, j) && Verifiable(flows[j][|c|])
      && (LongestBounds(flows, j);
          var c' := c + [flows[j][|c|]];
          !((|flows[j]| == |c'| <==> c' in flows) && Unmixed(flows, c')));
    LongestBounds(flows, j);
    var s, c' := Exec(EMPTY, steps), c + [flows[j][|c|]];
    step := Present(flows, flows[j][|c|]);
    PresentAccepted(flows, s, c, j);
    steps' := steps;
    if |flows[j]| == |c'| <==> c' in flows {
      ExecSnoc(EMPTY, steps, step);
      steps', step := MixedRun(flows, c', steps + [step]);
    }
  }

  /**
   * The promise of UiaComplete for some flows, over every run from the empty store in which the calls naming a session
   * offer these flows and all other calls any others, holds if and only if the flows are unmixed.
   */
  lemma {:induction false} DocumentedExactlyWhen(flows: seq<Flow>)
    ensures AlwaysDocumented(flows) <==> Unmixed(flows, [])
  {
    if Unmixed(flows, []) {
      UnmixedIsDocumented(flows);
    } else {
      var opening := Opening(flows);
      var steps, step := MixedRun(flows, [], opening);
      assert !AnswersAsDocumented(flows, steps, step, ID);
    }
  }

  // ---------- Flows that cannot be mixed ----------

  // No flow is the beginning of another, and flows that go on after i stages have these in common.
  ghost predicate Agreeing(flows: seq<Flow>) {
    && (forall f, g :: f in flows && g in flows && f <= g ==> f == g)
    && (forall f, g, i: nat :: f in flows && g in flows && i < |f| && i < |g| ==> f[..i] == g[..i])
  }

  // Flows that go on after c begin with it.
  ghost predicate Follow(flows: seq<Flow>, c: seq<string>) {
    forall f :: f in flows && |f| > |c| ==> f[..|c|] == c
  }

  // With flow f going on after c, the stages after its next are a flow exactly when they are f.
  lemma AgreeingEnds(flows: seq<Flow>, c: seq<string>, f: Flow, c': seq<string>)
    requires Agreeing(flows) && Follow(flows, c) && f in flows && |f| > |c| && c' == c + [f[|c|]]
    ensures f[..|c'|] == c'
    ensures |f| == |c'| <==> c' in flows
  {
    assert f[..|c|] == c;
    assert f[..|c'|] == c';
    if |f| == |c'| {
      assert f == f[..|c'|];
    }
    if c' in flows {
      assert c' <= f;
    }
  }

  lemma AgreeingFollow(flows: seq<Flow>, f: Flow, c': seq<string>)
    requires Agreeing(flows) && f in flows && |f| > |c'| && f[..|c'|] == c'
    ensures Follow(flows, c')
  {
    forall g | g in flows && |g| > |c'| ensures g[..|c'|] == c' {
      assert f[..|c'|] == g[..|c'|];
    }
  }

  lemma {:induction false} AgreeingFrom(flows: seq<Flow>, c: seq<string>)
    requires Agreeing(flows) && Follow(flows, c)
    ensures Unmixed(flows, c)
    decreases Longest(flows) - |c|, 1
  {
    if c !in flows {
      forall j | 0 <= j < |flows| && FirstToOffer(flows, |c|, j) && Verifiable(flows[j][|c|])
        ensures (|flows[j]| == |c + [flows[j][|c|]]| <==> c + [flows[j][|c|]] in flows)
             && Unmixed(flows, c + [flows[j][|c|]])
      {
        AgreeingNext(flows, c, j);
      }
    }
  }

  lemma {:induction false} AgreeingNext(flows: seq<Flow>, c: seq<string>, j: nat)
    requires Agreeing(flows) && Follow(flows, c) && j < |flows| && |flows[j]| > |c|
    ensures var c' := c + [flows[j][|c|]]; (|flows[j]| == |c'| <==> c' in flows) && Unmixed(flows, c')
    decreases Longest(flows) - |c|, 0
  {
    var f := flows[j];
    var c' := c + [f[|c|]];
    LongestBounds(flows, j);
    AgreeingEnds(flows, c, f, c');
    if c' !in flows {
      AgreeingFollow(flows, f, c');
      AgreeingFrom(flows, c');
    }
  }

  /** It holds for flows none of which begins another, and any two of which agree up to the last stage of either. */
  lemma {:induction false} AgreeingFlowsAreDocumented(flows: seq<Flow>)
    requires Agreeing(flows)
    ensures AlwaysDocumented(flows)
  {
    AgreeingFrom(flows, []);
    DocumentedExactlyWhen(flows);
  }

  // The flows every endpoint builds agree, having one stage each.
  lemma EndpointsAgree(endpoint: Endpoint)
    ensures Agreeing(FlowsOf(endpoint))
  {
    var flows := FlowsOf(endpoint);
    forall f, g | f in flows && g in flows && f <= g ensures f == g { assert |f| == 1 && |g| == 1; }
    forall f, g, i: nat | f in flows && g in flows && i < |f| && i < |g| ensures f[..i] == g[..i] {
      assert |f| == 1 && f[..0] == [] && g[..0] == [];
    }
  }

  /** One flow of any length, and what any endpoint of the server offers, is answered for as documented. */
  lemma {:induction false} EndpointsAreDocumented(flow: Flow, endpoint: Endpoint)
    ensures AlwaysDocumented([flow])
    ensures AlwaysDocumented(FlowsOf(endpoint))
  {
    AgreeingFlowsAreDocumented([flow]);
    EndpointsAgree(endpoint);
    AgreeingFlowsAreDocumented(FlowsOf(endpoint));
  }

  // ---------- Flows that can be mixed ----------

  // Two flows of two stages each, and a session that has completed the first stage of the first.
  const TWO: seq<Flow> := [[DUMMY, DUMMY], [PASSWORD, PASSWORD]]
  const HALF := State(map["x" := Session([DUMMY], 0, None, None)], map[], 0)

  lemma TwoCandidates(done: nat)
    requires done < 2
    ensures Candidates(TWO, done) == [Candidate(DUMMY, 2 - done), Candidate(PASSWORD, 2 - done)]
  {
    assert TWO[..1] == [[DUMMY, DUMMY]] && TWO[..1][..0] == [];
    assert Candidates(TWO[..1], done) == [Candidate(DUMMY, 2 - done)];
  }

  lemma RemainingOfTwo(left: nat, stage: string)
    requires stage == DUMMY || stage == PASSWORD
    ensures Remaining([Candidate(DUMMY, left), Candidate(PASSWORD, left)], stage) == Some(left)
  {
    assert [Candidate(DUMMY, left), Candidate(PASSWORD, left)][1..] == [Candidate(PASSWORD, left)];
  }

  /**
   * With several flows of several stages, a call may return 1 for a session that has completed none of them: only the
   * stage at the next position is compared. The run starts from the empty store; the flows are not unmixed.
   */
  lemma MixedFlowsPass()
    ensures Exec(EMPTY, [DoComplete(TWO, NoAuth, "x"), Present(TWO, DUMMY)]) == HALF
    ensures ReplyTo(HALF, Present(TWO, PASSWORD)).Passed?
    ensures Next(HALF, Present(TWO, PASSWORD)).sessions["x"].completed !in TWO
    ensures !Unmixed(TWO, [])
  {
    FirstHalf();
    SecondHalf();
    var steps := [DoComplete(TWO, NoAuth, "x"), Present(TWO, DUMMY)];
    assert !AnswersAsDocumented(TWO, steps, Present(TWO, PASSWORD), "x");
    DocumentedExactlyWhen(TWO);
  }

  lemma FirstHalf()
    ensures Exec(EMPTY, [DoComplete(TWO, NoAuth, "x"), Present(TWO, DUMMY)]) == HALF
  {
    var one, two := DoComplete(TWO, NoAuth, "x"), Present(TWO, DUMMY);
    var s1 := Next(EMPTY, one);
    var auth := two.request.auth;
    DistinctStages();
    TwoCandidates(0);
    RemainingOfTwo(2, DUMMY);
    assert s1.sessions["x"].completed == [] && [] !in TWO;
    assert Accepted(TWO, s1, "x", auth);
    assert [] + [DUMMY] == [DUMMY];
    assert Next(s1, two) == HALF;
    assert [one, two][1..] == [two] && [two][1..] == [];
    assert Exec(s1, [two]) == Exec(Next(s1, two), []);
  }

  lemma SecondHalf()
    ensures ReplyTo(HALF, Present(TWO, PASSWORD)).Passed?
    ensures Next(HALF, Present(TWO, PASSWORD)).sessions["x"].completed !in TWO
  {
    var c, c' := [DUMMY], [DUMMY, PASSWORD];
    var auth := Present(TWO, PASSWORD).request.auth;
    DistinctStages();
    TwoCandidates(1);
    RemainingOfTwo(1, PASSWORD);
    assert c !in TWO by { assert |TWO[0]| == 2 && |TWO[1]| == 2; }
    assert c + [PASSWORD] == c';
    assert c' !in TWO by { assert TWO[0][1] == DUMMY && TWO[1][0] == PASSWORD && c'[1] == PASSWORD && c'[0] == DUMMY; }
    assert Accepted(TWO, HALF, "x", auth);
  }
}
