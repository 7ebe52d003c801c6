/**
 * What user-interactive authentication and registration tokens promise, call by call and over whole runs.
 */
module UiaTheorems {
  import opened Options
  import opened UiaModel
  import Privileges

  // A call whose auth names the session id, stored or not; and one for which it is stored.
  predicate Addresses(step: Step, id: string) {
    step.DoComplete? && step.request.WithAuth? && step.request.auth.session == Some(id)
  }

  predicate Names(step: Step, s: State, id: string) {
    Addresses(step, id) && id in s.sessions
  }

  // Every call of a run that names the session offers these flows; other sessions may be offered any others.
  predicate Driven(steps: seq<Step>, id: string, flows: seq<Flow>) {
    forall i :: 0 <= i < |steps| && Addresses(steps[i], id) ==> steps[i].flows == flows
  }

  function ReplyTo(s: State, step: Step): Reply
    requires step.DoComplete?
  {
    Complete(step.flows, s, step.request, step.newId).1
  }

  // ---------- One call ----------

  lemma {:induction false} RemainingIsCandidate(cs: seq<Candidate>, stage: string)
    ensures Remaining(cs, stage).Some? <==> exists i :: 0 <= i < |cs| && cs[i].stage == stage
    ensures Remaining(cs, stage).Some? ==> Candidate(stage, Remaining(cs, stage).value) in cs
  {
    if cs != [] {
      RemainingIsCandidate(cs[1..], stage);
      if Remaining(cs, stage).Some? && cs[0].stage != stage {
        var i :| 0 <= i < |cs[1..]| && cs[1..][i].stage == stage;
        assert cs[i + 1].stage == stage;
      }
      forall i | 0 <= i < |cs| && cs[i].stage == stage ensures Remaining(cs, stage).Some? {
        if i > 0 { assert cs[1..][i - 1].stage == stage; }
      }
    }
  }

  ghost predicate NextOf(f: Flow, done: nat, c: Candidate) {
    |f| > done && c == Candidate(f[done], |f| - done)
  }

  lemma {:induction false} CandidatesAre(flows: seq<Flow>, done: nat, c: Candidate)
    requires c in Candidates(flows, done)
    ensures exists f :: f in flows && NextOf(f, done, c)
  {
    if flows != [] {
      var front, last := flows[..|flows| - 1], flows[|flows| - 1];
      assert last in flows;
      if c in Candidates(front, done) {
        CandidatesAre(front, done, c);
        var f :| f in front && NextOf(f, done, c);
        assert f in flows;
      } else {
        assert NextOf(last, done, c);
      }
    }
  }

  lemma {:induction false} AllAreCandidates(flows: seq<Flow>, done: nat, f: Flow)
    requires f in flows && |f| > done
    ensures Candidate(f[done], |f| - done) in Candidates(flows, done)
  {
    var front, last := flows[..|flows| - 1], flows[|flows| - 1];
    if f != last {
      AllAreCandidates(front, done, f);
    }
  }

  /** An accepted stage is the next stage of some flow, and the stages left are those of some such flow. */
  lemma AcceptedIsNext(flows: seq<Flow>, s: State, id: string, auth: Auth)
    requires id in s.sessions && Accepted(flows, s, id, auth)
    ensures var done := |s.sessions[id].completed|;
      var left := Remaining(Candidates(flows, done), auth.stage.value).value;
      exists f :: f in flows && |f| > done && f[done] == auth.stage.value && |f| - done == left
  {
    var done := |s.sessions[id].completed|;
    var cs, stage := Candidates(flows, done), auth.stage.value;
    RemainingIsCandidate(cs, stage);
    var c := Candidate(stage, Remaining(cs, stage).value);
    CandidatesAre(flows, done, c);
    var f :| f in flows && NextOf(f, done, c);
  }

  // The token is stored, has not expired, and has a use left.
  predicate Usable(s: State, name: string) {
    && name in s.tokens
    && (s.tokens[name].expiresOn == 0 || s.now < s.tokens[name].expiresOn)
    && (s.tokens[name].uses == -1 || s.tokens[name].used < s.tokens[name].uses)
  }

  // What counts as good evidence for a stage.
  predicate Evidence(s: State, stage: string, auth: Auth) {
    || stage == "m.login.dummy"
    || (stage == "m.login.password" && auth.passwordOk)
    || (stage == "m.login.registration_token" && auth.token.Some? && Usable(s, auth.token.value))
  }

  lemma EvidenceIsVerified(s: State, stage: string, auth: Auth)
    ensures Verified(s, stage, auth) <==> Evidence(s, stage, auth)
  {
    DistinctStages();
  }

  // Some flow has the stage at the position that comes next.
  predicate Offered(flows: seq<Flow>, done: nat, stage: string) {
    exists f :: f in flows && |f| > done && f[done] == stage
  }

  /**
   * A stage is accepted exactly when no flow is completed yet, some flow has it at the next position, and the evidence
   * for it is good.
   */
  lemma AcceptedExactly(flows: seq<Flow>, s: State, id: string, auth: Auth)
    requires id in s.sessions
    ensures var c := s.sessions[id].completed;
      Accepted(flows, s, id, auth) <==>
        c !in flows && auth.stage.Some? && Offered(flows, |c|, auth.stage.value) && Evidence(s, auth.stage.value, auth)
  {
    var c := s.sessions[id].completed;
    if auth.stage.Some? { EvidenceIsVerified(s, auth.stage.value, auth); }
    if Accepted(flows, s, id, auth) {
      AcceptedIsNext(flows, s, id, auth);
    }
    if auth.stage.Some? && Offered(flows, |c|, auth.stage.value) {
      var f :| f in flows && |f| > |c| && f[|c|] == auth.stage.value;
      AllAreCandidates(flows, |c|, f);
      var cs, candidate := Candidates(flows, |c|), Candidate(f[|c|], |f| - |c|);
      RemainingIsCandidate(cs, auth.stage.value);
      var i :| 0 <= i < |cs| && cs[i] == candidate;
    }
  }

  /**
   * A session changes only by gaining one stage, and then in a call that names it, presents that stage and carries
   * good evidence for it; no step rewrites or removes a completed stage of a session that stays.
   */
  lemma {:induction false} GrowthIsVerified(s: State, step: Step, id: string)
    requires id in s.sessions && id in Next(s, step).sessions
    ensures var c, c' := s.sessions[id].completed, Next(s, step).sessions[id].completed;
      c' == c
      || (Names(step, s, id) && step.request.auth.stage.Some?
          && Verified(s, step.request.auth.stage.value, step.request.auth)
          && c' == c + [step.request.auth.stage.value])
  {
  }

  // ---------- What a session has completed, over runs ----------

  // A stage accepted in a call, with the registration token the call presented.
  datatype Entry = Entry(stage: string, token: Option<string>)

  // The log of a session after one more step: cleared while there is no such session.
  function Extend(s: State, step: Step, id: string, log: seq<Entry>): seq<Entry> {
    if id !in s.sessions || id !in Next(s, step).sessions then []
    else if Names(step, s, id) && Accepted(step.flows, s, id, step.request.auth)
    then log + [Entry(step.request.auth.stage.value, step.request.auth.token)]
    else log
  }

  // The stages accepted in calls naming the session since it was created.
  function Log(s: State, steps: seq<Step>, id: string, log: seq<Entry>): seq<Entry>
    decreases |steps|
  {
    if steps == [] then log else Log(Next(s, steps[0]), steps[1..], id, Extend(s, steps[0], id, log))
  }

  function Stages(log: seq<Entry>): seq<string> {
    seq(|log|, i requires 0 <= i < |log| => log[i].stage)
  }

  // The token of the last registration-token stage.
  function LastToken(log: seq<Entry>): Option<string> {
    if log == [] then None
    else if log[|log| - 1].stage == REGISTRATION then log[|log| - 1].token
    else LastToken(log[..|log| - 1])
  }

  ghost predicate Logged(s: State, id: string, log: seq<Entry>) {
    id in s.sessions ==>
      s.sessions[id].completed == Stages(log) && s.sessions[id].registrationToken == LastToken(log)
  }

  lemma LogMore(log: seq<Entry>, entry: Entry)
    ensures Stages(log + [entry]) == Stages(log) + [entry.stage]
    ensures LastToken(log + [entry]) == if entry.stage == REGISTRATION then entry.token else LastToken(log)
  {
    assert (log + [entry])[..|log|] == log;
  }

  lemma StepLogs(s: State, step: Step, id: string, log: seq<Entry>)
    requires Logged(s, id, log)
    ensures Logged(Next(s, step), id, Extend(s, step, id, log))
  {
    if Names(step, s, id) && Accepted(step.flows, s, id, step.request.auth) {
      LogMore(log, Entry(step.request.auth.stage.value, step.request.auth.token));
    }
  }

  lemma {:induction false} RunLogs(s: State, steps: seq<Step>, id: string, log: seq<Entry>)
    requires Logged(s, id, log)
    ensures Logged(Exec(s, steps), id, Log(s, steps, id, log))
    decreases |steps|
  {
    if steps != [] {
      StepLogs(s, steps[0], id, log);
      RunLogs(Next(s, steps[0]), steps[1..], id, Extend(s, steps[0], id, log));
    }
  }

  /**
   * Over every run from the empty store, whatever flows its calls offer, a session has completed exactly the stages
   * accepted since its creation in calls naming it, in order and each once, and it remembers the registration token
   * of the last such stage.
   */
  lemma {:induction false} CompletedIsLog(steps: seq<Step>, id: string)
    ensures var s, log := Exec(EMPTY, steps), Log(EMPTY, steps, id, []);
      id in s.sessions ==>
        && s.sessions[id].completed == Stages(log)
        && |s.sessions[id].completed| == |log|
        && s.sessions[id].registrationToken == LastToken(log)
  {
    RunLogs(EMPTY, steps, id, []);
  }

  // What the log of a session of at most one stage says of it.
  lemma ShortLog(session: Session, log: seq<Entry>)
    requires session.completed == Stages(log) && session.registrationToken == LastToken(log)
    requires |session.completed| <= 1
    ensures |session.completed| == |log|
    ensures |log| == 1 ==> session.completed == [log[0].stage]
    ensures session.registrationToken == if |log| == 1 && log[0].stage == REGISTRATION then log[0].token else None
  {
    if |log| == 1 {
      assert Stages(log)[0] == log[0].stage;
      assert LastToken(log[..0]) == None;
    }
  }

  // ---------- One flow of any length ----------

  // With one flow the only candidate is the stage after those completed.
  lemma OneCandidate(flow: Flow, done: nat, stage: string)
    ensures Remaining(Candidates([flow], done), stage)
         == if |flow| > done && flow[done] == stage then Some(|flow| - done) else None
  {
    assert [flow][..0] == [];
    assert Candidates([flow], done) == if |flow| > done then [Candidate(flow[done], |flow| - done)] else [];
  }

  ghost predicate OnCourse(s: State, id: string, flow: Flow) {
    id in s.sessions ==> s.sessions[id].completed <= flow
  }

  lemma StepStaysOnCourse(s: State, step: Step, id: string, flow: Flow)
    requires OnCourse(s, id, flow) && (Addresses(step, id) ==> step.flows == [flow])
    ensures OnCourse(Next(s, step), id, flow)
  {
    if id in s.sessions && id in Next(s, step).sessions {
      GrowthIsVerified(s, step, id);
      if Names(step, s, id) && step.request.auth.stage.Some? {
        OneCandidate(flow, |s.sessions[id].completed|, step.request.auth.stage.value);
      }
    }
  }

  /** In every run whose calls naming a session offer one flow, what the session has completed is a prefix of it. */
  lemma {:induction false} CompletedIsPrefix(s: State, steps: seq<Step>, id: string, flow: Flow)
    requires OnCourse(s, id, flow) && Driven(steps, id, [flow])
    ensures OnCourse(Exec(s, steps), id, flow)
    decreases |steps|
  {
    if steps != [] {
      StepStaysOnCourse(s, steps[0], id, flow);
      CompletedIsPrefix(Next(s, steps[0]), steps[1..], id, flow);
    }
  }

  /** A session driven by one flow has had exactly the first stages of the flow accepted, each once and in order. */
  lemma {:induction false} EachStageOnce(steps: seq<Step>, id: string, flow: Flow)
    requires Driven(steps, id, [flow]) && id in Exec(EMPTY, steps).sessions
    ensures var log := Log(EMPTY, steps, id, []);
      && |log| <= |flow|
      && (forall i :: 0 <= i < |log| ==> log[i].stage == flow[i])
      && Exec(EMPTY, steps).sessions[id].completed == flow[..|log|]
  {
    CompletedIsLog(steps, id);
    CompletedIsPrefix(EMPTY, steps, id, flow);
    var log := Log(EMPTY, steps, id, []);
    forall i | 0 <= i < |log| ensures log[i].stage == flow[i] { assert Stages(log)[i] == log[i].stage; }
  }

  /**
   * A call naming a session returns 1 exactly when the session has then completed the whole flow; a call whose stage
   * is accepted shortens what is left by one, any other leaves it alone.
   */
  lemma PassedExactlyWhenFlowDone(s: State, step: Step, flow: Flow, id: string)
    requires Names(step, s, id) && step.flows == [flow] && s.sessions[id].completed <= flow
    ensures id in Next(s, step).sessions
    ensures var c, c' := s.sessions[id].completed, Next(s, step).sessions[id].completed;
      && (ReplyTo(s, step).Passed? <==> c' == flow)
      && (if Accepted([flow], s, id, step.request.auth)
          then |c| < |flow| && c' == c + [flow[|c|]] && |flow| - |c'| == |flow| - |c| - 1
          else c' == c)
  {
    var c, auth := s.sessions[id].completed, step.request.auth;
    assert c in [flow] <==> c == flow;
    if auth.stage.Some? { OneCandidate(flow, |c|, auth.stage.value); }
  }

  // The session is stored before every step of a run and after the last.
  ghost predicate Lives(s: State, steps: seq<Step>, id: string)
    decreases |steps|
  {
    id in s.sessions && (steps != [] ==> Lives(Next(s, steps[0]), steps[1..], id))
  }

  lemma {:induction false} DoneStaysDone(s: State, steps: seq<Step>, flow: Flow, id: string)
    requires Lives(s, steps, id) && s.sessions[id].completed == flow && Driven(steps, id, [flow])
    ensures id in Exec(s, steps).sessions && Exec(s, steps).sessions[id].completed == flow
    decreases |steps|
  {
    if steps != [] {
      GrowthIsVerified(s, steps[0], id);
      if Names(steps[0], s, id) { assert flow in [flow]; }
      DoneStaysDone(Next(s, steps[0]), steps[1..], flow, id);
    }
  }

  /** Once a session has completed the flow, every later call naming it returns 1, as long as it is not purged. */
  lemma {:induction false} PassedForever(s: State, steps: seq<Step>, flow: Flow, id: string, step: Step)
    requires Lives(s, steps, id) && s.sessions[id].completed == flow && Driven(steps, id, [flow])
    requires Addresses(step, id) && step.flows == [flow]
    ensures ReplyTo(Exec(s, steps), step).Passed?
  {
    DoneStaysDone(s, steps, flow, id);
    assert flow in [flow];
  }

  // ---------- Purging ----------

  // No session was accessed in the future.
  ghost predicate InTime(s: State) {
    forall id :: id in s.sessions ==> s.sessions[id].lastAccess <= s.now
  }

  lemma StepInTime(s: State, step: Step)
    requires InTime(s)
    ensures InTime(Next(s, step)) && s.now <= Next(s, step).now
  {
  }

  lemma {:induction false} RunInTime(s: State, steps: seq<Step>)
    requires InTime(s)
    ensures InTime(Exec(s, steps)) && s.now <= Exec(s, steps).now
    decreases |steps|
  {
    if steps != [] {
      StepInTime(s, steps[0]);
      RunInTime(Next(s, steps[0]), steps[1..]);
    }
  }

  lemma StepKeepsRecent(s: State, step: Step, id: string)
    requires InTime(s) && id in s.sessions && Next(s, step).now - s.sessions[id].lastAccess <= IDLE_MS
    ensures id in Next(s, step).sessions && s.sessions[id].lastAccess <= Next(s, step).sessions[id].lastAccess
  {
  }

  lemma {:induction false} RecentLives(s: State, steps: seq<Step>, id: string)
    requires InTime(s) && id in s.sessions
    requires Exec(s, steps).now - s.sessions[id].lastAccess <= IDLE_MS
    ensures Lives(s, steps, id)
    decreases |steps|
  {
    if steps != [] {
      var s1 := Next(s, steps[0]);
      StepInTime(s, steps[0]);
      RunInTime(s1, steps[1..]);
      StepKeepsRecent(s, steps[0], id);
      RecentLives(s1, steps[1..], id);
    }
  }

  /**
   * In every run a session is still there fifteen minutes after any access to it, whatever is purged in between; a
   * purge any later than that removes it.
   */
  lemma {:induction false} SurvivesFifteenMinutes(before: seq<Step>, steps: seq<Step>, id: string)
    requires id in Exec(EMPTY, before).sessions
    ensures var s := Exec(EMPTY, before);
      && (Exec(s, steps).now - s.sessions[id].lastAccess <= 15 * 60 * 1000 ==> Lives(s, steps, id))
      && (s.now - s.sessions[id].lastAccess > 15 * 60 * 1000 <==> id !in Next(s, DoCleanup).sessions)
  {
    var s := Exec(EMPTY, before);
    RunInTime(EMPTY, before);
    if Exec(s, steps).now - s.sessions[id].lastAccess <= IDLE_MS { RecentLives(s, steps, id); }
  }

  // ---------- Flows of one stage ----------

  predicate OneStage(step: Step) {
    step.DoComplete? ==> forall f :: f in step.flows ==> |f| == 1
  }

  lemma EndpointsOfferOneStage(endpoint: Endpoint, request: Request, newId: string)
    ensures OneStage(DoComplete(FlowsOf(endpoint), request, newId))
  {
  }

  // At most one stage, of a type the server can verify; a registration token is remembered exactly with its stage.
  ghost predicate AtMostOne(session: Session) {
    && |session.completed| <= 1
    && (forall x :: x in session.completed ==> x == DUMMY || x == PASSWORD || x == REGISTRATION)
    && (session.registrationToken.Some? <==> session.completed == [REGISTRATION])
  }

  ghost predicate Short(s: State) {
    forall id :: id in s.sessions ==> AtMostOne(s.sessions[id])
  }

  lemma AcceptedOneStage(flows: seq<Flow>, s: State, id: string, auth: Auth)
    requires id in s.sessions && Accepted(flows, s, id, auth)
    requires forall f :: f in flows ==> |f| == 1
    ensures s.sessions[id].completed == []
    ensures Remaining(Candidates(flows, 0), auth.stage.value) == Some(1)
    ensures [auth.stage.value] in flows
  {
    AcceptedIsNext(flows, s, id, auth);
    var stage := auth.stage.value;
    var f :| f in flows && |f| > |s.sessions[id].completed| && f[|s.sessions[id].completed|] == stage
      && |f| - |s.sessions[id].completed| == Remaining(Candidates(flows, |s.sessions[id].completed|), stage).value;
    assert f == [stage];
  }

  lemma CompleteKeepsShort(flows: seq<Flow>, s: State, id: string, auth: Auth)
    requires id in s.sessions && AtMostOne(s.sessions[id])
    requires forall f :: f in flows ==> |f| == 1
    ensures var s' := CompleteIn(flows, s, id, auth).0;
      s'.sessions.Keys == s.sessions.Keys && AtMostOne(s'.sessions[id])
      && forall x :: x in s.sessions && x != id ==> s'.sessions[x] == s.sessions[x]
  {
    if Accepted(flows, s, id, auth) {
      AcceptedOneStage(flows, s, id, auth);
      assert [] + [auth.stage.value] == [auth.stage.value];
    }
  }

  lemma StepKeepsShort(s: State, step: Step)
    requires Short(s) && OneStage(step)
    ensures Short(Next(s, step))
  {
    match step
    case DoComplete(flows, request, newId) =>
      if request.WithAuth? && request.auth.session.Some? && request.auth.session.value in s.sessions {
        CompleteKeepsShort(flows, s, request.auth.session.value, request.auth);
      }
    case _ =>
  }

  /**
   * In every run of one-stage flows, whatever endpoints share a session, each session has completed at most one stage,
   * of type dummy, password or registration token, and it remembers a token exactly when it is the last.
   */
  lemma {:induction false} SessionsStayShort(s: State, steps: seq<Step>)
    requires Short(s) && forall i :: 0 <= i < |steps| ==> OneStage(steps[i])
    ensures Short(Exec(s, steps))
    decreases |steps|
  {
    if steps != [] {
      StepKeepsShort(s, steps[0]);
      SessionsStayShort(Next(s, steps[0]), steps[1..]);
    }
  }

  /** A call naming an existing session returns 1 exactly when the one stage completed then is an offered flow. */
  lemma PassedExactlyWhenOffered(s: State, step: Step, id: string)
    requires Short(s) && OneStage(step) && Names(step, s, id)
    ensures id in Next(s, step).sessions
    ensures ReplyTo(s, step).Passed? <==> Next(s, step).sessions[id].completed in step.flows
  {
    var auth := step.request.auth;
    if Accepted(step.flows, s, id, auth) {
      AcceptedOneStage(step.flows, s, id, auth);
      assert [] + [auth.stage.value] == [auth.stage.value];
    }
  }

  // ---------- Registration tokens ----------

  lemma DistinctStages()
    ensures DUMMY != PASSWORD && DUMMY != REGISTRATION && PASSWORD != REGISTRATION
  {
    assert |PASSWORD| == 16 && |REGISTRATION| == 26 && |DUMMY| == 13;
  }

  // The step completed a registration-token stage with this token, seen from the session alone.
  predicate CompletedWith(s: State, step: Step, name: string) {
    && step.DoComplete? && step.request.WithAuth? && step.request.auth.session.Some?
    && var id := step.request.auth.session.value;
       && id in s.sessions && id in Next(s, step).sessions
       && Next(s, step).sessions[id].completed == s.sessions[id].completed + [REGISTRATION]
       && step.request.auth.token == Some(name)
  }

  // The stages completed with a token since it was last created, over all sessions, starting from acc.
  function Completions(s: State, steps: seq<Step>, name: string, acc: nat): nat
    decreases |steps|
  {
    if steps == [] then acc else
    var s' := Next(s, steps[0]);
    var acc' :=
      if name !in s.tokens || name !in s'.tokens then 0
      else if CompletedWith(s, steps[0], name) then acc + 1
      else acc;
    Completions(s', steps[1..], name, acc')
  }

  ghost predicate Bounded(t: RegToken) {
    t.uses >= -1 && 0 <= t.used && (t.uses != -1 ==> t.used <= t.uses)
  }

  ghost predicate AllBounded(s: State) {
    forall name :: name in s.tokens ==> Bounded(s.tokens[name])
  }

  lemma CompleteCounts(flows: seq<Flow>, s: State, id: string, auth: Auth, name: string)
    requires id in s.sessions && name in s.tokens
    ensures var s', c := CompleteIn(flows, s, id, auth).0, s.sessions[id].completed;
      && id in s'.sessions && s'.tokens.Keys == s.tokens.Keys
      && s'.tokens[name] == s.tokens[name].(used := s.tokens[name].used
           + if s'.sessions[id].completed == c + [REGISTRATION] && auth.token == Some(name) then 1 else 0)
      && (s'.tokens[name] != s.tokens[name] ==> TokenValid(s, name))
  {
    var c := s.sessions[id].completed;
    if Accepted(flows, s, id, auth) {
      assert (c + [auth.stage.value])[|c|] == auth.stage.value;
      assert (c + [REGISTRATION])[|c|] == REGISTRATION;
      DistinctStages();
    }
  }

  lemma UseIsCounted(s: State, step: Step, name: string)
    requires AllBounded(s)
    requires name in s.tokens && name in Next(s, step).tokens
    ensures Next(s, step).tokens[name]
         == s.tokens[name].(used := s.tokens[name].used + if CompletedWith(s, step, name) then 1 else 0)
    ensures Bounded(Next(s, step).tokens[name])
  {
    assert Bounded(s.tokens[name]);
    if step.DoComplete? && step.request.WithAuth? && step.request.auth.session.Some?
       && step.request.auth.session.value in s.sessions
    {
      CompleteCounts(step.flows, s, step.request.auth.session.value, step.request.auth, name);
    }
  }

  lemma StepKeepsBounded(s: State, step: Step)
    requires AllBounded(s)
    ensures AllBounded(Next(s, step))
  {
    var s' := Next(s, step);
    forall name | name in s'.tokens ensures Bounded(s'.tokens[name]) {
      if name in s.tokens { UseIsCounted(s, step, name); }
    }
  }

  lemma {:induction false} UsedIsCompletionsFrom(s: State, steps: seq<Step>, name: string, acc: nat)
    requires AllBounded(s) && (name in s.tokens ==> s.tokens[name].used == acc)
    ensures var s' := Exec(s, steps);
      && AllBounded(s')
      && (name in s'.tokens ==> s'.tokens[name].used == Completions(s, steps, name, acc))
    decreases |steps|
  {
    if steps != [] {
      var s1 := Next(s, steps[0]);
      StepKeepsBounded(s, steps[0]);
      if name in s.tokens && name in s1.tokens {
        UseIsCounted(s, steps[0], name);
        UsedIsCompletionsFrom(s1, steps[1..], name, if CompletedWith(s, steps[0], name) then acc + 1 else acc);
      } else {
        UsedIsCompletionsFrom(s1, steps[1..], name, 0);
      }
    }
  }

  /**
   * Over every run from the empty store, a stored registration token has been used exactly as often as a stage was
   * completed with it since its creation, over all sessions, and never more often than it allows.
   */
  lemma {:induction false} UsedIsCompletions(steps: seq<Step>, name: string)
    ensures var s := Exec(EMPTY, steps);
      name in s.tokens ==>
        && s.tokens[name].used == Completions(EMPTY, steps, name, 0)
        && Bounded(s.tokens[name])
  {
    UsedIsCompletionsFrom(EMPTY, steps, name, 0);
  }

  // The names the Matrix Specification allows, by their bytes: capitals, small letters, digits and ".", "_", "~", "-".
  predicate SpecifiedName(name: string) {
    |name| <= 64
    && forall c :: c in name ==>
         var n := c as int;
         65 <= n <= 90 || 97 <= n <= 122 || 48 <= n <= 57 || n == 46 || n == 95 || n == 126 || n == 45
  }

  /** A specified token name is accepted exactly when it has no dot; "." is specified and refused. */
  lemma DotIsRefused(name: string)
    ensures TokenName(name) <==> SpecifiedName(name) && '.' !in name
    ensures SpecifiedName(".") && !TokenName(".")
  {
    assert '.' in ".";
  }

  // ---------- What a registration token is created with ----------

  // What a token is created with.
  datatype Creation = Creation(expires: nat, uses: int, privileges: Privileges.Bits)

  const NOTHING := Creation(0, 0, 0)

  // The step creates the token.
  predicate Creates(s: State, step: Step, name: string) {
    step.DoCreate? && step.name == name && name !in s.tokens && name in Next(s, step).tokens
  }

  // What a token of this name was last created with.
  function CreatedWith(s: State, steps: seq<Step>, name: string, acc: Creation): Creation
    decreases |steps|
  {
    if steps == [] then acc else
    var step := steps[0];
    var acc' := if Creates(s, step, name) then Creation(step.expires, step.uses, step.privileges) else acc;
    CreatedWith(Next(s, step), steps[1..], name, acc')
  }

  ghost predicate AsCreated(t: RegToken, c: Creation) {
    t.expiresOn == c.expires && t.uses == c.uses && t.grants == Privileges.Encode(c.privileges)
  }

  lemma {:induction false} CreationKeptFrom(s: State, steps: seq<Step>, name: string, acc: Creation)
    requires name in s.tokens ==> AsCreated(s.tokens[name], acc)
    ensures var s' := Exec(s, steps);
      name in s'.tokens ==> AsCreated(s'.tokens[name], CreatedWith(s, steps, name, acc))
    decreases |steps|
  {
    if steps != [] {
      var step := steps[0];
      var s1 := Next(s, step);
      var acc' := if Creates(s, step, name) then Creation(step.expires, step.uses, step.privileges) else acc;
      if name in s1.tokens { StepKeepsCreation(s, step, name, acc); }
      CreationKeptFrom(s1, steps[1..], name, acc');
    }
  }

  lemma StepKeepsCreation(s: State, step: Step, name: string, acc: Creation)
    requires name in Next(s, step).tokens && (name in s.tokens ==> AsCreated(s.tokens[name], acc))
    ensures AsCreated(Next(s, step).tokens[name],
                      if Creates(s, step, name) then Creation(step.expires, step.uses, step.privileges) else acc)
  {
  }

  /** Over every run from the empty store, a stored token has the expiry, uses and grants it was created with. */
  lemma {:induction false} CreationFixed(steps: seq<Step>, name: string)
    ensures var s := Exec(EMPTY, steps);
      name in s.tokens ==> AsCreated(s.tokens[name], CreatedWith(EMPTY, steps, name, NOTHING))
  {
    CreationKeptFrom(EMPTY, steps, name, NOTHING);
  }
}
