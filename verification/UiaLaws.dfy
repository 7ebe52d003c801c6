/**
 * One call of UiaComplete observed from outside: which stage is accepted, what is answered, and what is stored; and the
 * creation of registration tokens. Evidence is spelled out.
 */
module UiaLaws {
  import opened Options
  import opened UiaModel
  import opened UiaTheorems
  import Privileges

  // ---------- Which stage is accepted ----------

  // The call presents a stage that is offered next to a session with no flow completed.
  predicate PresentsNext(s: State, step: Step, id: string)
    requires Names(step, s, id)
  {
    var c := s.sessions[id].completed;
    c !in step.flows && step.request.auth.stage.Some? && Offered(step.flows, |c|, step.request.auth.stage.value)
  }

  /**
   * What a session has completed grows by the stage presented exactly when it is offered next, no flow is completed and
   * the evidence is good; otherwise it stays. The session remembers the token of an accepted registration-token stage.
   */
  lemma {:induction false} StageExactly(s: State, step: Step, id: string)
    requires Names(step, s, id)
    ensures id in Next(s, step).sessions
    ensures var auth, session, session' := step.request.auth, s.sessions[id], Next(s, step).sessions[id];
      if PresentsNext(s, step, id) && Evidence(s, auth.stage.value, auth)
      then && session'.completed == session.completed + [auth.stage.value]
           && session'.registrationToken
              == (if auth.stage == Some("m.login.registration_token") then auth.token else session.registrationToken)
      else session'.completed == session.completed && session'.registrationToken == session.registrationToken
  {
    AcceptedExactly(step.flows, s, id, step.request.auth);
  }

  // The call presents a registration token.
  predicate PresentsToken(s: State, step: Step, id: string, name: string)
    requires Names(step, s, id)
  {
    && PresentsNext(s, step, id) && step.request.auth.stage == Some("m.login.registration_token")
    && step.request.auth.token == Some(name)
  }

  /**
   * After any run from the empty store, a registration-token stage that is offered next to an unfinished session is
   * accepted if and only if the token is stored, it was created without an expiry or with one that has not come, and
   * the stages completed with it since are fewer than the uses it was created with, or those are unlimited.
   */
  lemma {:induction false} TokenStageExactly(steps: seq<Step>, step: Step, id: string, name: string)
    requires Names(step, Exec(EMPTY, steps), id) && PresentsToken(Exec(EMPTY, steps), step, id, name)
    ensures var s, created := Exec(EMPTY, steps), CreatedWith(EMPTY, steps, name, NOTHING);
      && id in Next(s, step).sessions
      && (Next(s, step).sessions[id].completed == s.sessions[id].completed + [REGISTRATION] <==>
            && name in s.tokens
            && (created.expires == 0 || s.now < created.expires)
            && (created.uses == -1 || Completions(EMPTY, steps, name, 0) < created.uses))
  {
    var s := Exec(EMPTY, steps);
    StageExactly(s, step, id);
    UsedIsCompletions(steps, name);
    CreationFixed(steps, name);
    DistinctStages();
    assert |s.sessions[id].completed + [REGISTRATION]| == |s.sessions[id].completed| + 1;
  }

  // ---------- What is answered ----------

  // The call makes a new session: it names none, or one that is not stored.
  predicate Opens(s: State, request: Request) {
    || request.NoAuth?
    || (request.WithAuth? && request.auth.session.Some? && request.auth.session.value !in s.sessions)
  }

  /**
   * Every answer: a new session's ID with nothing completed, or a failure if its ID is taken; a bad request without an
   * object, a session or a stage; success for a completed flow; and else the session's ID with what it has then
   * completed. Every challenge carries the flows offered.
   */
  lemma {:induction false} Answers(s: State, step: Step)
    requires step.DoComplete?
    ensures var s', reply, request := Next(s, step), ReplyTo(s, step), step.request;
      if Opens(s, request) then
        if step.newId in s.sessions then reply == Internal && s' == s
        else
          && reply == Challenge(step.newId, [], step.flows)
          && s' == s.(sessions := s.sessions[step.newId := Session([], s.now, None, None)])
      else if request.AuthNotObject? || request.auth.session.None? then reply == BadJson && s' == s
      else
        var id := request.auth.session.value;
        && id in s.sessions && id in s'.sessions
        && var c := s.sessions[id].completed;
           if c in step.flows then reply == Passed
           else if request.auth.stage.None? then reply == BadJson
           else reply == Passed || reply == Challenge(id, s'.sessions[id].completed, step.flows)
  {
  }

  /** A call that names a session records the access, and touches no other session. */
  lemma {:induction false} AccessRecorded(s: State, step: Step, id: string)
    requires Names(step, s, id)
    ensures var s' := Next(s, step);
      && s'.sessions.Keys == s.sessions.Keys && s'.sessions[id].lastAccess == s.now
      && s'.sessions[id].user == s.sessions[id].user
      && (forall x :: x in s.sessions && x != id ==> s'.sessions[x] == s.sessions[x])
      && s'.now == s.now
  {
  }

  // ---------- Registration tokens ----------

  // The bytes of a token name: digits, capitals, small letters, and the three of "-", "_" and "~".
  predicate TokenByte(n: int) {
    48 <= n <= 57 || 65 <= n <= 90 || 97 <= n <= 122 || n == 45 || n == 95 || n == 126
  }

  /**
   * A token is created exactly for at least -1 uses, a name of at most 64 of these bytes that is not taken,
   * and an expiry that has not passed or none; it is unused, and nothing else changes.
   */
  lemma {:induction false} CreationExactly(s: State, step: Step)
    requires step.DoCreate?
    ensures var s', name := Next(s, step), step.name;
      if step.uses >= -1 && |name| <= 64 && (forall c :: c in name ==> TokenByte(c as int))
         && (step.expires == 0 || s.now <= step.expires) && name !in s.tokens
      then
        && name in s'.tokens && s'.tokens == s.tokens[name := s'.tokens[name]] && s'.sessions == s.sessions
        && s'.tokens[name].used == 0 && s'.tokens[name].createdOn == s.now && s'.tokens[name].createdBy == step.owner
        && AsCreated(s'.tokens[name], Creation(step.expires, step.uses, step.privileges))
      else s' == s
  {
    assert forall c :: TokenChar(c) <==> TokenByte(c as int);
  }
}
