/**
 * What the two databases promise together: every run of the server is a run of each of them, and what an endpoint does
 * to the session store is backed by what its UIA session has completed.
 */
module EndpointTheorems {
  import opened Options
  import opened EndpointModel
  import Privileges
  import Sessions = SessionModel
  import SessionInvariant
  import SessionTheorems
  import Uia = UiaModel
  import UiaTheorems

  // ---------- Every run is a run of each part ----------

  // The step of UIA that a step of the server takes, if any.
  function UiaPart(sha: Sessions.Hash, w: World, serverName: string, step: Step): seq<Uia.Step> {
    match step
    case Called(call, request, newId) =>
      if Refusal(w, serverName, call).Some? then []
      else [Authenticating(sha, w, serverName, call, request, newId)]
    case OnStore(_) => []
    case OnUia(upkeep) => [upkeep]
    case Tick(ms) => [Uia.DoTick(ms)]
  }

  // The step of the session store.
  function StorePart(sha: Sessions.Hash, w: World, serverName: string, step: Step): seq<Sessions.Step> {
    match step
    case Called(call, request, newId) =>
      if Refusal(w, serverName, call).Some? then []
      else
        var auth := Authenticating(sha, w, serverName, call, request, newId);
        var action := ActionOf(w.(uia := Uia.Next(w.uia, auth)), call, SessionOf(request));
        if Passes(w.uia, auth) && action.Act? then [action.step] else []
    case OnStore(route) => [route]
    case OnUia(_) => []
    case Tick(ms) => [Sessions.DoTick(ms)]
  }

  function UiaRun(sha: Sessions.Hash, w: World, serverName: string, steps: seq<Step>): seq<Uia.Step>
    decreases |steps|
  {
    if steps == [] then []
    else UiaPart(sha, w, serverName, steps[0])
         + UiaRun(sha, Next(sha, w, serverName, steps[0]), serverName, steps[1..])
  }

  function StoreRun(sha: Sessions.Hash, w: World, serverName: string, steps: seq<Step>): seq<Sessions.Step>
    decreases |steps|
  {
    if steps == [] then []
    else StorePart(sha, w, serverName, steps[0])
         + StoreRun(sha, Next(sha, w, serverName, steps[0]), serverName, steps[1..])
  }

  lemma UiaOne(s: Uia.State, step: Uia.Step, rest: seq<Uia.Step>)
    ensures Uia.Exec(s, [step] + rest) == Uia.Exec(Uia.Next(s, step), rest)
    ensures Uia.Exec(s, [] + rest) == Uia.Exec(s, rest)
  {
    assert ([step] + rest)[1..] == rest;
    assert [] + rest == rest;
  }

  lemma StoreOne(sha: Sessions.Hash, s: Sessions.Store, step: Sessions.Step, rest: seq<Sessions.Step>)
    ensures Sessions.Exec(sha, s, [step] + rest) == Sessions.Exec(sha, Sessions.Next(sha, s, step), rest)
    ensures Sessions.LegalRun(sha, s, [step] + rest)
       <==> Sessions.Legal(s, step) && Sessions.LegalRun(sha, Sessions.Next(sha, s, step), rest)
    ensures [] + rest == rest
  {
    assert ([step] + rest)[1..] == rest;
  }

  predicate OneStages(steps: seq<Uia.Step>) {
    forall i :: 0 <= i < |steps| ==> UiaTheorems.OneStage(steps[i])
  }

  lemma StepIsUiaStep(sha: Sessions.Hash, w: World, serverName: string, step: Step, rest: seq<Uia.Step>)
    requires Legal(w, step)
    ensures Uia.Exec(w.uia, UiaPart(sha, w, serverName, step) + rest)
         == Uia.Exec(Next(sha, w, serverName, step).uia, rest)
    ensures OneStages(UiaPart(sha, w, serverName, step))
  {
    var part := UiaPart(sha, w, serverName, step);
    UiaOne(w.uia, if part == [] then Uia.DoCleanup else part[0], rest);
    if part != [] { assert part == [part[0]]; }
    if step.Called? {
      var request := Resolve(sha, w.store, serverName, step.request);
      UiaTheorems.EndpointsOfferOneStage(EndpointOf(step.call), request, step.newId);
    }
  }

  lemma StepIsStoreStep(sha: Sessions.Hash, w: World, serverName: string, step: Step, rest: seq<Sessions.Step>)
    requires Legal(w, step)
    requires Sessions.LegalRun(sha, Next(sha, w, serverName, step).store, rest)
    ensures Sessions.LegalRun(sha, w.store, StorePart(sha, w, serverName, step) + rest)
    ensures Sessions.Exec(sha, w.store, StorePart(sha, w, serverName, step) + rest)
         == Sessions.Exec(sha, Next(sha, w, serverName, step).store, rest)
  {
    var part := StorePart(sha, w, serverName, step);
    StoreOne(sha, w.store, if part == [] then Sessions.DoTick(0) else part[0], rest);
    if part != [] { assert part == [part[0]]; }
  }

  /**
   * Every run of the server is, seen from UIA, a run of one-stage flows, and seen from the session store a legal run:
   * what is proved of either part holds of the server.
   */
  lemma {:induction false} RunIsBothRuns(sha: Sessions.Hash, w: World, serverName: string, steps: seq<Step>)
    requires LegalRun(sha, w, serverName, steps)
    ensures var w' := Exec(sha, w, serverName, steps);
      && w'.uia == Uia.Exec(w.uia, UiaRun(sha, w, serverName, steps))
      && OneStages(UiaRun(sha, w, serverName, steps))
      && Sessions.LegalRun(sha, w.store, StoreRun(sha, w, serverName, steps))
      && w'.store == Sessions.Exec(sha, w.store, StoreRun(sha, w, serverName, steps))
    decreases |steps|
  {
    if steps != [] {
      var w1 := Next(sha, w, serverName, steps[0]);
      RunIsBothRuns(sha, w1, serverName, steps[1..]);
      StepIsUiaStep(sha, w, serverName, steps[0], UiaRun(sha, w1, serverName, steps[1..]));
      StepIsStoreStep(sha, w, serverName, steps[0], StoreRun(sha, w1, serverName, steps[1..]));
    }
  }

  lemma {:induction false} ExecSnoc(sha: Sessions.Hash, w: World, serverName: string, steps: seq<Step>, step: Step)
    ensures Exec(sha, w, serverName, steps + [step])
         == Next(sha, Exec(sha, w, serverName, steps), serverName, step)
    ensures LegalRun(sha, w, serverName, steps + [step])
       <==> LegalRun(sha, w, serverName, steps) && Legal(Exec(sha, w, serverName, steps), step)
    decreases |steps|
  {
    if steps == [] {
      var w1 := Next(sha, w, serverName, step);
      assert [step][1..] == [] && steps + [step] == [step];
      assert Exec(sha, w1, serverName, []) == w1 && LegalRun(sha, w1, serverName, []);
    } else {
      assert (steps + [step])[1..] == steps[1..] + [step];
      ExecSnoc(sha, Next(sha, w, serverName, steps[0]), serverName, steps[1..], step);
    }
  }

  // ---------- What every reachable state of the server keeps ----------

  ghost predicate Nameless(u: Uia.State) {
    forall id :: id in u.sessions ==> u.sessions[id].user.None?
  }

  lemma {:induction false} RunStaysNameless(u: Uia.State, steps: seq<Uia.Step>)
    requires Nameless(u)
    ensures Nameless(Uia.Exec(u, steps))
    decreases |steps|
  {
    if steps != [] {
      StepStaysNameless(u, steps[0]);
      RunStaysNameless(Uia.Next(u, steps[0]), steps[1..]);
    }
  }

  lemma StepStaysNameless(u: Uia.State, step: Uia.Step)
    requires Nameless(u)
    ensures Nameless(Uia.Next(u, step))
  {
  }

  ghost predicate Sound(w: World) {
    Sessions.Inv(w.store) && UiaTheorems.Short(w.uia) && Nameless(w.uia)
  }

  /** In every reachable state the token tables agree, and no UIA session has two stages or names a user. */
  lemma {:induction false} ReachableSound(sha: Sessions.Hash, serverName: string, steps: seq<Step>)
    requires LegalRun(sha, EMPTY, serverName, steps)
    ensures Sound(Exec(sha, EMPTY, serverName, steps))
  {
    RunIsBothRuns(sha, EMPTY, serverName, steps);
    SessionInvariant.ReachableInv(sha, StoreRun(sha, EMPTY, serverName, steps));
    UiaTheorems.SessionsStayShort(Uia.EMPTY, UiaRun(sha, EMPTY, serverName, steps));
    RunStaysNameless(Uia.EMPTY, UiaRun(sha, EMPTY, serverName, steps));
  }

  /** What every reachable state keeps is kept from any state that has it. */
  lemma {:induction false} StaysSound(sha: Sessions.Hash, w: World, serverName: string, steps: seq<Step>)
    requires Sound(w) && LegalRun(sha, w, serverName, steps)
    ensures Sound(Exec(sha, w, serverName, steps))
  {
    RunIsBothRuns(sha, w, serverName, steps);
    SessionInvariant.RunKeepsInv(sha, w.store, StoreRun(sha, w, serverName, steps));
    UiaTheorems.SessionsStayShort(w.uia, UiaRun(sha, w, serverName, steps));
    RunStaysNameless(w.uia, UiaRun(sha, w, serverName, steps));
  }

  // ---------- What lies behind an answer ----------

  // The call of an endpoint in the state that a run from the empty server reaches.
  ghost predicate Reached(sha: Sessions.Hash, serverName: string, steps: seq<Step>, call: Call, w: World) {
    && LegalRun(sha, EMPTY, serverName, steps) && w == Exec(sha, EMPTY, serverName, steps)
    && (call.Register? && call.form.login.Some? ==> Sessions.FreshLogin(w.store, call.form.login.value))
  }

  // The stages accepted in the session since it was created, this call included.
  ghost function LogAt(sha: Sessions.Hash, serverName: string, steps: seq<Step>, id: string): seq<UiaTheorems.Entry> {
    UiaTheorems.Log(Uia.EMPTY, UiaRun(sha, EMPTY, serverName, steps), id, [])
  }

  lemma AfterCall(sha: Sessions.Hash, serverName: string, steps: seq<Step>, call: Call, request: Request,
                  newId: string, w: World)
    requires Reached(sha, serverName, steps, call, w)
    ensures var w' := Serve(sha, w, serverName, call, request, newId).0;
      && LegalRun(sha, EMPTY, serverName, steps + [Called(call, request, newId)])
      && w' == Exec(sha, EMPTY, serverName, steps + [Called(call, request, newId)])
      && Sound(w) && Sound(w')
  {
    var step := Called(call, request, newId);
    ExecSnoc(sha, EMPTY, serverName, steps, step);
    ReachableSound(sha, serverName, steps);
    ReachableSound(sha, serverName, steps + [step]);
  }

  lemma PassedNames(u: Uia.State, step: Uia.Step)
    requires step.DoComplete? && Passes(u, step)
    ensures step.request.WithAuth? && step.request.auth.session.Some?
    ensures UiaTheorems.Names(step, u, step.request.auth.session.value)
  {
  }

  lemma ServedUia(sha: Sessions.Hash, w: World, serverName: string, call: Call, request: Request, newId: string)
    requires Refusal(w, serverName, call).None?
    ensures var (w', reply) := Serve(sha, w, serverName, call, request, newId);
      var step := Authenticating(sha, w, serverName, call, request, newId);
      w'.uia == Uia.Next(w.uia, step) && (reply.Unauthenticated? <==> !Passes(w.uia, step))
  {
  }

  /**
   * A call that names an existing session goes on to act exactly when the session has then completed a flow of the
   * endpoint, even if its stage was completed at another endpoint.
   */
  lemma {:induction false} ActsExactlyWhenComplete(sha: Sessions.Hash, serverName: string, steps: seq<Step>, call: Call,
                                                   request: Request, newId: string, w: World, id: string)
    requires Reached(sha, serverName, steps, call, w) && Refusal(w, serverName, call).None?
    requires request.WithAuth? && request.auth.session == Some(id) && id in w.uia.sessions
    ensures var (w', reply) := Serve(sha, w, serverName, call, request, newId);
      && id in w'.uia.sessions
      && (!reply.Unauthenticated? <==> w'.uia.sessions[id].completed in Uia.FlowsOf(EndpointOf(call)))
  {
    var step := Authenticating(sha, w, serverName, call, request, newId);
    AfterCall(sha, serverName, steps, call, request, newId, w);
    UiaTheorems.EndpointsOfferOneStage(EndpointOf(call), step.request, newId);
    ServedUia(sha, w, serverName, call, request, newId);
    UiaTheorems.PassedExactlyWhenOffered(w.uia, step, id);
  }

  // The session's only stage, and what it remembers.
  lemma LoggedStage(sha: Sessions.Hash, serverName: string, steps: seq<Step>, id: string)
    requires LegalRun(sha, EMPTY, serverName, steps)
    ensures var u, log := Exec(sha, EMPTY, serverName, steps).uia, LogAt(sha, serverName, steps, id);
      id in u.sessions ==>
        && |u.sessions[id].completed| == |log| <= 1
        && (|log| == 1 ==> u.sessions[id].completed == [log[0].stage])
        && u.sessions[id].registrationToken
           == (if |log| == 1 && log[0].stage == Uia.REGISTRATION then log[0].token else None)
  {
    var log := LogAt(sha, serverName, steps, id);
    RunIsBothRuns(sha, EMPTY, serverName, steps);
    ReachableSound(sha, serverName, steps);
    UiaTheorems.CompletedIsLog(UiaRun(sha, EMPTY, serverName, steps), id);
    var u := Exec(sha, EMPTY, serverName, steps).uia;
    if id in u.sessions { UiaTheorems.ShortLog(u.sessions[id], log); }
  }

  /**
   * An endpoint acts only for a session in which, since its creation, exactly one stage was accepted on good evidence,
   * one the endpoint offers: a registration token or, where registration is open, nothing for an account, a password
   * for a new password.
   */
  lemma {:induction false} ActsOnlyAfterStage(sha: Sessions.Hash, serverName: string, steps: seq<Step>, call: Call,
                                              request: Request, newId: string, w: World)
    requires Reached(sha, serverName, steps, call, w) && Refusal(w, serverName, call).None?
    ensures var (w', reply) := Serve(sha, w, serverName, call, request, newId);
      var log := LogAt(sha, serverName, steps + [Called(call, request, newId)], SessionOf(request));
      && (reply.Unauthenticated? ==> w'.store == w.store)
      && (!reply.Unauthenticated? ==> |log| == 1 && [log[0].stage] in Uia.FlowsOf(EndpointOf(call)))
      && (reply.Registered? && !call.open ==> log[0].stage == Uia.REGISTRATION && log[0].token.Some?)
      && (reply.Registered? && call.open ==>
            log[0].stage == "m.login.registration_token" || log[0].stage == "m.login.dummy")
      && (reply.PasswordChanged? ==> log[0].stage == "m.login.password")
      && (reply.Deactivated? && call.access.Some? ==> log[0].stage == "m.login.dummy")
      && (reply.StagePassed? ==> log[0].stage == call.stage)
  {
    var (w', reply) := Serve(sha, w, serverName, call, request, newId);
    var step := Authenticating(sha, w, serverName, call, request, newId);
    ServedUia(sha, w, serverName, call, request, newId);
    if !reply.Unauthenticated? {
      PassedNames(w.uia, step);
      var id := SessionOf(request);
      AfterCall(sha, serverName, steps, call, request, newId, w);
      ActsExactlyWhenComplete(sha, serverName, steps, call, request, newId, w, id);
      LoggedStage(sha, serverName, steps + [Called(call, request, newId)], id);
      OfferedStages(call, w'.uia.sessions[id].completed);
      AnswerOfCall(sha, w, serverName, call, request, newId);
    }
  }

  // The stages of each endpoint's flows.
  lemma OfferedStages(call: Call, flow: Uia.Flow)
    requires flow in Uia.FlowsOf(EndpointOf(call))
    ensures |flow| == 1
    ensures call.Register? && !call.open ==> flow == ["m.login.registration_token"]
    ensures call.Register? && call.open ==> flow == ["m.login.registration_token"] || flow == ["m.login.dummy"]
    ensures call.ChangePwd? ==> flow == ["m.login.password"]
    ensures call.Deactivate? && call.access.Some? ==> flow == ["m.login.dummy"]
    ensures call.Fallback? ==> flow == [call.stage]
  {
  }

  // Which call an answer belongs to.
  lemma AnswerOfCall(sha: Sessions.Hash, w: World, serverName: string, call: Call, request: Request, newId: string)
    ensures var reply := Serve(sha, w, serverName, call, request, newId).1;
      && (reply.Registered? ==> call.Register?)
      && (reply.PasswordChanged? ==> call.ChangePwd?)
      && (reply.Deactivated? ==> call.Deactivate?)
      && (reply.StagePassed? ==> call.Fallback?)
  {
  }

  // ---------- Registration ----------

  // What the token was last created with in a run from the empty server.
  ghost function Creation(sha: Sessions.Hash, serverName: string, steps: seq<Step>, name: string)
    : UiaTheorems.Creation
  {
    UiaTheorems.CreatedWith(Uia.EMPTY, UiaRun(sha, EMPTY, serverName, steps), name, UiaTheorems.NOTHING)
  }

  lemma GrantsAre(sha: Sessions.Hash, serverName: string, steps: seq<Step>, name: string)
    requires LegalRun(sha, EMPTY, serverName, steps)
    ensures var u := Exec(sha, EMPTY, serverName, steps).uia;
      name in u.tokens ==>
        u.tokens[name].grants == Privileges.Encode(Creation(sha, serverName, steps, name).privileges)
  {
    RunIsBothRuns(sha, EMPTY, serverName, steps);
    UiaTheorems.CreationFixed(UiaRun(sha, EMPTY, serverName, steps), name);
  }

  // The privileges that the registration token accepted in a session was created with, while it is stored.
  ghost predicate Backs(sha: Sessions.Hash, serverName: string, steps: seq<Step>, id: string, x: Privileges.Privilege) {
    var log := LogAt(sha, serverName, steps, id);
    && |log| == 1 && log[0].stage == Uia.REGISTRATION && log[0].token.Some?
    && log[0].token.value in Exec(sha, EMPTY, serverName, steps).uia.tokens
    && Privileges.Has(
         Creation(sha, serverName, steps, log[0].token.value).privileges, x)
  }

  lemma GrantsBack(sha: Sessions.Hash, serverName: string, steps: seq<Step>, id: string, x: Privileges.Privilege)
    requires LegalRun(sha, EMPTY, serverName, steps) && id in Exec(sha, EMPTY, serverName, steps).uia.sessions
    ensures var grants := GrantsOf(Exec(sha, EMPTY, serverName, steps).uia, id);
      grants.Some? && Privileges.Names(grants.value, x) <==> Backs(sha, serverName, steps, id, x)
  {
    LoggedStage(sha, serverName, steps, id);
    var u := Exec(sha, EMPTY, serverName, steps).uia;
    if u.sessions[id].registrationToken.Some? {
      var t := u.sessions[id].registrationToken.value;
      GrantsAre(sha, serverName, steps, t);
      var p := Creation(sha, serverName, steps, t).privileges;
      Privileges.EncodeNames(p, x);
    }
  }

  lemma RegisteredBy(sha: Sessions.Hash, w: World, serverName: string, call: Call, request: Request, newId: string)
    requires Serve(sha, w, serverName, call, request, newId).1.Registered?
    ensures call.Register? && call.form.password.Some? && Refusal(w, serverName, call).None?
    ensures var (w', reply) := Serve(sha, w, serverName, call, request, newId);
      var form, password := call.form, call.form.password.value;
      && reply.name == NameOf(form) && Sessions.Creatable(w.store, NameOf(form), password)
      && w'.store == Sessions.Register(sha, w.store, NameOf(form), password, form.salt, form.login,
                                       GrantsOf(w'.uia, SessionOf(request)))
  {
  }

  /**
   * A registered account can be used at once with its password and its first token, and it has exactly the privileges
   * that the registration token accepted in its session was created with; none without one, or if it was deleted.
   */
  lemma {:induction false} RegisteredPrivileges(sha: Sessions.Hash, serverName: string, steps: seq<Step>, call: Call,
                                                request: Request, newId: string, w: World, x: Privileges.Privilege)
    requires Reached(sha, serverName, steps, call, w)
    requires Serve(sha, w, serverName, call, request, newId).1.Registered?
    ensures var (w', reply) := Serve(sha, w, serverName, call, request, newId);
      && call.Register? && call.form.password.Some?
      && reply.name !in w.store.users && w'.store.users.Keys == w.store.users.Keys + {reply.name}
      && Sessions.LoginAllowed(sha, w'.store, reply.name, call.form.password.value)
      && (call.form.login.Some? ==>
            Sessions.Authenticate(w'.store, call.form.login.value.access)
            == Some(Sessions.Owner(reply.name, call.form.login.value.device)))
      && (Sessions.Granted(w'.store, reply.name, x) <==>
            Backs(sha, serverName, steps + [Called(call, request, newId)], SessionOf(request), x))
  {
    var (w', reply) := Serve(sha, w, serverName, call, request, newId);
    var form, id := call.form, SessionOf(request);
    AfterCall(sha, serverName, steps, call, request, newId, w);
    RegisteredBy(sha, w, serverName, call, request, newId);
    ServedUia(sha, w, serverName, call, request, newId);
    PassedNames(w.uia, Authenticating(sha, w, serverName, call, request, newId));
    ActsExactlyWhenComplete(sha, serverName, steps, call, request, newId, w, id);
    GrantsBack(sha, serverName, steps + [Called(call, request, newId)], id, x);
    SessionTheorems.RegisterEffect(sha, w.store, NameOf(form), form.password.value, form.salt, form.login,
                                   GrantsOf(w'.uia, id));
  }

  predicate Registrable(w: World, serverName: string, form: Form) {
    && form.username.Some? && Identifiers.UserName(form.username.value, serverName)
    && form.username.value !in w.store.users && !form.guest && form.password.Some? && form.password.value != ""
  }

  lemma RegisteredServed(sha: Sessions.Hash, w: World, serverName: string, open: bool, form: Form, request: Request,
                         newId: string)
    requires Registrable(w, serverName, form)
    ensures var (w', reply) := Serve(sha, w, serverName, Register(open, form), request, newId);
      !reply.Unauthenticated? ==>
        && reply == Registered(form.username.value)
        && w'.store == Sessions.Register(sha, w.store, form.username.value, form.password.value, form.salt, form.login,
                                         GrantsOf(w'.uia, SessionOf(request)))
  {
  }

  // A completed session is left as it is, and so are all registration tokens.
  lemma CompletedPasses(flows: seq<Uia.Flow>, u: Uia.State, id: string, auth: Uia.Auth)
    requires id in u.sessions && u.sessions[id].completed in flows
    ensures Uia.CompleteIn(flows, u, id, auth) == (Uia.Touch(u, id), Uia.Passed)
  {
  }

  // The session has completed its registration-token stage.
  predicate TokenSession(w: World, id: string) {
    id in w.uia.sessions && w.uia.sessions[id].completed == [Uia.REGISTRATION]
  }

  // Any call naming such a session, whatever it presents.
  predicate ForSession(request: Request, id: string) {
    request.WithAuth? && request.auth.session == Some(id)
  }

  lemma RegistersAgain(sha: Sessions.Hash, w: World, serverName: string, open: bool, form: Form, request: Request,
                       newId: string, id: string)
    requires TokenSession(w, id) && ForSession(request, id) && Registrable(w, serverName, form)
    ensures var (w', reply) := Serve(sha, w, serverName, Register(open, form), request, newId);
      && reply == Registered(form.username.value)
      && w'.uia.tokens == w.uia.tokens && TokenSession(w', id)
      && w'.store.users.Keys == w.store.users.Keys + {form.username.value}
  {
    var auth := request.auth;
    var flows := Uia.FlowsOf(Uia.Register(open));
    assert flows[0] == [Uia.REGISTRATION];
    CompletedPasses(flows, w.uia, id,
                    Uia.Auth(auth.session, auth.stage, PasswordOk(sha, w.store, serverName, auth), auth.token));
    RegisteredServed(sha, w, serverName, open, form, request, newId);
  }

  // Forms for accounts that do not exist yet, with distinct names, and without a first login.
  ghost predicate NewNames(w: World, serverName: string, forms: seq<Form>) {
    && (forall i :: 0 <= i < |forms| ==> Registrable(w, serverName, forms[i]) && forms[i].login.None?)
    && (forall i, j :: 0 <= i < j < |forms| ==> forms[i].username != forms[j].username)
  }

  ghost function NamesOf(forms: seq<Form>): set<string> {
    set i | 0 <= i < |forms| && forms[i].username.Some? :: forms[i].username.value
  }

  function RegisterAll(open: bool, request: Request, forms: seq<Form>): seq<Step> {
    seq(|forms|, i requires 0 <= i < |forms| => Called(Register(open, forms[i]), request, ""))
  }

  // From w to w' this many accounts were made, with these names, and nothing was used up.
  ghost predicate AllMade(w: World, w': World, names: set<string>, count: nat, id: string) {
    && w'.store.users.Keys == w.store.users.Keys + names && |names| == count
    && w'.uia.tokens == w.uia.tokens && TokenSession(w', id)
  }

  lemma MadeOneMore(w: World, w1: World, w': World, name: string, rest: set<string>, count: nat, id: string)
    requires w1.store.users.Keys == w.store.users.Keys + {name} && w1.uia.tokens == w.uia.tokens
    requires name !in rest && AllMade(w1, w', rest, count, id)
    ensures AllMade(w, w', {name} + rest, count + 1, id)
  {
  }

  lemma RegisterAllCons(sha: Sessions.Hash, w: World, serverName: string, open: bool, request: Request,
                        forms: seq<Form>)
    requires forms != []
    ensures var first, rest := Called(Register(open, forms[0]), request, ""), RegisterAll(open, request, forms[1..]);
      var w1 := Next(sha, w, serverName, first);
      && Exec(sha, w, serverName, RegisterAll(open, request, forms)) == Exec(sha, w1, serverName, rest)
      && (LegalRun(sha, w, serverName, RegisterAll(open, request, forms))
          <==> Legal(w, first) && LegalRun(sha, w1, serverName, rest))
  {
    assert RegisterAll(open, request, forms)[1..] == RegisterAll(open, request, forms[1..]);
  }

  // The run that submits the forms is legal and makes their accounts.
  ghost predicate Made(sha: Sessions.Hash, w: World, serverName: string, open: bool, request: Request, id: string,
                       forms: seq<Form>)
  {
    var steps := RegisterAll(open, request, forms);
    && LegalRun(sha, w, serverName, steps)
    && AllMade(w, Exec(sha, w, serverName, steps), NamesOf(forms), |forms|, id)
  }

  lemma MadeNone(sha: Sessions.Hash, w: World, serverName: string, open: bool, request: Request, id: string)
    requires TokenSession(w, id)
    ensures Made(sha, w, serverName, open, request, id, [])
  {
    var forms: seq<Form> := [];
    assert RegisterAll(open, request, forms) == [] && NamesOf(forms) == {};
    assert w.store.users.Keys + {} == w.store.users.Keys;
  }

  lemma MadeCons(sha: Sessions.Hash, w: World, w1: World, serverName: string, open: bool, request: Request,
                 id: string, forms: seq<Form>)
    requires forms != [] && NewNames(w, serverName, forms)
    requires w1 == Next(sha, w, serverName, Called(Register(open, forms[0]), request, ""))
    requires w1.store.users.Keys == w.store.users.Keys + {forms[0].username.value} && w1.uia.tokens == w.uia.tokens
    requires Made(sha, w1, serverName, open, request, id, forms[1..])
    ensures Made(sha, w, serverName, open, request, id, forms)
  {
    var w' := Exec(sha, w1, serverName, RegisterAll(open, request, forms[1..]));
    RegisterAllCons(sha, w, serverName, open, request, forms);
    NewAreNamed(w, serverName, forms);
    NamesMore(forms);
    MadeOneMore(w, w1, w', forms[0].username.value, NamesOf(forms[1..]), |forms| - 1, id);
  }

  lemma NewAreNamed(w: World, serverName: string, forms: seq<Form>)
    requires NewNames(w, serverName, forms)
    ensures forall i :: 0 <= i < |forms| ==> forms[i].username.Some? && forms[i].login.None?
    ensures forall i, j :: 0 <= i < j < |forms| ==> forms[i].username != forms[j].username
  {
  }

  /**
   * A completed session is not consumed: from one use of a registration token any number of accounts can be made, and
   * none of them counts as a use.
   */
  lemma {:induction false} OneUseManyAccounts(sha: Sessions.Hash, w: World, serverName: string, open: bool,
                                              request: Request, id: string, forms: seq<Form>)
    requires TokenSession(w, id) && ForSession(request, id) && NewNames(w, serverName, forms)
    ensures Made(sha, w, serverName, open, request, id, forms)
    decreases |forms|
  {
    if forms == [] {
      MadeNone(sha, w, serverName, open, request, id);
    } else {
      var w1 := Serve(sha, w, serverName, Register(open, forms[0]), request, "").0;
      RegistersAgain(sha, w, serverName, open, forms[0], request, "", id);
      StillNew(w, w1, serverName, forms);
      OneUseManyAccounts(sha, w1, serverName, open, request, id, forms[1..]);
      MadeCons(sha, w, w1, serverName, open, request, id, forms);
    }
  }

  lemma StillNew(w: World, w1: World, serverName: string, forms: seq<Form>)
    requires forms != [] && NewNames(w, serverName, forms)
    requires w1.store.users.Keys == w.store.users.Keys + {forms[0].username.value}
    ensures NewNames(w1, serverName, forms[1..])
  {
    forall i | 0 <= i < |forms[1..]| ensures Registrable(w1, serverName, forms[1..][i]) && forms[1..][i].login.None? {
      assert forms[1..][i] == forms[i + 1];
      assert Registrable(w, serverName, forms[i + 1]);
      assert forms[0].username != forms[i + 1].username && Registrable(w, serverName, forms[0]);
    }
  }

  lemma NamesMore(forms: seq<Form>)
    requires forms != [] && forall i :: 0 <= i < |forms| ==> forms[i].username.Some?
    requires forall i, j :: 0 <= i < j < |forms| ==> forms[i].username != forms[j].username
    ensures NamesOf(forms) == {forms[0].username.value} + NamesOf(forms[1..])
    ensures forms[0].username.value !in NamesOf(forms[1..])
  {
    forall x ensures x in NamesOf(forms) <==> x == forms[0].username.value || x in NamesOf(forms[1..]) {
      if x in NamesOf(forms) {
        var i :| 0 <= i < |forms| && forms[i].username.value == x;
        if i > 0 { assert forms[1..][i - 1] == forms[i]; }
      }
      if x in NamesOf(forms[1..]) {
        var i :| 0 <= i < |forms[1..]| && forms[1..][i].username.value == x;
        assert forms[i + 1] == forms[1..][i];
      }
    }
  }

  // ---------- Deactivation ----------

  // What a call of the deactivation route does once UIA has passed.
  lemma DeactivationServed(sha: Sessions.Hash, w: World, serverName: string, access: Option<string>, request: Request,
                           newId: string)
    ensures var (w', reply) := Serve(sha, w, serverName, Deactivate(access), request, newId);
      var actor := ActorOf(w', access, SessionOf(request));
      if reply.Unauthenticated? then w'.store == w.store
      else
        && w'.store == Sessions.Deactivate(w.store, actor)
        && (reply.Deactivated? <==> Sessions.DeactivateSucceeds(w.store, actor))
  {
  }

  lemma NobodyActs(s: Sessions.Store)
    ensures !Sessions.DeactivateSucceeds(s, Sessions.BySession(None))
  {
  }

  /**
   * Deactivation without an access token never succeeds: the route takes the user from the UIA session, where no route
   * ever writes one. With an access token it succeeds exactly when UIA passes and the token authenticates.
   */
  lemma {:induction false} TokenlessDeactivationFails(sha: Sessions.Hash, serverName: string, steps: seq<Step>,
                                                      access: Option<string>, request: Request, newId: string, w: World)
    requires Reached(sha, serverName, steps, Deactivate(access), w)
    ensures var (w', reply) := Serve(sha, w, serverName, Deactivate(access), request, newId);
      && (reply.Deactivated? <==>
            !reply.Unauthenticated? && access.Some? && Sessions.Authenticate(w.store, access.value).Some?)
      && (!reply.Deactivated? ==> w'.store == w.store)
  {
    var (w', reply) := Serve(sha, w, serverName, Deactivate(access), request, newId);
    AfterCall(sha, serverName, steps, Deactivate(access), request, newId, w);
    DeactivationServed(sha, w, serverName, access, request, newId);
    if access.None? {
      assert UserOf(w'.uia, SessionOf(request)).None?;
      NobodyActs(w.store);
    } else if Sessions.Authenticate(w.store, access.value).Some? {
      SessionTheorems.LogoutNeverFails(w.store, access.value);
    }
  }

  /**
   * After a successful deactivation no token authenticates as the user in any continuation of the server's run in which
   * no entitled caller reactivates them.
   */
  lemma {:induction false} DeactivatedStaysOut(sha: Sessions.Hash, serverName: string, steps: seq<Step>,
                                               token: string, who: Sessions.Owner, request: Request, newId: string,
                                               w: World, more: seq<Step>, t: string)
    requires Reached(sha, serverName, steps, Deactivate(Some(token)), w)
    requires Sessions.Authenticate(w.store, token) == Some(who)
    requires var (w', reply) := Serve(sha, w, serverName, Deactivate(Some(token)), request, newId);
      && reply.Deactivated? && LegalRun(sha, w', serverName, more)
      && SessionTheorems.NeverReactivated(sha, w'.store, StoreRun(sha, w', serverName, more), who.user)
    ensures var w' := Serve(sha, w, serverName, Deactivate(Some(token)), request, newId).0;
      var now := Sessions.Authenticate(Exec(sha, w', serverName, more).store, t);
      now.Some? ==> now.value.user != who.user
  {
    var w' := Serve(sha, w, serverName, Deactivate(Some(token)), request, newId).0;
    AfterCall(sha, serverName, steps, Deactivate(Some(token)), request, newId, w);
    DeactivationServed(sha, w, serverName, Some(token), request, newId);
    StaysOut(sha, w.store, w', serverName, token, who, more, t);
  }

  lemma StaysOut(sha: Sessions.Hash, s: Sessions.Store, w': World, serverName: string, token: string,
                 who: Sessions.Owner, more: seq<Step>, t: string)
    requires Sessions.Inv(s) && Sessions.Authenticate(s, token) == Some(who)
    requires w'.store == Sessions.Deactivate(s, Sessions.ByToken(token)) && LegalRun(sha, w', serverName, more)
    requires SessionTheorems.NeverReactivated(sha, w'.store, StoreRun(sha, w', serverName, more), who.user)
    ensures var now := Sessions.Authenticate(Exec(sha, w', serverName, more).store, t);
      now.Some? ==> now.value.user != who.user
  {
    RunIsBothRuns(sha, w', serverName, more);
    SessionTheorems.LogoutNeverFails(s, token);
    SessionTheorems.DeactivationIsFinal(sha, s, Sessions.ByToken(token), StoreRun(sha, w', serverName, more), t);
  }
}
