/**
 * Whose password a password change asks for: that of any account. The password stage checks the account its identifier
 * names, and the route changes the account of its access token; nothing compares the two.
 */
module EndpointPasswords {
  import opened Options
  import opened EndpointModel
  import opened EndpointTheorems
  import Identifiers
  import IdentifierTheorems
  import Privileges
  import Sessions = SessionModel
  import SessionInvariant
  import SessionLaws
  import SessionTheorems
  import Uia = UiaModel
  import UiaTheorems

  // The account of this server that the identifier of a password stage reads as.
  function NamedUser(serverName: string, auth: Auth): Option<string> {
    if auth.identifier.None? || auth.identifier.value.user.None? then None
    else
      match Identifiers.ParseUserId(auth.identifier.value.user.value, serverName)
      case None => None
      case Some(id) =>
        if id.server.Some? && Identifiers.Recompose(id.server.value) == serverName then id.local else None
  }

  // The evidence is for this account, and it is this password.
  predicate Presents(serverName: string, auth: Auth, u: string, p: string) {
    && auth.identifier.Some? && auth.identifier.value.kind == Some("m.id.user")
    && NamedUser(serverName, auth) == Some(u) && auth.password == Some(p)
  }

  // The evidence is for a stored account, and the hash of the password with its salt is the one stored.
  predicate GoodPassword(sha: Sessions.Hash, s: Sessions.Store, serverName: string, auth: Auth) {
    && NamedUser(serverName, auth).Some? && auth.password.Some?
    && var u, p := NamedUser(serverName, auth).value, auth.password.value;
       && Presents(serverName, auth, u, p) && u in s.users && sha(p + s.users[u].salt) == s.users[u].password
  }

  lemma GoodIsOk(sha: Sessions.Hash, s: Sessions.Store, serverName: string, auth: Auth)
    ensures PasswordOk(sha, s, serverName, auth) <==> GoodPassword(sha, s, serverName, auth)
  {
  }

  // A call that names an existing session.
  predicate InSession(w: World, auth: Auth, id: string) {
    auth.session == Some(id) && id in w.uia.sessions
  }

  // What lets a password change through: the session has its password stage behind it, or is new and the call presents
  // a good password now.
  predicate LetsThrough(sha: Sessions.Hash, w: World, serverName: string, auth: Auth, id: string)
    requires id in w.uia.sessions
  {
    var c := w.uia.sessions[id].completed;
    c == [Uia.PASSWORD]
    || (c == [] && auth.stage == Some(Uia.PASSWORD) && GoodPassword(sha, w.store, serverName, auth))
  }

  lemma PasswordStage(u: Uia.State, id: string, auth: Uia.Auth)
    requires UiaTheorems.Short(u) && id in u.sessions
    ensures var flows, c := [[Uia.PASSWORD]], u.sessions[id].completed;
      Uia.CompleteIn(flows, u, id, auth).1.Passed? <==>
        c == [Uia.PASSWORD] || (c == [] && auth.stage == Some(Uia.PASSWORD) && auth.passwordOk)
  {
    var flows, c := [[Uia.PASSWORD]], u.sessions[id].completed;
    UiaTheorems.DistinctStages();
    assert c in flows <==> c == [Uia.PASSWORD];
    if auth.stage.Some? { UiaTheorems.OneCandidate([Uia.PASSWORD], |c|, auth.stage.value); }
  }

  lemma PasswordPasses(sha: Sessions.Hash, w: World, serverName: string, call: Call, auth: Auth, id: string,
                       newId: string)
    requires call.ChangePwd? && UiaTheorems.Short(w.uia) && InSession(w, auth, id)
    ensures Passes(w.uia, Authenticating(sha, w, serverName, call, WithAuth(auth), newId))
       <==> LetsThrough(sha, w, serverName, auth, id)
  {
    var ok := PasswordOk(sha, w.store, serverName, auth);
    GoodIsOk(sha, w.store, serverName, auth);
    PasswordStage(w.uia, id, Uia.Auth(auth.session, auth.stage, ok, auth.token));
  }

  // The endpoint offers the password stage alone.
  predicate AsksPassword(call: Call) {
    Uia.FlowsOf(EndpointOf(call)) == [["m.login.password"]]
  }

  /**
   * The password stage of any endpoint, for a session that has completed nothing: the call goes on to act exactly if
   * its identifier is of kind m.id.user and reads as a local part on this server, the account is stored, and the hash
   * of the password with the account's salt is the one stored.
   */
  lemma {:induction false} PasswordStageExactly(sha: Sessions.Hash, w: World, serverName: string, call: Call,
                                                auth: Auth, id: string, newId: string)
    requires UiaTheorems.Short(w.uia) && InSession(w, auth, id) && w.uia.sessions[id].completed == []
    requires AsksPassword(call) && Refusal(w, serverName, call).None? && auth.stage == Some("m.login.password")
    ensures !Serve(sha, w, serverName, call, WithAuth(auth), newId).1.Unauthenticated?
       <==> GoodPassword(sha, w.store, serverName, auth)
  {
    var ok := PasswordOk(sha, w.store, serverName, auth);
    GoodIsOk(sha, w.store, serverName, auth);
    PasswordStage(w.uia, id, Uia.Auth(auth.session, auth.stage, ok, auth.token));
    ServedUia(sha, w, serverName, call, WithAuth(auth), newId);
  }

  /**
   * After a password change the password stage accepts for that account the passwords with the hash of the new one, and
   * no others.
   */
  lemma {:induction false} StageAfterChange(sha: Sessions.Hash, s: Sessions.Store, t: string, q: string, salt: string,
                                            all: bool, serverName: string, auth: Auth, p: string)
    requires Sessions.Inv(s) && Sessions.Authenticate(s, t).Some?
    requires Presents(serverName, auth, Sessions.Authenticate(s, t).value.user, p)
    ensures GoodPassword(sha, Sessions.ChangePassword(sha, s, t, q, salt, all), serverName, auth)
       <==> sha(p + salt) == sha(q + salt)
  {
    var u := Sessions.Authenticate(s, t).value.user;
    SessionLaws.AccountsAfter(sha, s, Sessions.DoChangePassword(t, q, salt, all), u);
  }

  /** The same after a registration, whether it logs in and whatever is granted. */
  lemma {:induction false} StageAfterRegister(sha: Sessions.Hash, s: Sessions.Store, name: string, q: string,
                                              salt: string, login: Option<Sessions.LoginArgs>,
                                              grants: Option<Privileges.Json>, serverName: string, auth: Auth,
                                              p: string)
    requires Sessions.Inv(s) && name !in s.users && q != "" && Presents(serverName, auth, name, p)
    requires login.Some? ==> Sessions.FreshLogin(s, login.value)
    ensures GoodPassword(sha, Sessions.Register(sha, s, name, q, salt, login, grants), serverName, auth)
       <==> sha(p + salt) == sha(q + salt)
  {
    SessionLaws.RegisteredAccount(sha, s, name, q, salt, login, grants);
  }

  lemma ChangeServed(sha: Sessions.Hash, w: World, serverName: string, token: string, password: string, salt: string,
                     all: bool, request: Request, newId: string)
    ensures var call := ChangePwd(Some(token), Some(password), salt, all);
      var (w', reply) := Serve(sha, w, serverName, call, request, newId);
      var passes := Passes(w.uia, Authenticating(sha, w, serverName, call, request, newId));
      && (reply.PasswordChanged? <==> passes && Sessions.Authenticate(w.store, token).Some?)
      && (passes ==> w'.store == Sessions.ChangePassword(sha, w.store, token, password, salt, all))
  {
  }

  /**
   * A call that names a session changes the password of the access token's account exactly when the session has
   * completed its password stage before, whatever the call presents, or has completed nothing and the call presents
   * good evidence, whichever account it is about. Then that account has the new password and keeps the token.
   */
  lemma {:induction false} PasswordChangedExactlyWhen(sha: Sessions.Hash, w: World, serverName: string, token: string,
                                                      password: string, salt: string, all: bool, auth: Auth, id: string,
                                                      newId: string)
    requires Sound(w) && Sessions.Authenticate(w.store, token).Some? && InSession(w, auth, id)
    ensures var call := ChangePwd(Some(token), Some(password), salt, all);
      var (w', reply) := Serve(sha, w, serverName, call, WithAuth(auth), newId);
      var who := Sessions.Authenticate(w.store, token).value;
      && (reply.PasswordChanged? <==> LetsThrough(sha, w, serverName, auth, id))
      && (reply.PasswordChanged? ==>
            && Sessions.Authenticate(w'.store, token) == Some(who)
            && (Sessions.LoginAllowed(sha, w'.store, who.user, password) <==> !w.store.users[who.user].deactivated))
  {
    var call := ChangePwd(Some(token), Some(password), salt, all);
    PasswordPasses(sha, w, serverName, call, auth, id, newId);
    ChangeServed(sha, w, serverName, token, password, salt, all, WithAuth(auth), newId);
    SessionTheorems.ChangePasswordEffect(sha, w.store, token, password, salt, all);
  }

  // What one would expect: if the password is changed, the password presented is that of the account changed.
  predicate OwnPasswordOnly(sha: Sessions.Hash, w: World, serverName: string, call: Call, auth: Auth, newId: string)
    requires call.ChangePwd? && call.token.Some? && Sessions.Authenticate(w.store, call.token.value).Some?
  {
    Serve(sha, w, serverName, call, WithAuth(auth), newId).1.PasswordChanged? ==>
      NamedUser(serverName, auth) == Some(Sessions.Authenticate(w.store, call.token.value).value.user)
  }

  /**
   * The expectation holds of a call that names a session if and only if its identifier names the caller, or the call is
   * not let through.
   */
  lemma {:induction false} OwnPasswordExactlyWhen(sha: Sessions.Hash, w: World, serverName: string, token: string,
                                                  password: string, salt: string, all: bool, auth: Auth, id: string,
                                                  newId: string)
    requires Sound(w) && Sessions.Authenticate(w.store, token).Some? && InSession(w, auth, id)
    ensures OwnPasswordOnly(sha, w, serverName, ChangePwd(Some(token), Some(password), salt, all), auth, newId)
       <==> NamedUser(serverName, auth) == Some(Sessions.Authenticate(w.store, token).value.user)
            || !LetsThrough(sha, w, serverName, auth, id)
  {
    PasswordChangedExactlyWhen(sha, w, serverName, token, password, salt, all, auth, id, newId);
  }

  /**
   * One password serves any number of changes: after an accepted change every later call naming the session changes the
   * password of whatever account its access token is of, with good evidence, bad evidence or none, as long as the
   * session is stored. Any steps may lie between.
   */
  lemma {:induction false} PasswordStageIsReused(sha: Sessions.Hash, serverName: string, steps: seq<Step>, call: Call,
                                                 request: Request, newId: string, w: World, more: seq<Step>,
                                                 token: string, password: string, salt: string, all: bool, auth: Auth,
                                                 id: string)
    requires Reached(sha, serverName, steps, call, w) && request.WithAuth? && request.auth.session == Some(id)
    requires var (w', reply) := Serve(sha, w, serverName, call, request, newId);
      && reply.PasswordChanged? && LegalRun(sha, w', serverName, more)
      && UiaTheorems.Lives(w'.uia, UiaRun(sha, w', serverName, more), id)
    requires auth.session == Some(id)
    ensures var w' := Serve(sha, w, serverName, call, request, newId).0;
      var later := Exec(sha, w', serverName, more);
      Sessions.Authenticate(later.store, token).Some? ==>
        Serve(sha, later, serverName, ChangePwd(Some(token), Some(password), salt, all), WithAuth(auth), "").1
          .PasswordChanged?
  {
    var w' := Serve(sha, w, serverName, call, request, newId).0;
    var later := Exec(sha, w', serverName, more);
    AfterCall(sha, serverName, steps, call, request, newId, w);
    ChangedIsComplete(sha, serverName, steps, call, request, newId, w, id);
    RunIsBothRuns(sha, w', serverName, more);
    StageStays(w'.uia, UiaRun(sha, w', serverName, more), id, Uia.PASSWORD);
    StaysSound(sha, w', serverName, more);
    if Sessions.Authenticate(later.store, token).Some? {
      PasswordChangedExactlyWhen(sha, later, serverName, token, password, salt, all, auth, id, "");
    }
  }

  lemma ChangedIsComplete(sha: Sessions.Hash, serverName: string, steps: seq<Step>, call: Call, request: Request,
                          newId: string, w: World, id: string)
    requires Reached(sha, serverName, steps, call, w) && request.WithAuth? && request.auth.session == Some(id)
    requires Serve(sha, w, serverName, call, request, newId).1.PasswordChanged?
    ensures var w' := Serve(sha, w, serverName, call, request, newId).0;
      id in w'.uia.sessions && w'.uia.sessions[id].completed == [Uia.PASSWORD]
  {
    ServedUia(sha, w, serverName, call, request, newId);
    PassedNames(w.uia, Authenticating(sha, w, serverName, call, request, newId));
    ActsExactlyWhenComplete(sha, serverName, steps, call, request, newId, w, id);
  }

  // A completed stage stays the only one, in any run of one-stage flows that does not purge the session.
  lemma {:induction false} StageStays(u: Uia.State, steps: seq<Uia.Step>, id: string, stage: string)
    requires UiaTheorems.Short(u) && OneStages(steps) && UiaTheorems.Lives(u, steps, id)
    requires u.sessions[id].completed == [stage]
    ensures id in Uia.Exec(u, steps).sessions && Uia.Exec(u, steps).sessions[id].completed == [stage]
    decreases |steps|
  {
    if steps != [] {
      UiaTheorems.StepKeepsShort(u, steps[0]);
      UiaTheorems.GrowthIsVerified(u, steps[0], id);
      assert UiaTheorems.AtMostOne(Uia.Next(u, steps[0]).sessions[id]);
      StageStays(Uia.Next(u, steps[0]), steps[1..], id, stage);
    }
  }

  // ---------- A run in which it fails ----------

  lemma SessionOpened(sha: Sessions.Hash, w: World, serverName: string, call: Call, newId: string)
    requires Refusal(w, serverName, call).None? && newId !in w.uia.sessions
    ensures Serve(sha, w, serverName, call, NoAuth, newId).0
         == w.(uia := w.uia.(sessions := w.uia.sessions[newId := Uia.Session([], w.uia.now, None, None)]))
  {
  }

  function Dummy(id: string): Request {
    WithAuth(Auth(Some(id), Some(Uia.DUMMY), None, None, None))
  }

  lemma DummyStage(u: Uia.State, id: string, auth: Uia.Auth)
    requires UiaTheorems.Short(u) && id in u.sessions
    requires u.sessions[id].completed == [] || u.sessions[id].completed == [Uia.DUMMY]
    requires auth.session == Some(id) && auth.stage == Some(Uia.DUMMY)
    ensures var (u', reply) := Uia.CompleteIn(Uia.FlowsOf(Uia.Register(true)), u, id, auth);
      && reply.Passed? && u'.sessions.Keys == u.sessions.Keys && u'.sessions[id].completed == [Uia.DUMMY]
  {
    var flows := Uia.FlowsOf(Uia.Register(true));
    UiaTheorems.DistinctStages();
    assert flows[1] == [Uia.DUMMY];
    if u.sessions[id].completed == [] {
      UiaTheorems.AcceptedExactly(flows, u, id, auth);
      assert [Uia.DUMMY] in flows && [Uia.DUMMY][0] == Uia.DUMMY;
      assert [] !in flows;
      assert [] + [Uia.DUMMY] == [Uia.DUMMY];
      var step := Uia.DoComplete(flows, Uia.WithAuth(auth), "");
      UiaTheorems.PassedExactlyWhenOffered(u, step, id);
    }
  }

  lemma RegisteredOpenly(sha: Sessions.Hash, w: World, serverName: string, form: Form, id: string)
    requires Registrable(w, serverName, form) && UiaTheorems.Short(w.uia) && id in w.uia.sessions
    requires w.uia.sessions[id].completed == [] || w.uia.sessions[id].completed == [Uia.DUMMY]
    ensures var w' := Serve(sha, w, serverName, Register(true, form), Dummy(id), "").0;
      && UiaTheorems.Short(w'.uia)
      && w'.uia.sessions.Keys == w.uia.sessions.Keys && w'.uia.sessions[id].completed == [Uia.DUMMY]
      && w'.store == Sessions.Register(sha, w.store, form.username.value, form.password.value, form.salt, form.login,
                                       GrantsOf(w'.uia, id))
  {
    var auth := Dummy(id).auth;
    var step := Authenticating(sha, w, serverName, Register(true, form), Dummy(id), "");
    UiaTheorems.EndpointsOfferOneStage(Uia.Register(true), step.request, "");
    UiaTheorems.StepKeepsShort(w.uia, step);
    DummyStage(w.uia, id,
               Uia.Auth(auth.session, auth.stage, PasswordOk(sha, w.store, serverName, auth), auth.token));
  }

  lemma FourSteps(sha: Sessions.Hash, w: World, serverName: string, s1: Step, s2: Step, s3: Step, s4: Step)
    ensures var w1 := Next(sha, w, serverName, s1);
      var w2 := Next(sha, w1, serverName, s2);
      var w3 := Next(sha, w2, serverName, s3);
      && Exec(sha, w, serverName, [s1, s2, s3, s4]) == Next(sha, w3, serverName, s4)
      && (LegalRun(sha, w, serverName, [s1, s2, s3, s4])
          <==> Legal(w, s1) && Legal(w1, s2) && Legal(w2, s3) && Legal(w3, s4))
  {
    var empty: seq<Step> := [];
    assert empty + [s1] == [s1] && [s1] + [s2] == [s1, s2] && [s1, s2] + [s3] == [s1, s2, s3];
    assert [s1, s2, s3] + [s4] == [s1, s2, s3, s4];
    ExecSnoc(sha, w, serverName, empty, s1);
    ExecSnoc(sha, w, serverName, [s1], s2);
    ExecSnoc(sha, w, serverName, [s1, s2], s3);
    ExecSnoc(sha, w, serverName, [s1, s2, s3], s4);
  }

  // Two accounts, the first with a working token; and after that a session in which nothing is completed.
  ghost predicate TwoAccounts(sha: Sessions.Hash, w: World, a: string, d: string, ta: string, b: string, pb: string) {
    && Sessions.Inv(w.store) && Sessions.Authenticate(w.store, ta) == Some(Sessions.Owner(a, d))
    && Sessions.LoginAllowed(sha, w.store, b, pb)
  }

  predicate FreshForm(w: World, form: Form, name: string, password: string, login: Option<Sessions.LoginArgs>) {
    form == Form(Some(name), "", false, Some(password), form.salt, login)
    && (login.Some? ==> Sessions.FreshLogin(w.store, login.value))
  }

  lemma FirstAccount(sha: Sessions.Hash, w: World, serverName: string, form: Form, a: string, pa: string, d: string,
                     ta: string)
    requires w.store == Sessions.EMPTY && UiaTheorems.Short(w.uia) && w.uia.sessions.Keys == {"r"}
    requires w.uia.sessions["r"].completed == [] && pa != "" && Identifiers.UserName(a, serverName)
    requires FreshForm(w, form, a, pa, Some(Sessions.LoginArgs(d, None, ta, None)))
    ensures var w' := Next(sha, w, serverName, Called(Register(true, form), Dummy("r"), ""));
      && Sessions.Inv(w'.store) && Sessions.Authenticate(w'.store, ta) == Some(Sessions.Owner(a, d))
      && w'.store.users.Keys == {a}
      && UiaTheorems.Short(w'.uia) && w'.uia.sessions.Keys == {"r"} && w'.uia.sessions["r"].completed == [Uia.DUMMY]
  {
    var w' := Serve(sha, w, serverName, Register(true, form), Dummy("r"), "").0;
    RegisteredOpenly(sha, w, serverName, form, "r");
    SessionInvariant.RegisterKeepsInv(sha, w.store, a, pa, form.salt, form.login, GrantsOf(w'.uia, "r"));
    SessionTheorems.RegisterEffect(sha, w.store, a, pa, form.salt, form.login, GrantsOf(w'.uia, "r"));
  }

  lemma SecondAccount(sha: Sessions.Hash, w: World, serverName: string, form: Form, a: string, d: string, ta: string,
                      b: string, pb: string)
    requires Sessions.Inv(w.store) && Sessions.Authenticate(w.store, ta) == Some(Sessions.Owner(a, d))
    requires w.store.users.Keys == {a} && a != b && pb != "" && Identifiers.UserName(b, serverName)
    requires UiaTheorems.Short(w.uia) && w.uia.sessions.Keys == {"r"}
    requires w.uia.sessions["r"].completed == [Uia.DUMMY] && FreshForm(w, form, b, pb, None)
    ensures var w' := Next(sha, w, serverName, Called(Register(true, form), Dummy("r"), ""));
      TwoAccounts(sha, w', a, d, ta, b, pb) && w'.uia.sessions.Keys == {"r"}
  {
    var w' := Serve(sha, w, serverName, Register(true, form), Dummy("r"), "").0;
    RegisteredOpenly(sha, w, serverName, form, "r");
    SessionInvariant.RegisterKeepsInv(sha, w.store, b, pb, form.salt, None, GrantsOf(w'.uia, "r"));
    SessionTheorems.RegisterEffect(sha, w.store, b, pb, form.salt, None, GrantsOf(w'.uia, "r"));
    SessionTheorems.RegisterLeavesOthers(sha, w.store, b, pb, form.salt, None, GrantsOf(w'.uia, "r"), ta);
  }

  lemma RegistrationOpened(sha: Sessions.Hash, serverName: string, form: Form)
    requires form.username.Some? && Identifiers.UserName(form.username.value, serverName)
    ensures var w := Next(sha, EMPTY, serverName, Called(Register(true, form), NoAuth, "r"));
      && w.store == Sessions.EMPTY && UiaTheorems.Short(w.uia) && w.uia.sessions.Keys == {"r"}
      && w.uia.sessions["r"].completed == []
  {
    SessionOpened(sha, EMPTY, serverName, Register(true, form), "r");
  }

  lemma ChangeOpened(sha: Sessions.Hash, w: World, serverName: string, change: Call, b: string, pb: string)
    requires change.ChangePwd? && change.token.Some? && w.uia.sessions.Keys == {"r"}
    ensures var w' := Next(sha, w, serverName, Called(change, NoAuth, "p"));
      w'.store == w.store && NewSessionFor(w', Foreign(b, pb), "p")
  {
    SessionOpened(sha, w, serverName, change, "p");
  }

  // Two registrations through one session, and a session for the password change.
  function ForeignRun(a: string, pa: string, d: string, ta: string, b: string, pb: string, change: Call): seq<Step> {
    var formA := Form(Some(a), "", false, Some(pa), "", Some(Sessions.LoginArgs(d, None, ta, None)));
    var formB := Form(Some(b), "", false, Some(pb), "", None);
    [Called(Register(true, formA), NoAuth, "r"), Called(Register(true, formA), Dummy("r"), ""),
     Called(Register(true, formB), Dummy("r"), ""), Called(change, NoAuth, "p")]
  }

  // The password of b, presented as such.
  function Foreign(b: string, pb: string): Auth {
    Auth(Some("p"), Some(Uia.PASSWORD), Some(pb), Some(Identifier(Some("m.id.user"), Some(b))), None)
  }

  // The session the call names has completed nothing.
  predicate NewSessionFor(w: World, auth: Auth, id: string) {
    InSession(w, auth, id) && w.uia.sessions[id].completed == []
  }

  lemma ForeignPasswordOk(sha: Sessions.Hash, w: World, part: Identifiers.ServerPart, b: string, pb: string)
    requires IdentifierTheorems.ValidLocal(b) && b[0] != '@' && IdentifierTheorems.ValidPart(part)
    requires !IdentifierTheorems.OpensWithQuad(part.hostname)
    requires |b| + 1 + |Identifiers.Recompose(part)| <= 255
    requires Sessions.LoginAllowed(sha, w.store, b, pb)
    ensures var serverName := Identifiers.Recompose(part);
      GoodPassword(sha, w.store, serverName, Foreign(b, pb)) && NamedUser(serverName, Foreign(b, pb)) == Some(b)
  {
    IdentifierTheorems.BareAgreesWithFull(b, part, "");
  }

  lemma ForeignRunReaches(sha: Sessions.Hash, serverName: string, a: string, pa: string, d: string, ta: string,
                          b: string, pb: string, change: Call)
    requires Identifiers.UserName(a, serverName) && Identifiers.UserName(b, serverName)
    requires a != b && pa != "" && pb != ""
    requires change.ChangePwd? && change.token.Some?
    ensures var steps := ForeignRun(a, pa, d, ta, b, pb, change);
      var w := Exec(sha, EMPTY, serverName, steps);
      && LegalRun(sha, EMPTY, serverName, steps)
      && TwoAccounts(sha, w, a, d, ta, b, pb) && NewSessionFor(w, Foreign(b, pb), "p")
  {
    var formA := Form(Some(a), "", false, Some(pa), "", Some(Sessions.LoginArgs(d, None, ta, None)));
    var formB := Form(Some(b), "", false, Some(pb), "", None);
    var s1, s2 := Called(Register(true, formA), NoAuth, "r"), Called(Register(true, formA), Dummy("r"), "");
    var s3, s4 := Called(Register(true, formB), Dummy("r"), ""), Called(change, NoAuth, "p");
    var w1 := Next(sha, EMPTY, serverName, s1);
    RegistrationOpened(sha, serverName, formA);
    FirstAccount(sha, w1, serverName, formA, a, pa, d, ta);
    AfterFirst(sha, w1, serverName, s2, s3, s4, formB, a, d, ta, b, pb, change);
    FourSteps(sha, EMPTY, serverName, s1, s2, s3, s4);
  }

  lemma AfterFirst(sha: Sessions.Hash, w1: World, serverName: string, s2: Step, s3: Step, s4: Step, formB: Form,
                   a: string, d: string, ta: string, b: string, pb: string, change: Call)
    requires Identifiers.UserName(b, serverName) && a != b && pb != "" && change.ChangePwd? && change.token.Some?
    requires formB == Form(Some(b), "", false, Some(pb), "", None)
    requires s3 == Called(Register(true, formB), Dummy("r"), "") && s4 == Called(change, NoAuth, "p")
    requires var w2 := Next(sha, w1, serverName, s2);
      && Sessions.Inv(w2.store) && Sessions.Authenticate(w2.store, ta) == Some(Sessions.Owner(a, d))
      && w2.store.users.Keys == {a} && UiaTheorems.Short(w2.uia) && w2.uia.sessions.Keys == {"r"}
      && w2.uia.sessions["r"].completed == [Uia.DUMMY]
    ensures var w2 := Next(sha, w1, serverName, s2);
      var w3 := Next(sha, w2, serverName, s3);
      var w4 := Next(sha, w3, serverName, s4);
      && Legal(w2, s3) && Legal(w3, s4)
      && TwoAccounts(sha, w4, a, d, ta, b, pb) && NewSessionFor(w4, Foreign(b, pb), "p")
  {
    var w2 := Next(sha, w1, serverName, s2);
    SecondAccount(sha, w2, serverName, formB, a, d, ta, b, pb);
    ChangeOpened(sha, Next(sha, w2, serverName, s3), serverName, change, b, pb);
  }

  /**
   * For any two accounts a run from the empty server after which the password of one changes the password of the other.
   */
  lemma {:induction false} ForeignPasswordAccepted(sha: Sessions.Hash, part: Identifiers.ServerPart, a: string,
                                                   pa: string, d: string, ta: string, b: string, pb: string,
                                                   password: string, salt: string)
    requires IdentifierTheorems.ValidPart(part) && !IdentifierTheorems.OpensWithQuad(part.hostname)
    requires var serverName := Identifiers.Recompose(part);
      && Identifiers.UserName(a, serverName) && Identifiers.UserName(b, serverName)
      && b != "" && |b| + 1 + |serverName| <= 255
    requires a != b && pa != "" && pb != ""
    ensures var serverName, call := Identifiers.Recompose(part), ChangePwd(Some(ta), Some(password), salt, false);
      var steps := ForeignRun(a, pa, d, ta, b, pb, call);
      var w := Exec(sha, EMPTY, serverName, steps);
      && LegalRun(sha, EMPTY, serverName, steps)
      && Sessions.Authenticate(w.store, ta) == Some(Sessions.Owner(a, d))
      && NamedUser(serverName, Foreign(b, pb)) == Some(b)
      && Serve(sha, w, serverName, call, WithAuth(Foreign(b, pb)), "").1.PasswordChanged?
  {
    var serverName, call := Identifiers.Recompose(part), ChangePwd(Some(ta), Some(password), salt, false);
    var w := Exec(sha, EMPTY, serverName, ForeignRun(a, pa, d, ta, b, pb, call));
    ForeignRunReaches(sha, serverName, a, pa, d, ta, b, pb, call);
    IdentifierTheorems.UserNameIsHistorical(b, serverName);
    assert b[0] in b;
    ForeignPasswordOk(sha, w, part, b, pb);
    ReachableSound(sha, serverName, ForeignRun(a, pa, d, ta, b, pb, call));
    PasswordChangedExactlyWhen(sha, w, serverName, ta, password, salt, false, Foreign(b, pb), "p", "");
  }
}
