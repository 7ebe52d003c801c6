/**
 * The endpoints that authenticate a client interactively before they act: registration, password change, deactivation
 * and the fallback page. One call moves a UIA session and, if that passes, the session store.
 *
 * World is both databases together; their clocks tick together.
 */
module EndpointModel {
  import opened Options
  import Identifiers
  import Privileges
  import Sessions = SessionModel
  import Uia = UiaModel

  datatype World = World(store: Sessions.Store, uia: Uia.State)

  const EMPTY := World(Sessions.EMPTY, Uia.EMPTY)

  // ---------- Evidence ----------

  // The "identifier" object of a password stage; fields that are missing or not strings are None.
  datatype Identifier = Identifier(kind: Option<string>, user: Option<string>)

  // The "auth" object of a request as it arrives.
  datatype Auth = Auth(session: Option<string>, stage: Option<string>, password: Option<string>,
                       identifier: Option<Identifier>, token: Option<string>)

  datatype Request = NoAuth | AuthNotObject | WithAuth(auth: Auth)

  // The password stage: the identifier names a user of this server, and the password is theirs.
  predicate PasswordOk(sha: Sessions.Hash, s: Sessions.Store, serverName: string, auth: Auth) {
    && auth.password.Some? && auth.identifier.Some?
    && auth.identifier.value.kind == Some("m.id.user") && auth.identifier.value.user.Some?
    && var id := Identifiers.ParseUserId(auth.identifier.value.user.value, serverName);
       && id.Some? && id.value.server.Some? && Identifiers.ServerNameEquals(id.value.server.value, serverName)
       && id.value.local.Some? && id.value.local.value in s.users
       && Sessions.CheckPassword(sha, s.users[id.value.local.value], auth.password.value)
  }

  // The request as UIA sees it, with the evidence for a password stage checked.
  function Resolve(sha: Sessions.Hash, s: Sessions.Store, serverName: string, request: Request): Uia.Request {
    match request
    case NoAuth => Uia.NoAuth
    case AuthNotObject => Uia.AuthNotObject
    case WithAuth(auth) =>
      Uia.WithAuth(Uia.Auth(auth.session, auth.stage, PasswordOk(sha, s, serverName, auth), auth.token))
  }

  // ---------- Calls ----------

  // The fields of a registration; drawn is the random name for a user who asks for none, and guest says that the kind
  // is not "user".
  datatype Form = Form(username: Option<string>, drawn: string, guest: bool, password: Option<string>, salt: string,
                       login: Option<Sessions.LoginArgs>)

  datatype Call =
    | Register(open: bool, form: Form)
    | ChangePwd(token: Option<string>, password: Option<string>, salt: string, logoutDevices: bool)
    | Deactivate(access: Option<string>)
    | Fallback(stage: string)

  datatype Reply =
    | InvalidUsername | UserInUse | MissingToken
    | Unauthenticated(uia: Uia.Reply)
    | GuestsUnsupported | MissingPassword | BadPassword | UnknownToken | Failed
    | Registered(name: string) | PasswordChanged | Deactivated | StagePassed

  // The answer of a call that ends before UIA.
  function Refusal(w: World, serverName: string, call: Call): Option<Reply> {
    match call
    case Register(_, form) =>
      if form.username.None? then None
      else if !Identifiers.UserName(form.username.value, serverName) then Some(InvalidUsername)
      else if form.username.value in w.store.users then Some(UserInUse)
      else None
    case ChangePwd(token, _, _, _) => if token.None? then Some(MissingToken) else None
    case _ => None
  }

  function EndpointOf(call: Call): Uia.Endpoint {
    match call
    case Register(open, _) => Uia.Register(open)
    case ChangePwd(_, _, _, _) => Uia.ChangePwd
    case Deactivate(access) => Uia.Deactivate(access.Some?)
    case Fallback(stage) => Uia.Fallback(stage)
  }

  // The grants of the registration token that a session remembers, if the token still exists.
  function GrantsOf(u: Uia.State, id: string): Option<Privileges.Json> {
    if id !in u.sessions || u.sessions[id].registrationToken.None? then None
    else if u.sessions[id].registrationToken.value !in u.tokens then None
    else Some(u.tokens[u.sessions[id].registrationToken.value].grants)
  }

  function UserOf(u: Uia.State, id: string): Option<string> {
    if id in u.sessions then u.sessions[id].user else None
  }

  function NameOf(form: Form): string {
    if form.username.Some? then form.username.value else form.drawn
  }

  // What a call asks of the session store once UIA has passed in session id, and its answer; or its answer alone.
  datatype Action = Answer(reply: Reply) | Act(step: Sessions.Step, reply: Reply)

  function ActionOf(w: World, call: Call, id: string): Action {
    match call
    case Register(_, form) => RegisterAction(w, form, id)
    case ChangePwd(token, password, salt, logoutDevices) => PasswordAction(w, token, password, salt, logoutDevices)
    case Deactivate(access) => DeactivateAction(w, ActorOf(w, access, id))
    case Fallback(_) => Answer(StagePassed)
  }

  function RegisterAction(w: World, form: Form, id: string): Action {
    if form.guest then Answer(GuestsUnsupported)
    else if form.password.None? then Answer(MissingPassword)
    else
      var name, password := NameOf(form), form.password.value;
      Act(Sessions.DoRegister(name, password, form.salt, form.login, GrantsOf(w.uia, id)),
          if Sessions.Creatable(w.store, name, password) then Registered(name) else Failed)
  }

  function PasswordAction(w: World, token: Option<string>, password: Option<string>, salt: string,
                          logoutDevices: bool): Action
  {
    if token.None? then Answer(MissingToken)
    else if password.None? then Answer(BadPassword)
    else
      Act(Sessions.DoChangePassword(token.value, password.value, salt, logoutDevices),
          if Sessions.Authenticate(w.store, token.value).Some? then PasswordChanged else UnknownToken)
  }

  // The holder of the access token, or else the user of the session.
  function ActorOf(w: World, access: Option<string>, id: string): Sessions.Actor {
    if access.Some? then Sessions.ByToken(access.value) else Sessions.BySession(UserOf(w.uia, id))
  }

  function DeactivateAction(w: World, actor: Sessions.Actor): Action {
    Act(Sessions.DoDeactivate(actor),
        if Sessions.Acting(w.store, actor).None? then UnknownToken
        else if Sessions.DeactivateSucceeds(w.store, actor) then Deactivated
        else Failed)
  }

  // UiaComplete with the flows of the endpoint.
  function Authenticating(sha: Sessions.Hash, w: World, serverName: string, call: Call, request: Request,
                          newId: string): Uia.Step
  {
    Uia.DoComplete(Uia.FlowsOf(EndpointOf(call)), Resolve(sha, w.store, serverName, request), newId)
  }

  function UiaReply(u: Uia.State, step: Uia.Step): Uia.Reply
    requires step.DoComplete?
  {
    Uia.Complete(step.flows, u, step.request, step.newId).1
  }

  predicate Passes(u: Uia.State, step: Uia.Step) {
    step.DoComplete? && UiaReply(u, step).Passed?
  }

  // Only a call that names a session passes.
  function SessionOf(request: Request): string {
    if request.WithAuth? && request.auth.session.Some? then request.auth.session.value else ""
  }

  function Apply(sha: Sessions.Hash, w: World, action: Action): (World, Reply) {
    match action
    case Answer(reply) => (w, reply)
    case Act(step, reply) => (w.(store := Sessions.Next(sha, w.store, step)), reply)
  }

  /** One call of an endpoint. */
  function Serve(sha: Sessions.Hash, w: World, serverName: string, call: Call, request: Request, newId: string)
    : (World, Reply)
  {
    if Refusal(w, serverName, call).Some? then (w, Refusal(w, serverName, call).value)
    else
      var step := Authenticating(sha, w, serverName, call, request, newId);
      var w1 := w.(uia := Uia.Next(w.uia, step));
      if !Passes(w.uia, step) then (w1, Unauthenticated(UiaReply(w.uia, step)))
      else Apply(sha, w1, ActionOf(w1, call, SessionOf(request)))
  }

  // ---------- Runs ----------

  // Calls of these endpoints, of the other routes, and the passing of time.
  datatype Step =
    | Called(call: Call, request: Request, newId: string)
    | OnStore(route: Sessions.Step)
    | OnUia(upkeep: Uia.Step)
    | Tick(ms: nat)

  predicate OtherRoute(step: Sessions.Step) {
    step.DoLogin? || step.DoRefresh? || step.DoLogout? || step.DoLogoutAll? || step.DoAdmin? || step.DoPrivileges?
  }

  predicate Upkeep(step: Uia.Step) {
    step.DoCleanup? || step.DoCreate? || step.DoDelete?
  }

  function Next(sha: Sessions.Hash, w: World, serverName: string, step: Step): World {
    match step
    case Called(call, request, newId) => Serve(sha, w, serverName, call, request, newId).0
    case OnStore(route) => w.(store := Sessions.Next(sha, w.store, route))
    case OnUia(upkeep) => w.(uia := Uia.Next(w.uia, upkeep))
    case Tick(ms) =>
      World(Sessions.Next(sha, w.store, Sessions.DoTick(ms)), Uia.Next(w.uia, Uia.DoTick(ms)))
  }

  predicate Legal(w: World, step: Step) {
    match step
    case Called(call, _, _) =>
      call.Register? && call.form.login.Some? ==> Sessions.FreshLogin(w.store, call.form.login.value)
    case OnStore(route) => OtherRoute(route) && Sessions.Legal(w.store, route)
    case OnUia(upkeep) => Upkeep(upkeep)
    case Tick(_) => true
  }

  function Exec(sha: Sessions.Hash, w: World, serverName: string, steps: seq<Step>): World
    decreases |steps|
  {
    if steps == [] then w else Exec(sha, Next(sha, w, serverName, steps[0]), serverName, steps[1..])
  }

  predicate LegalRun(sha: Sessions.Hash, w: World, serverName: string, steps: seq<Step>)
    decreases |steps|
  {
    steps == []
    || (Legal(w, steps[0]) && LegalRun(sha, Next(sha, w, serverName, steps[0]), serverName, steps[1..]))
  }
}
