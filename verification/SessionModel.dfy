/**
 * The session and token store of User.c and the routes that rewrite it, as values:
 * the state, each transition, and the cross-table invariant.
 *
 * Db is a map from keys to JSON objects and each route body is one atomic step.
 * Random strings are arguments. The history fields issued and issuedRefresh are not
 * stored by the server: they record every token ever drawn.
 */
module SessionModel {
  import opened Options
  import Privileges

  // The lifetime of an access token that comes with a refresh token.
  const WEEK_MS: nat := 604800000

  datatype Device = Device(accessToken: Option<string>, refreshToken: Option<string>, displayName: Option<string>)

  // devices is None while the user object has no "devices" key.
  datatype User = User(password: string, salt: string, deactivated: bool,
                       devices: Option<map<string, Device>>, privileges: Option<Privileges.Json>)

  // expires is 0 when the token object has no "expires" key.
  datatype Access = Access(user: string, device: string, expires: nat)

  datatype Issue = Issue(user: string, device: string, at: nat, expiring: bool)

  datatype Store = Store(users: map<string, User>, access: map<string, Access>, refresh: map<string, string>,
                         now: nat, issued: map<string, Issue>, issuedRefresh: set<string>)

  datatype Owner = Owner(user: string, device: string)

  // Sha256 followed by ShaToHex: some function on strings.
  type Hash = string -> string

  const EMPTY: Store := Store(map[], map[], map[], 0, map[], {})

  function ToSet<T(==)>(o: Option<T>): set<T> {
    if o.Some? then {o.value} else {}
  }

  function DevicesOf(u: User): map<string, Device> {
    if u.devices.Some? then u.devices.value else map[]
  }

  predicate HasDevice(s: Store, u: string, d: string) {
    u in s.users && d in DevicesOf(s.users[u])
  }

  function Dev(s: Store, u: string, d: string): Device
    requires HasDevice(s, u, d)
  {
    DevicesOf(s.users[u])[d]
  }

  predicate Granted(s: Store, u: string, x: Privileges.Privilege) {
    u in s.users && Privileges.Has(Privileges.Fetch(s.users[u].privileges), x)
  }

  // ---------- Reading ----------

  function Authenticate(s: Store, t: string): Option<Owner> {
    if t !in s.access then None
    else if s.access[t].user !in s.users then None
    else if s.access[t].expires != 0 && s.now >= s.access[t].expires then None
    else Some(Owner(s.access[t].user, s.access[t].device))
  }

  predicate CheckPassword(sha: Hash, u: User, password: string) {
    sha(password + u.salt) == u.password
  }

  // ---------- Issuing tokens ----------

  // UserAccessTokenGenerate and UserAccessTokenSave.
  function IssueAccess(s: Store, t: string, user: string, device: string, withRefresh: bool): Store {
    s.(access := s.access[t := Access(user, device, if withRefresh then s.now + WEEK_MS else 0)],
       issued := s.issued[t := Issue(user, device, s.now, withRefresh)])
  }

  // The device ID, display name and fresh tokens of one login; no refresh token when the client wants none.
  datatype LoginArgs = LoginArgs(device: string, displayName: Option<string>, access: string, refresh: Option<string>)

  // The device object a login leaves: fresh tokens, and the display name of a device that already existed.
  function LoggedIn(prior: Option<Device>, a: LoginArgs): Device {
    Device(Some(a.access), a.refresh, if prior.Some? then prior.value.displayName else a.displayName)
  }

  // UserLogin once the password is right and the user is active.
  function Login(s: Store, name: string, a: LoginArgs): Store
    requires name in s.users
  {
    var u := s.users[name];
    var devices := DevicesOf(u);
    var prior := if a.device in devices then Some(devices[a.device]) else None;
    var s1 := IssueAccess(s, a.access, name, a.device, a.refresh.Some?);
    var refresh1 := if a.refresh.Some? then s.refresh[a.refresh.value := a.access] else s.refresh;
    s1.(users := s.users[name := u.(devices := Some(devices[a.device := LoggedIn(prior, a)]))],
        access := s1.access - (if prior.Some? then ToSet(prior.value.accessToken) else {}),
        refresh := refresh1 - (if prior.Some? then ToSet(prior.value.refreshToken) else {}),
        issuedRefresh := s.issuedRefresh + ToSet(a.refresh))
  }

  predicate LoginAllowed(sha: Hash, s: Store, name: string, password: string) {
    name in s.users && CheckPassword(sha, s.users[name], password) && !s.users[name].deactivated
  }

  function TryLogin(sha: Hash, s: Store, name: string, password: string, a: LoginArgs): Store {
    if LoginAllowed(sha, s, name, password) then Login(s, name, a) else s
  }

  predicate Creatable(s: Store, name: string, password: string) {
    name !in s.users && password != ""
  }

  // UserCreate.
  function CreateUser(sha: Hash, s: Store, name: string, password: string, salt: string): Store {
    s.(users := s.users[name := User(sha(password + salt), salt, false, None, None)])
  }

  // RouteRegister after UIA has succeeded: create, log in unless inhibited, grant what the registration token grants.
  function Register(sha: Hash, s: Store, name: string, password: string, salt: string,
                    login: Option<LoginArgs>, grants: Option<Privileges.Json>): Store
  {
    if !Creatable(s, name, password) then s else
    var s1 := CreateUser(sha, s, name, password, salt);
    var s2 := if login.Some? then TryLogin(sha, s1, name, password, login.value) else s1;
    if grants.Some? then SetPrivileges(s2, name, Privileges.Stored(Privileges.Decode(grants.value))) else s2
  }

  function SetPrivileges(s: Store, name: string, json: Option<Privileges.Json>): Store {
    if name in s.users then s.(users := s.users[name := s.users[name].(privileges := json)]) else s
  }

  // ---------- Refreshing ----------

  datatype RefreshOutcome = UnknownToken | DanglingRefresh | OrphanAccess | Refreshed

  function RefreshResult(s: Store, rt: string): RefreshOutcome {
    if rt !in s.refresh then UnknownToken
    else if s.refresh[rt] !in s.access then DanglingRefresh
    else if s.access[s.refresh[rt]].user !in s.users then OrphanAccess
    else Refreshed
  }

  // JsonSet on the device map: nothing without a map, otherwise the device is made if it is missing.
  function SetDeviceToken(u: User, d: string, t: string): User {
    if u.devices.None? then u else
    var devices := u.devices.value;
    var device := if d in devices then devices[d] else Device(None, None, None);
    u.(devices := Some(devices[d := device.(accessToken := Some(t))]))
  }

  // RouteRefresh, repair branches included.
  function Refresh(s: Store, rt: string, t: string): Store {
    match RefreshResult(s, rt)
    case UnknownToken => s
    case DanglingRefresh => s.(refresh := s.refresh - {rt})
    case OrphanAccess => s.(refresh := s.refresh - {rt}, access := s.access - {s.refresh[rt]})
    case Refreshed =>
      var stale := s.refresh[rt];
      var a := s.access[stale];
      var s1 := IssueAccess(s, t, a.user, a.device, true);
      s1.(users := s.users[a.user := SetDeviceToken(s.users[a.user], a.device, t)],
          access := s1.access - {stale},
          refresh := s.refresh[rt := t])
  }

  // ---------- Deleting tokens ----------

  function AccessTokens(devices: map<string, Device>, ds: set<string>): set<string>
    requires ds <= devices.Keys
  {
    set d | d in ds && devices[d].accessToken.Some? :: devices[d].accessToken.value
  }

  function RefreshTokens(devices: map<string, Device>, ds: set<string>): set<string>
    requires ds <= devices.Keys
  {
    set d | d in ds && devices[d].refreshToken.Some? :: devices[d].refreshToken.value
  }

  // Remove the devices ds of a user together with both kinds of tokens.
  function Purge(s: Store, name: string, ds: set<string>): Store
    requires name in s.users && ds <= DevicesOf(s.users[name]).Keys
  {
    var u := s.users[name];
    if u.devices.None? then s else
    var devices := u.devices.value;
    s.(users := s.users[name := u.(devices := Some(devices - ds))],
       access := s.access - AccessTokens(devices, ds),
       refresh := s.refresh - RefreshTokens(devices, ds))
  }

  // The devices UserDeleteTokens does not skip.
  function Doomed(u: User, exempt: Option<string>): set<string> {
    set d | d in DevicesOf(u) && !(exempt.Some? && DevicesOf(u)[d].accessToken == exempt)
  }

  // UserDeleteTokens.
  function DeleteTokens(s: Store, name: string, exempt: Option<string>): Store
    requires name in s.users
  {
    Purge(s, name, Doomed(s.users[name], exempt))
  }

  // Whether UserDeleteToken reaches its end.
  predicate Deletable(s: Store, name: string, t: string) {
    t in s.access && s.access[t].user == name && HasDevice(s, name, s.access[t].device)
  }

  // UserDeleteToken: the token's device, the device's refresh token and the token itself.
  function DeleteToken(s: Store, name: string, t: string): Store {
    if !Deletable(s, name, t) then s else
    var d := s.access[t].device;
    s.(users := s.users[name := s.users[name].(devices := Some(DevicesOf(s.users[name]) - {d}))],
       access := s.access - {t},
       refresh := s.refresh - ToSet(Dev(s, name, d).refreshToken))
  }

  // ---------- Routes ----------

  function Logout(s: Store, t: string): Store {
    match Authenticate(s, t)
    case None => s
    case Some(who) => DeleteToken(s, who.user, t)
  }

  function LogoutAll(s: Store, t: string): Store {
    match Authenticate(s, t)
    case None => s
    case Some(who) => DeleteTokens(s, who.user, None)
  }

  datatype LogoutReply = LoggedOut | LogoutUnknownToken | LogoutNotFound

  // RouteLogout: path is what follows in the URL.
  function LogoutRoute(s: Store, t: string, path: seq<string>): (Store, LogoutReply) {
    if Authenticate(s, t).None? then (s, LogoutUnknownToken)
    else if |path| != 1 then (Logout(s, t), LoggedOut)
    else if path[0] != "all" then (s, LogoutNotFound)
    else (LogoutAll(s, t), LoggedOut)
  }

  function ChangePassword(sha: Hash, s: Store, t: string, password: string, salt: string, logoutDevices: bool): Store {
    match Authenticate(s, t)
    case None => s
    case Some(who) =>
      var s1 := SetPassword(sha, s, who.user, password, salt);
      if logoutDevices then DeleteTokens(s1, who.user, Some(t)) else s1
  }

  function SetPassword(sha: Hash, s: Store, name: string, password: string, salt: string): Store
    requires name in s.users
  {
    s.(users := s.users[name := s.users[name].(password := sha(password + salt), salt := salt)])
  }

  // Who RouteDeactivate acts for: the holder of an access token, or the "user" of the UIA session.
  datatype Actor = ByToken(token: string) | BySession(user: Option<string>)

  function Acting(s: Store, actor: Actor): Option<string> {
    match actor
    case ByToken(t) => (match Authenticate(s, t) case None => None case Some(who) => Some(who.user))
    case BySession(u) => if u.Some? && u.value in s.users then u else None
  }

  function SetDeactivated(s: Store, name: string, deactivated: bool): Store
    requires name in s.users
  {
    s.(users := s.users[name := s.users[name].(deactivated := deactivated)])
  }

  // RouteDeactivate answers with success: the user is known and has a device map.
  predicate DeactivateSucceeds(s: Store, actor: Actor) {
    Acting(s, actor).Some? && Acting(s, actor).value in s.users && s.users[Acting(s, actor).value].devices.Some?
  }

  function Deactivate(s: Store, actor: Actor): Store {
    if !DeactivateSucceeds(s, actor) then s else
    var name := Acting(s, actor).value;
    SetDeactivated(DeleteTokens(s, name, None), name, true)
  }

  predicate AdminAllowed(s: Store, t: string, x: Privileges.Privilege) {
    Authenticate(s, t).Some? && Granted(s, Authenticate(s, t).value.user, x)
  }

  // RouteAdminDeactivate: DELETE deactivates, PUT reactivates.
  function AdminSetDeactivated(s: Store, t: string, target: string, deactivated: bool): Store {
    if AdminAllowed(s, t, Privileges.Deactivate) && target in s.users
    then SetDeactivated(s, target, deactivated)
    else s
  }

  // RoutePrivileges with a body; without a path the caller is the target.
  function ChangePrivileges(s: Store, t: string, target: Option<string>, verb: Privileges.Verb,
                            request: Privileges.Json): Store
  {
    if !AdminAllowed(s, t, Privileges.GrantPrivileges) then s else
    var name := if target.Some? then target.value else Authenticate(s, t).value.user;
    if name !in s.users then s
    else SetPrivileges(s, name, Privileges.Updated(s.users[name].privileges, verb, request))
  }

  // A request to RoutePrivileges; the body of a change may not be JSON, or lack an array of privileges.
  datatype PrivilegesCall = Read | Change(verb: Privileges.Verb, body: PrivilegesBody)

  datatype PrivilegesBody = NotJson | BadJson | Body(privileges: Privileges.Json)

  datatype PrivilegesReply =
    | PrivilegesUnknownToken | Forbidden | UnknownUser | BodyNotJson | BodyBadJson
    | Listed(privileges: Privileges.Json)

  function PrivilegesRoute(s: Store, t: string, target: Option<string>, call: PrivilegesCall)
    : (Store, PrivilegesReply)
  {
    if Authenticate(s, t).None? then (s, PrivilegesUnknownToken)
    else if !AdminAllowed(s, t, Privileges.GrantPrivileges) then (s, Forbidden)
    else
      var name := if target.Some? then target.value else Authenticate(s, t).value.user;
      if name !in s.users then (s, UnknownUser)
      else
        match call
        case Read => (s, ListPrivileges(s, name))
        case Change(_, NotJson) => (s, BodyNotJson)
        case Change(_, BadJson) => (s, BodyBadJson)
        case Change(verb, Body(request)) =>
          var s' := ChangePrivileges(s, t, target, verb, request);
          (s', ListPrivileges(s', name))
  }

  function ListPrivileges(s: Store, name: string): PrivilegesReply
    requires name in s.users
  {
    Listed(Privileges.Encode(Privileges.Fetch(s.users[name].privileges)))
  }

  // ---------- Runs ----------

  datatype Step =
    | DoRegister(name: string, password: string, salt: string, login: Option<LoginArgs>,
                 grants: Option<Privileges.Json>)
    | DoLogin(name: string, password: string, args: LoginArgs)
    | DoRefresh(refreshToken: string, access: string)
    | DoLogout(token: string)
    | DoLogoutAll(token: string)
    | DoChangePassword(token: string, password: string, salt: string, logoutDevices: bool)
    | DoDeactivate(actor: Actor)
    | DoAdmin(token: string, target: string, deactivated: bool)
    | DoPrivileges(token: string, who: Option<string>, verb: Privileges.Verb, request: Privileges.Json)
    | DoTick(ms: nat)

  function Next(sha: Hash, s: Store, step: Step): Store {
    match step
    case DoRegister(name, password, salt, login, grants) => Register(sha, s, name, password, salt, login, grants)
    case DoLogin(name, password, args) => TryLogin(sha, s, name, password, args)
    case DoRefresh(rt, t) => Refresh(s, rt, t)
    case DoLogout(t) => Logout(s, t)
    case DoLogoutAll(t) => LogoutAll(s, t)
    case DoChangePassword(t, password, salt, all) => ChangePassword(sha, s, t, password, salt, all)
    case DoDeactivate(actor) => Deactivate(s, actor)
    case DoAdmin(t, target, deactivated) => AdminSetDeactivated(s, t, target, deactivated)
    case DoPrivileges(t, target, verb, request) => ChangePrivileges(s, t, target, verb, request)
    case DoTick(ms) => s.(now := s.now + ms)
  }

  predicate FreshLogin(s: Store, a: LoginArgs) {
    a.access !in s.issued && (a.refresh.Some? ==> a.refresh.value !in s.issuedRefresh)
  }

  // StrRandom draws strings never drawn before for the same kind of token.
  predicate Legal(s: Store, step: Step) {
    match step
    case DoRegister(_, _, _, login, _) => login.Some? ==> FreshLogin(s, login.value)
    case DoLogin(_, _, args) => FreshLogin(s, args)
    case DoRefresh(_, t) => t !in s.issued
    case _ => true
  }

  function Exec(sha: Hash, s: Store, steps: seq<Step>): Store
    decreases |steps|
  {
    if steps == [] then s else Exec(sha, Next(sha, s, steps[0]), steps[1..])
  }

  predicate LegalRun(sha: Hash, s: Store, steps: seq<Step>)
    decreases |steps|
  {
    steps == [] || (Legal(s, steps[0]) && LegalRun(sha, Next(sha, s, steps[0]), steps[1..]))
  }

  // ---------- The cross-table invariant ----------

  // An access token names a device exactly when that device holds it.
  ghost predicate AccessHeld(s: Store, t: string)
    requires t in s.access
  {
    var a := s.access[t];
    && HasDevice(s, a.user, a.device)
    && Dev(s, a.user, a.device).accessToken == Some(t)
    && t in s.issued
    && s.issued[t].user == a.user && s.issued[t].device == a.device
    && a.expires == if s.issued[t].expiring then s.issued[t].at + WEEK_MS else 0
  }

  // A device holds a live access token naming it; it has a refresh token exactly when that access token expires.
  ghost predicate DeviceOk(s: Store, u: string, d: string)
    requires HasDevice(s, u, d)
  {
    var device := Dev(s, u, d);
    && device.accessToken.Some?
    && device.accessToken.value in s.access
    && s.access[device.accessToken.value].user == u
    && s.access[device.accessToken.value].device == d
    && (device.refreshToken.Some? <==> s.access[device.accessToken.value].expires != 0)
    && (device.refreshToken.Some? ==>
          device.refreshToken.value in s.refresh && s.refresh[device.refreshToken.value] == device.accessToken.value)
  }

  // A stored refresh token is held by the device whose access token it refreshes.
  ghost predicate RefreshHeld(s: Store, r: string)
    requires r in s.refresh
  {
    && r in s.issuedRefresh
    && s.refresh[r] in s.access
    && var a := s.access[s.refresh[r]];
       HasDevice(s, a.user, a.device) && Dev(s, a.user, a.device).refreshToken == Some(r)
  }

  ghost predicate Inv(s: Store) {
    && (forall t :: t in s.access ==> AccessHeld(s, t))
    && (forall u, d :: HasDevice(s, u, d) ==> DeviceOk(s, u, d))
    && (forall r :: r in s.refresh ==> RefreshHeld(s, r))
  }
}
