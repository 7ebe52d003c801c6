/**
 * User-interactive authentication (Uia.c) and registration tokens (RegToken.c) as values:
 * the stored sessions and tokens, and each transition. It implements "User-Interactive
 * Authentication API" and "Token-authenticated registration" of the Client-Server API in
 * the Matrix Specification v1.7.
 *
 * Whether a password stage's evidence is good is part of the request: the check itself
 * reads the user table and the server name.
 */
module UiaModel {
  import opened Characters
  import opened Options
  import Privileges

  const DUMMY := "m.login.dummy"
  const PASSWORD := "m.login.password"
  const REGISTRATION := "m.login.registration_token"

  // A session is purged this long after its last access.
  const IDLE_MS: nat := 900000

  // The stored JSON of a registration token; expiresOn is 0 for a token that does not expire.
  datatype RegToken = RegToken(createdBy: string, createdOn: nat, expiresOn: nat, used: int, uses: int,
                               grants: Privileges.Json)

  // What an object without any members reads as.
  const BLANK := RegToken("", 0, 0, 0, 0, [])

  // user is the member that deactivation without an access token reads.
  datatype Session = Session(completed: seq<string>, lastAccess: nat, registrationToken: Option<string>,
                             user: Option<string>)

  datatype State = State(sessions: map<string, Session>, tokens: map<string, RegToken>, now: nat)

  const EMPTY := State(map[], map[], 0)

  // The stage types of a flow, in order.
  type Flow = seq<string>

  // The "auth" object of a request; fields that are missing or not strings are None.
  datatype Auth = Auth(session: Option<string>, stage: Option<string>, passwordOk: bool, token: Option<string>)

  datatype Request = NoAuth | AuthNotObject | WithAuth(auth: Auth)

  // UiaComplete returns 1, 0, 0 and -1 respectively.
  datatype Reply = Passed | Challenge(session: string, completed: seq<string>, flows: seq<Flow>) | BadJson | Internal

  // ---------- Registration tokens ----------

  predicate TokenValid(s: State, name: string) {
    && name in s.tokens
    && (s.tokens[name].expiresOn == 0 || s.now < s.tokens[name].expiresOn)
    && (s.tokens[name].uses == -1 || s.tokens[name].used < s.tokens[name].uses)
  }

  predicate TokenChar(c: char) {
    IsAlnum(c) || c == '_' || c == '~' || c == '-'
  }

  predicate TokenName(name: string) {
    |name| <= 64 && forall c :: c in name ==> TokenChar(c)
  }

  predicate TokenCreatable(s: State, name: string, expires: nat, uses: int) {
    && uses >= -1
    && TokenName(name)
    && !(expires > 0 && expires < s.now)
    && name !in s.tokens
  }

  function NewToken(s: State, owner: string, expires: nat, uses: int, privileges: Privileges.Bits): RegToken {
    RegToken(owner, s.now, expires, 0, uses, Privileges.Encode(privileges))
  }

  // RegTokenCreate and then RegTokenClose.
  function CreateToken(s: State, name: string, owner: string, expires: nat, uses: int,
                       privileges: Privileges.Bits): State
  {
    if !TokenCreatable(s, name, expires, uses) then s
    else s.(tokens := s.tokens[name := NewToken(s, owner, expires, uses, privileges)])
  }

  // ---------- One call of UiaComplete ----------

  datatype Candidate = Candidate(stage: string, remaining: nat)

  // possibleNext and remaining: the next stage of every flow longer than what is completed, in flow order.
  function Candidates(flows: seq<Flow>, done: nat): seq<Candidate> {
    if flows == [] then []
    else
      var flow := flows[|flows| - 1];
      Candidates(flows[..|flows| - 1], done)
      + (if |flow| > done then [Candidate(flow[done], |flow| - done)] else [])
  }

  // The stages left, this one included, of the first flow that has the given stage next.
  function Remaining(cs: seq<Candidate>, stage: string): Option<nat> {
    if cs == [] then None
    else if cs[0].stage == stage then Some(cs[0].remaining)
    else Remaining(cs[1..], stage)
  }

  predicate Verified(s: State, stage: string, auth: Auth) {
    if stage == DUMMY then true
    else if stage == PASSWORD then auth.passwordOk
    else if stage == REGISTRATION then auth.token.Some? && TokenValid(s, auth.token.value)
    else false
  }

  function Touch(s: State, id: string): State
    requires id in s.sessions
  {
    s.(sessions := s.sessions[id := s.sessions[id].(lastAccess := s.now)])
  }

  function NewSession(flows: seq<Flow>, s: State, newId: string): (State, Reply) {
    if newId in s.sessions then (s, Internal)
    else (s.(sessions := s.sessions[newId := Session([], s.now, None, None)]), Challenge(newId, [], flows))
  }

  // The effect of an accepted stage, before the session is touched.
  function Accept(s: State, id: string, stage: string, auth: Auth): State
    requires id in s.sessions && Verified(s, stage, auth)
  {
    var session := s.sessions[id];
    if stage == REGISTRATION then
      var t := auth.token.value;
      s.(tokens := s.tokens[t := s.tokens[t].(used := s.tokens[t].used + 1)],
         sessions := s.sessions[id := session.(completed := session.completed + [stage],
                                               registrationToken := Some(t))])
    else
      s.(sessions := s.sessions[id := session.(completed := session.completed + [stage])])
  }

  // Whether a call that names an existing session has its stage accepted.
  predicate Accepted(flows: seq<Flow>, s: State, id: string, auth: Auth)
    requires id in s.sessions
  {
    var c := s.sessions[id].completed;
    && c !in flows
    && auth.stage.Some?
    && Remaining(Candidates(flows, |c|), auth.stage.value).Some?
    && Verified(s, auth.stage.value, auth)
  }

  function Complete(flows: seq<Flow>, s: State, request: Request, newId: string): (State, Reply) {
    match request
    case NoAuth => NewSession(flows, s, newId)
    case AuthNotObject => (s, BadJson)
    case WithAuth(auth) =>
      if auth.session.None? then (s, BadJson)
      else if auth.session.value !in s.sessions then NewSession(flows, s, newId)
      else CompleteIn(flows, s, auth.session.value, auth)
  }

  function CompleteIn(flows: seq<Flow>, s: State, id: string, auth: Auth): (State, Reply)
    requires id in s.sessions
  {
    var c := s.sessions[id].completed;
    if c in flows then (Touch(s, id), Passed)
    else if auth.stage.None? then (Touch(s, id), BadJson)
    else if !Accepted(flows, s, id, auth) then (Touch(s, id), Challenge(id, c, flows))
    else
      var stage := auth.stage.value;
      var left := Remaining(Candidates(flows, |c|), stage).value;
      (Touch(Accept(s, id, stage, auth), id), if left - 1 > 0 then Challenge(id, c + [stage], flows) else Passed)
  }

  // UiaCleanup.
  function Cleanup(s: State): State {
    s.(sessions := map id | id in s.sessions && s.now - s.sessions[id].lastAccess <= IDLE_MS :: s.sessions[id])
  }

  // ---------- Runs ----------

  datatype Step =
    | DoComplete(flows: seq<Flow>, request: Request, newId: string)
    | DoCleanup
    | DoCreate(name: string, owner: string, expires: nat, uses: int, privileges: Privileges.Bits)
    | DoDelete(name: string)
    | DoTick(ms: nat)

  function Next(s: State, step: Step): State {
    match step
    case DoComplete(flows, request, newId) => Complete(flows, s, request, newId).0
    case DoCleanup => Cleanup(s)
    case DoCreate(name, owner, expires, uses, privileges) => CreateToken(s, name, owner, expires, uses, privileges)
    case DoDelete(name) => s.(tokens := s.tokens - {name})
    case DoTick(ms) => s.(now := s.now + ms)
  }

  function Exec(s: State, steps: seq<Step>): State
    decreases |steps|
  {
    if steps == [] then s else Exec(Next(s, steps[0]), steps[1..])
  }

  // ---------- The server's own endpoints ----------

  // The flows each route builds.
  datatype Endpoint = Register(open: bool) | ChangePwd | Deactivate(hasToken: bool) | Fallback(stage: string)

  function FlowsOf(endpoint: Endpoint): seq<Flow> {
    match endpoint
    case Register(open) => if open then [[REGISTRATION], [DUMMY]] else [[REGISTRATION]]
    case ChangePwd => [[PASSWORD]]
    case Deactivate(hasToken) => if hasToken then [[DUMMY]] else [[PASSWORD]]
    case Fallback(stage) => [[stage]]
  }
}
