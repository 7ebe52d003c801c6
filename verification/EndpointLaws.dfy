/**
 * Every answer of the endpoints that run UIA: which one is given, and when the session store changes.
 */
module EndpointLaws {
  import opened Options
  import opened EndpointModel
  import Identifiers
  import Sessions = SessionModel
  import Uia = UiaModel

  /** The flows each endpoint offers, by the names of their stages. */
  lemma EndpointFlows(call: Call)
    ensures Uia.FlowsOf(EndpointOf(call)) ==
      match call
      case Register(open, _) =>
        if open then [["m.login.registration_token"], ["m.login.dummy"]] else [["m.login.registration_token"]]
      case ChangePwd(_, _, _, _) => [["m.login.password"]]
      case Deactivate(access) => if access.Some? then [["m.login.dummy"]] else [["m.login.password"]]
      case Fallback(stage) => [[stage]]
  {
  }

  // UIA lets the call through.
  predicate LetThrough(sha: Sessions.Hash, w: World, serverName: string, call: Call, request: Request, newId: string) {
    Passes(w.uia, Authenticating(sha, w, serverName, call, request, newId))
  }

  // The name asked for may not be had.
  predicate Invalid(serverName: string, form: Form) {
    form.username.Some? && !Identifiers.UserName(form.username.value, serverName)
  }

  predicate Taken(w: World, form: Form) {
    form.username.Some? && form.username.value in w.store.users
  }

  predicate Refused(w: World, serverName: string, form: Form) {
    Invalid(serverName, form) || Taken(w, form)
  }

  // The name asked for, or else the one drawn, is free, and a password is set.
  predicate Complete(w: World, form: Form) {
    && form.password.Some? && form.password.value != ""
    && (form.username.None? ==> form.drawn !in w.store.users)
  }

  /**
   * The registration route: the name is checked before UIA, the kind of account and the password behind it; the store
   * changes exactly for an account that is made, and its name is the one asked for or else the one drawn.
   */
  lemma {:induction false} RegisterAnswers(sha: Sessions.Hash, w: World, serverName: string, open: bool, form: Form,
                                           request: Request, newId: string)
    ensures var (w', reply) := Serve(sha, w, serverName, Register(open, form), request, newId);
      var through := LetThrough(sha, w, serverName, Register(open, form), request, newId);
      var name := if form.username.Some? then form.username.value else form.drawn;
      if Invalid(serverName, form) then reply == InvalidUsername && w' == w
      else if Taken(w, form) then reply == UserInUse && w' == w
      else if !through then reply.Unauthenticated? && w'.store == w.store
      else if form.guest then reply == GuestsUnsupported && w'.store == w.store
      else if form.password.None? then reply == MissingPassword && w'.store == w.store
      else if Complete(w, form) then reply == Registered(name) && name !in w.store.users && name in w'.store.users
      else reply == Failed && w'.store == w.store
  {
  }

  /**
   * The password route: an access token is asked for before UIA, the new password and the token's account behind it;
   * the store changes only when the password does.
   */
  lemma {:induction false} ChangePwdAnswers(sha: Sessions.Hash, w: World, serverName: string, call: Call,
                                            request: Request, newId: string)
    requires call.ChangePwd?
    ensures var (w', reply) := Serve(sha, w, serverName, call, request, newId);
      if call.token.None? then reply == MissingToken && w' == w
      else if !LetThrough(sha, w, serverName, call, request, newId) then reply.Unauthenticated? && w'.store == w.store
      else if call.password.None? then reply == BadPassword && w'.store == w.store
      else if Sessions.Authenticate(w.store, call.token.value).None? then reply == UnknownToken && w'.store == w.store
      else reply == PasswordChanged
  {
  }
}
