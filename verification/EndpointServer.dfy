/**
 * The endpoints as the routes write them: UIA first, then the session store, both updated in place. Each method is
 * proved against the one transition Serve of EndpointModel.
 */
module EndpointServer {
  import opened Options
  import opened EndpointModel
  import IdentifierParser
  import Identifiers
  import Privileges
  import Sessions = SessionModel
  import SessionStore
  import Uia = UiaModel
  import UiaServer

  class Homeserver {
    const serverName: string
    const db: SessionStore.SessionDb
    const uia: UiaServer.UiaDb

    constructor (serverName: string, sha: Sessions.Hash)
      ensures this.serverName == serverName && db.sha == sha && fresh(db) && fresh(uia)
      ensures View() == EMPTY && Sessions.Inv(db.View())
    {
      this.serverName := serverName;
      db := new SessionStore.SessionDb(sha);
      uia := new UiaServer.UiaDb();
    }

    ghost function View(): World
      reads db, uia
    {
      World(db.View(), uia.View())
    }

    // The password branch of UiaComplete.
    method CheckPasswordStage(auth: Auth) returns (ok: bool)
      ensures ok <==> PasswordOk(db.sha, db.View(), serverName, auth)
    {
      if auth.password.None? || auth.identifier.None? {
        return false;
      }
      var identifier := auth.identifier.value;
      if identifier.user.None? {
        return false;
      }
      var userId := IdentifierParser.UserIdParse(identifier.user.value, serverName);
      if identifier.kind != Some("m.id.user") || userId.None? || userId.value.server.None? {
        return false;
      }
      if !Identifiers.ServerNameEquals(userId.value.server.value, serverName) || userId.value.local.None? {
        return false;
      }
      var name := userId.value.local.value;
      if name !in db.users {
        return false;
      }
      return db.sha(auth.password.value + db.users[name].salt) == db.users[name].password;
    }

    // UiaComplete with the flows of a call's endpoint.
    method Authenticate(call: Call, request: Request, newId: string) returns (reply: Uia.Reply)
      modifies uia
      ensures var step := Authenticating(db.sha, old(View()), serverName, call, request, newId);
        uia.View() == Uia.Next(old(uia.View()), step) && reply == UiaReply(old(uia.View()), step)
    {
      var resolved;
      match request {
        case NoAuth =>
          resolved := Uia.NoAuth;
        case AuthNotObject =>
          resolved := Uia.AuthNotObject;
        case WithAuth(auth) =>
          var passwordOk := CheckPasswordStage(auth);
          resolved := Uia.WithAuth(Uia.Auth(auth.session, auth.stage, passwordOk, auth.token));
      }
      reply := uia.UiaComplete(Uia.FlowsOf(EndpointOf(call)), resolved, newId);
    }

    // What RouteRegister reads from the session after the account is made.
    method SessionGrants(id: string) returns (grants: Option<Privileges.Json>)
      ensures grants == GrantsOf(uia.View(), id)
    {
      if id !in uia.sessions || uia.sessions[id].registrationToken.None? {
        return None;
      }
      var info := uia.RegTokenGetInfo(uia.sessions[id].registrationToken.value);
      if info == null {
        return None;
      }
      return Some(info.grants);
    }

    // The branches of RouteRegister behind UIA.
    method FinishRegister(form: Form, id: string) returns (reply: Reply)
      requires Sessions.Inv(db.View())
      requires form.login.Some? ==> Sessions.FreshLogin(db.View(), form.login.value)
      modifies db
      ensures (View(), reply) == Apply(db.sha, old(View()), RegisterAction(old(View()), form, id))
      ensures Sessions.Inv(db.View())
    {
      if form.guest {
        return GuestsUnsupported;
      }
      if form.password.None? {
        return MissingPassword;
      }
      var name := if form.username.Some? then form.username.value else form.drawn;
      var grants := SessionGrants(id);
      var created, _ := db.RegisterUser(name, form.password.value, form.salt, form.login, grants);
      return if created then Registered(name) else Failed;
    }

    method RouteRegister(open: bool, form: Form, request: Request, newId: string) returns (reply: Reply)
      requires Sessions.Inv(db.View())
      requires form.login.Some? ==> Sessions.FreshLogin(db.View(), form.login.value)
      modifies db, uia
      ensures (View(), reply) == Serve(db.sha, old(View()), serverName, Register(open, form), request, newId)
      ensures Sessions.Inv(db.View())
    {
      ghost var w := View();
      if form.username.Some? {
        var valid := IdentifierParser.UserValidate(form.username.value, serverName);
        if !valid {
          return InvalidUsername;
        }
        if form.username.value in db.users {
          return UserInUse;
        }
      }
      var uiaReply := Authenticate(Register(open, form), request, newId);
      Served(db.sha, w, serverName, Register(open, form), request, newId, View(), uiaReply);
      if !uiaReply.Passed? {
        return Unauthenticated(uiaReply);
      }
      reply := FinishRegister(form, SessionOf(request));
    }

    // The branches of RouteChangePwd behind UIA.
    method FinishChangePwd(token: string, password: Option<string>, salt: string, logoutDevices: bool)
      returns (reply: Reply)
      requires Sessions.Inv(db.View())
      modifies db
      ensures (View(), reply)
           == Apply(db.sha, old(View()), PasswordAction(old(View()), Some(token), password, salt, logoutDevices))
      ensures Sessions.Inv(db.View())
    {
      if password.None? {
        return BadPassword;
      }
      var ok := db.ChangeUserPassword(token, password.value, salt, logoutDevices);
      return if ok then PasswordChanged else UnknownToken;
    }

    method RouteChangePwd(token: Option<string>, password: Option<string>, salt: string, logoutDevices: bool,
                          request: Request, newId: string)
      returns (reply: Reply)
      requires Sessions.Inv(db.View())
      modifies db, uia
      ensures (View(), reply)
           == Serve(db.sha, old(View()), serverName, ChangePwd(token, password, salt, logoutDevices), request, newId)
      ensures Sessions.Inv(db.View())
    {
      ghost var w := View();
      if token.None? {
        return MissingToken;
      }
      ghost var call := ChangePwd(token, password, salt, logoutDevices);
      var uiaReply := Authenticate(ChangePwd(token, password, salt, logoutDevices), request, newId);
      Served(db.sha, w, serverName, call, request, newId, View(), uiaReply);
      if !uiaReply.Passed? {
        return Unauthenticated(uiaReply);
      }
      reply := FinishChangePwd(token.value, password, salt, logoutDevices);
    }

    // The branches of RouteDeactivate behind UIA.
    method FinishDeactivate(actor: Sessions.Actor) returns (reply: Reply)
      requires Sessions.Inv(db.View())
      modifies db
      ensures (View(), reply) == Apply(db.sha, old(View()), DeactivateAction(old(View()), actor))
      ensures Sessions.Inv(db.View())
    {
      var known, ok := db.DeactivateUser(actor);
      return if !known then UnknownToken else if ok then Deactivated else Failed;
    }

    method RouteDeactivate(access: Option<string>, request: Request, newId: string) returns (reply: Reply)
      requires Sessions.Inv(db.View())
      modifies db, uia
      ensures (View(), reply) == Serve(db.sha, old(View()), serverName, Deactivate(access), request, newId)
      ensures Sessions.Inv(db.View())
    {
      ghost var w := View();
      var uiaReply := Authenticate(Deactivate(access), request, newId);
      Served(db.sha, w, serverName, Deactivate(access), request, newId, View(), uiaReply);
      if !uiaReply.Passed? {
        return Unauthenticated(uiaReply);
      }
      var user := None;
      var id := SessionOf(request);
      if id in uia.sessions {
        user := uia.sessions[id].user;
      }
      var actor := if access.Some? then Sessions.ByToken(access.value) else Sessions.BySession(user);
      assert actor == ActorOf(View(), access, id);
      reply := FinishDeactivate(actor);
    }

    method RouteUiaFallback(stage: string, request: Request, newId: string) returns (reply: Reply)
      modifies uia
      ensures (View(), reply) == Serve(db.sha, old(View()), serverName, Fallback(stage), request, newId)
    {
      ghost var w := View();
      var uiaReply := Authenticate(Fallback(stage), request, newId);
      Served(db.sha, w, serverName, Fallback(stage), request, newId, View(), uiaReply);
      return if uiaReply.Passed? then StagePassed else Unauthenticated(uiaReply);
    }
  }

  // A call that is not refused, from the state and answer UIA leaves.
  lemma Served(sha: Sessions.Hash, w: World, serverName: string, call: Call, request: Request, newId: string,
               w1: World, uiaReply: Uia.Reply)
    requires Refusal(w, serverName, call).None?
    requires var step := Authenticating(sha, w, serverName, call, request, newId);
      w1 == w.(uia := Uia.Next(w.uia, step)) && uiaReply == UiaReply(w.uia, step)
    ensures Serve(sha, w, serverName, call, request, newId)
         == if !uiaReply.Passed? then (w1, Unauthenticated(uiaReply))
            else Apply(sha, w1, ActionOf(w1, call, SessionOf(request)))
  {
  }
}
