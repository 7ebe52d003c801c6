/**
 * The session and token store updated in place, step by step as User.c and its routes do,
 * each method proved against its transition in SessionModel.
 */
module SessionStore {
  import opened Options
  import opened SessionModel
  import opened SessionInvariant
  import Privileges

  class SessionDb {
    const sha: Hash
    var users: map<string, User>
    var access: map<string, Access>
    var refresh: map<string, string>
    var now: nat
    ghost var issued: map<string, Issue>
    ghost var issuedRefresh: set<string>

    ghost function View(): Store
      reads this
    {
      Store(users, access, refresh, now, issued, issuedRefresh)
    }

    constructor (sha: Hash)
      ensures this.sha == sha && View() == EMPTY && Inv(View())
    {
      this.sha := sha;
      users, access, refresh, now := map[], map[], map[], 0;
      issued, issuedRefresh := map[], {};
    }

    method UserAuthenticate(accessToken: string) returns (who: Option<Owner>)
      ensures who == Authenticate(View(), accessToken)
    {
      if accessToken !in access {
        return None;
      }
      var at := access[accessToken];
      if at.user !in users {
        return None;
      }
      if at.expires != 0 && now >= at.expires {
        return None;
      }
      return Some(Owner(at.user, at.device));
    }

    // UserAccessTokenSave of a freshly generated token.
    method UserAccessTokenSave(token: string, user: string, device: string, withRefresh: bool)
      requires token !in access
      modifies this`access, this`issued
      ensures View() == IssueAccess(old(View()), token, user, device, withRefresh)
    {
      var lifetime := if withRefresh then 1000 * 60 * 60 * 24 * 7 else 0;
      var at := Access(user, device, 0);
      if lifetime != 0 {
        at := at.(expires := now + lifetime);
      }
      access := access[token := at];
      issued := issued[token := Issue(user, device, now, withRefresh)];
    }

    // Delete the tokens of a device that logs in again, or make the object of a new one.
    method StripDevice(devices: map<string, Device>, d: string, displayName: Option<string>) returns (device: Device)
      modifies this`access, this`refresh
      ensures device == Device(None, None, if d in devices then devices[d].displayName else displayName)
      ensures access == old(access) - (if d in devices then ToSet(devices[d].accessToken) else {})
      ensures refresh == old(refresh) - (if d in devices then ToSet(devices[d].refreshToken) else {})
    {
      device := Device(None, None, displayName);
      if d in devices {
        device := devices[d];
        if device.accessToken.Some? {
          access := access - {device.accessToken.value};
          device := device.(accessToken := None);
        }
        if device.refreshToken.Some? {
          refresh := refresh - {device.refreshToken.value};
          device := device.(refreshToken := None);
        }
      }
    }

    method UserLogin(name: string, password: string, a: LoginArgs) returns (ok: bool)
      requires Inv(View()) && name in users && FreshLogin(View(), a)
      modifies this
      ensures ok <==> LoginAllowed(sha, old(View()), name, password)
      ensures View() == TryLogin(sha, old(View()), name, password, a)
      ensures Inv(View())
    {
      ghost var s := View();
      LoginKeepsInv(s, name, a);
      if sha(password + users[name].salt) != users[name].password || users[name].deactivated {
        return false;
      }
      FreshIsUnsaved(s, a);
      UserAccessTokenSave(a.access, name, a.device, a.refresh.Some?);
      if a.refresh.Some? {
        refresh := refresh[a.refresh.value := a.access];
        issuedRefresh := issuedRefresh + {a.refresh.value};
      }
      var devices := if users[name].devices.Some? then users[name].devices.value else map[];
      var device := StripDevice(devices, a.device, a.displayName);
      if a.refresh.Some? {
        device := device.(refreshToken := a.refresh);
      }
      device := device.(accessToken := Some(a.access));
      users := users[name := users[name].(devices := Some(devices[a.device := device]))];
      return true;
    }

    method RouteRefresh(rt: string, token: string) returns (outcome: RefreshOutcome)
      requires Inv(View()) && token !in issued
      modifies this
      ensures outcome == RefreshResult(old(View()), rt)
      ensures outcome == (if rt in old(refresh) then Refreshed else UnknownToken)
      ensures View() == Refresh(old(View()), rt, token)
      ensures Inv(View())
    {
      ghost var s := View();
      RefreshKeepsInv(s, rt, token);
      if rt !in refresh {
        return UnknownToken;
      }
      assert RefreshHeld(s, rt);
      FreshIsUnsaved(s, LoginArgs("", None, token, None));
      var stale := refresh[rt];
      var at := access[stale];
      UserAccessTokenSave(token, at.user, at.device, true);
      if users[at.user].devices.Some? {
        var devices := users[at.user].devices.value;
        var device := if at.device in devices then devices[at.device] else Device(None, None, None);
        devices := devices[at.device := device.(accessToken := Some(token))];
        users := users[at.user := users[at.user].(devices := Some(devices))];
      }
      access := access - {stale};
      refresh := refresh[rt := token];
      return Refreshed;
    }

    method UserDeleteToken(name: string, token: string) returns (ok: bool)
      requires Inv(View()) && name in users
      modifies this`users, this`access, this`refresh
      ensures ok <==> Deletable(old(View()), name, token)
      ensures View() == DeleteToken(old(View()), name, token)
      ensures Inv(View())
    {
      ghost var s := View();
      if Deletable(s, name, token) {
        DeleteTokenIsPurge(s, name, token);
        PurgeKeepsInv(s, name, {access[token].device});
      }
      if token !in access {
        return false;
      }
      var at := access[token];
      if at.user != name {
        return false;
      }
      if users[name].devices.None? {
        return false;
      }
      var devices := users[name].devices.value;
      if at.device in devices && devices[at.device].refreshToken.Some? {
        refresh := refresh - {devices[at.device].refreshToken.value};
      }
      if at.device !in devices {
        return false;
      }
      users := users[name := users[name].(devices := Some(devices - {at.device}))];
      access := access - {token};
      return true;
    }

    // One turn of the loop below on a device that is not exempt.
    method DropDevice(name: string, d: string, device: Device, ghost s: Store, ghost gone: set<string>)
      requires name in s.users && s.users[name].devices.Some?
      requires gone <= DevicesOf(s.users[name]).Keys
      requires HasDevice(s, name, d) && device == Dev(s, name, d)
      requires View() == Purge(s, name, gone)
      modifies this`users, this`access, this`refresh
      ensures View() == Purge(s, name, gone + {d})
    {
      PurgeMore(s, name, gone, d);
      if device.accessToken.Some? {
        access := access - {device.accessToken.value};
      }
      if device.refreshToken.Some? {
        refresh := refresh - {device.refreshToken.value};
      }
      users := users[name := users[name].(devices := Some(users[name].devices.value - {d}))];
    }

    // The loop of UserDeleteTokens: it visits the devices in any order and deletes those not exempt.
    method DropDevices(name: string, devices: map<string, Device>, exempt: Option<string>)
      requires name in users && users[name].devices == Some(devices)
      modifies this`users, this`access, this`refresh
      ensures View() == DeleteTokens(old(View()), name, exempt)
    {
      ghost var s := View();
      var pending := devices.Keys;
      ghost var doomed := Doomed(users[name], exempt);
      ghost var gone := {};
      PurgeNone(s, name);
      while pending != {}
        invariant name in s.users && s.users[name].devices == Some(devices)
        invariant pending <= devices.Keys
        invariant gone == doomed - pending
        invariant View() == Purge(s, name, gone)
        decreases |pending|
      {
        var d :| d in pending;
        pending := pending - {d};
        var device := devices[d];
        if exempt.Some? && device.accessToken == exempt {
          continue;
        }
        DropDevice(name, d, device, s, gone);
        gone := gone + {d};
      }
      assert gone == doomed;
    }

    method UserDeleteTokens(name: string, exempt: Option<string>) returns (ok: bool)
      requires Inv(View()) && name in users
      modifies this`users, this`access, this`refresh
      ensures ok <==> old(users)[name].devices.Some?
      ensures View() == DeleteTokens(old(View()), name, exempt)
      ensures Inv(View())
    {
      DeleteTokensKeepsInv(View(), name, exempt);
      if users[name].devices.None? {
        return false;
      }
      DropDevices(name, users[name].devices.value, exempt);
      return true;
    }

    method UserCreate(name: string, password: string, salt: string) returns (ok: bool)
      requires Inv(View())
      modifies this`users
      ensures ok <==> Creatable(old(View()), name, password)
      ensures View() == if ok then CreateUser(sha, old(View()), name, password, salt) else old(View())
      ensures Inv(View())
    {
      if name in users || |password| == 0 {
        return false;
      }
      SameDevicesKeepInv(View(), CreateUser(sha, View(), name, password, salt));
      users := users[name := User(sha(password + salt), salt, false, None, None)];
      return true;
    }

    method UserSetPrivileges(name: string, privileges: Privileges.Bits)
      requires Inv(View()) && name in users
      modifies this`users
      ensures View() == SetPrivileges(old(View()), name, Privileges.Stored(privileges))
      ensures Inv(View())
    {
      SetPrivilegesKeepsInv(View(), name, Privileges.Stored(privileges));
      users := users[name := users[name].(privileges := Privileges.Stored(privileges))];
    }

    // Registration once UIA has passed: create, log in unless inhibited, grant.
    method RegisterUser(name: string, password: string, salt: string, login: Option<LoginArgs>,
                        grants: Option<Privileges.Json>)
      returns (created: bool, loggedIn: bool)
      requires Inv(View()) && (login.Some? ==> FreshLogin(View(), login.value))
      modifies this
      ensures created <==> Creatable(old(View()), name, password)
      ensures loggedIn <==> created && login.Some?
      ensures View() == Register(sha, old(View()), name, password, salt, login, grants)
      ensures Inv(View())
    {
      loggedIn := false;
      created := UserCreate(name, password, salt);
      if !created {
        return;
      }
      if login.Some? {
        loggedIn := UserLogin(name, password, login.value);
      }
      if grants.Some? {
        var privileges := Privileges.UserDecodePrivileges(grants.value);
        UserSetPrivileges(name, privileges);
      }
    }

    method RouteLogout(token: string, path: seq<string>) returns (reply: LogoutReply)
      requires Inv(View())
      modifies this`users, this`access, this`refresh
      ensures (View(), reply) == LogoutRoute(old(View()), token, path)
      ensures Inv(View())
    {
      if token in access { assert AccessHeld(View(), token); }
      var who := UserAuthenticate(token);
      if who.None? {
        return LogoutUnknownToken;
      }
      var ok;
      if |path| == 1 {
        if path[0] != "all" {
          return LogoutNotFound;
        }
        ok := UserDeleteTokens(who.value.user, None);
      } else {
        ok := UserDeleteToken(who.value.user, token);
      }
      assert ok;
      return LoggedOut;
    }

    // A password change once UIA has passed.
    method ChangeUserPassword(token: string, password: string, salt: string, logoutDevices: bool) returns (ok: bool)
      requires Inv(View())
      modifies this`users, this`access, this`refresh
      ensures ok <==> Authenticate(old(View()), token).Some?
      ensures View() == ChangePassword(sha, old(View()), token, password, salt, logoutDevices)
      ensures Inv(View())
    {
      var who := UserAuthenticate(token);
      if who.None? {
        return false;
      }
      var name := who.value.user;
      SameDevicesKeepInv(View(), SetPassword(sha, View(), name, password, salt));
      users := users[name := users[name].(password := sha(password + salt), salt := salt)];
      if logoutDevices {
        var _ := UserDeleteTokens(name, Some(token));
      }
      return true;
    }

    // Deactivation once UIA has passed, by the access token or else the user named in the session.
    method DeactivateUser(actor: Actor) returns (known: bool, ok: bool)
      requires Inv(View())
      modifies this`users, this`access, this`refresh
      ensures known <==> Acting(old(View()), actor).Some?
      ensures ok <==> DeactivateSucceeds(old(View()), actor)
      ensures View() == Deactivate(old(View()), actor)
      ensures Inv(View())
    {
      DeactivateKeepsInv(View(), actor);
      var name: Option<string> := None;
      match actor {
        case ByToken(token) =>
          var who := UserAuthenticate(token);
          if who.Some? {
            name := Some(who.value.user);
          }
        case BySession(user) =>
          if user.Some? && user.value in users {
            name := user;
          }
      }
      if name.None? {
        return false, false;
      }
      known := true;
      ok := UserDeleteTokens(name.value, None);
      if !ok {
        return;
      }
      users := users[name.value := users[name.value].(deactivated := true)];
    }

    method RouteAdminDeactivate(token: string, target: string, deactivated: bool) returns (ok: bool)
      requires Inv(View())
      modifies this`users
      ensures ok <==> AdminAllowed(old(View()), token, Privileges.Deactivate) && target in old(users)
      ensures View() == AdminSetDeactivated(old(View()), token, target, deactivated)
      ensures Inv(View())
    {
      AdminKeepsInv(View(), token, target, deactivated);
      var who := UserAuthenticate(token);
      if who.None? || target !in users {
        return false;
      }
      if !Privileges.Has(Privileges.Fetch(users[who.value.user].privileges), Privileges.Deactivate) {
        return false;
      }
      users := users[target := users[target].(deactivated := deactivated)];
      return true;
    }

    method RoutePrivileges(token: string, target: Option<string>, call: PrivilegesCall)
      returns (reply: PrivilegesReply)
      requires Inv(View())
      modifies this`users
      ensures (View(), reply) == PrivilegesRoute(old(View()), token, target, call)
      ensures Inv(View())
    {
      var who := UserAuthenticate(token);
      if who.None? {
        return PrivilegesUnknownToken;
      }
      if !Privileges.Has(Privileges.Fetch(users[who.value.user].privileges), Privileges.GrantPrivileges) {
        return Forbidden;
      }
      var name := if target.Some? then target.value else who.value.user;
      if name !in users {
        return UnknownUser;
      }
      match call {
        case Read =>
        case Change(verb, body) =>
          match body {
            case NotJson =>
              return BodyNotJson;
            case BadJson =>
              return BodyBadJson;
            case Body(request) =>
              PrivilegesKeepInv(View(), token, target, verb, request);
              var json := Privileges.Update(users[name].privileges, verb, request);
              users := users[name := users[name].(privileges := json)];
          }
      }
      return Listed(Privileges.Encode(Privileges.Fetch(users[name].privileges)));
    }
  }

  lemma FreshIsUnsaved(s: Store, a: LoginArgs)
    requires Inv(s) && FreshLogin(s, a)
    ensures a.access !in s.access
    ensures a.refresh.Some? ==> a.refresh.value !in s.refresh
  {
    forall t | t in s.access ensures t in s.issued { assert AccessHeld(s, t); }
    forall r | r in s.refresh ensures r in s.issuedRefresh { assert RefreshHeld(s, r); }
  }

  lemma PurgeNone(s: Store, name: string)
    requires name in s.users
    ensures Purge(s, name, {}) == s
  {
    if s.users[name].devices.Some? {
      var devices := s.users[name].devices.value;
      assert devices - {} == devices;
      assert AccessTokens(devices, {}) == {} && RefreshTokens(devices, {}) == {};
      assert s.access - {} == s.access && s.refresh - {} == s.refresh;
      assert s.users[name := s.users[name]] == s.users;
    }
  }

  // What one turn of the bulk logout loop does to the tables.
  ghost function DropOne(s: Store, name: string, d: string, device: Device): Store
    requires name in s.users
  {
    s.(users := s.users[name := s.users[name].(devices := Some(DevicesOf(s.users[name]) - {d}))],
       access := s.access - ToSet(device.accessToken),
       refresh := s.refresh - ToSet(device.refreshToken))
  }

  lemma TokensMore(devices: map<string, Device>, ds: set<string>, d: string)
    requires ds <= devices.Keys && d in devices
    ensures AccessTokens(devices, ds + {d}) == AccessTokens(devices, ds) + ToSet(devices[d].accessToken)
    ensures RefreshTokens(devices, ds + {d}) == RefreshTokens(devices, ds) + ToSet(devices[d].refreshToken)
  {
  }

  lemma RemoveTwice<V>(m: map<string, V>, xs: set<string>, ys: set<string>)
    ensures m - (xs + ys) == m - xs - ys
  {
  }

  lemma PurgeMore(s: Store, name: string, ds: set<string>, d: string)
    requires name in s.users && s.users[name].devices.Some?
    requires ds <= DevicesOf(s.users[name]).Keys && HasDevice(s, name, d)
    ensures Purge(s, name, ds + {d}) == DropOne(Purge(s, name, ds), name, d, Dev(s, name, d))
  {
    var devices := DevicesOf(s.users[name]);
    TokensMore(devices, ds, d);
    RemoveTwice(devices, ds, {d});
    RemoveTwice(s.access, AccessTokens(devices, ds), ToSet(devices[d].accessToken));
    RemoveTwice(s.refresh, RefreshTokens(devices, ds), ToSet(devices[d].refreshToken));
  }
}
