/**
 * The cross-table invariant of the session store is kept by every transition,
 * and history only grows.
 */
module SessionInvariant {
  import opened Options
  import opened SessionModel
  import Privileges

  // ---------- One transition at a time ----------

  // Add a device that the user does not have yet, with the tokens of one login.
  ghost function Attach(s: Store, name: string, device: Device, a: LoginArgs): Store
    requires name in s.users
  {
    var u := s.users[name];
    var s1 := IssueAccess(s, a.access, name, a.device, a.refresh.Some?);
    s1.(users := s.users[name := u.(devices := Some(DevicesOf(u)[a.device := device]))],
        refresh := if a.refresh.Some? then s.refresh[a.refresh.value := a.access] else s.refresh,
        issuedRefresh := s.issuedRefresh + ToSet(a.refresh))
  }

  lemma AttachKeepsInv(s: Store, name: string, device: Device, a: LoginArgs)
    requires Inv(s) && name in s.users && FreshLogin(s, a) && !HasDevice(s, name, a.device)
    requires device.accessToken == Some(a.access) && device.refreshToken == a.refresh
    ensures Inv(Attach(s, name, device, a))
  {
    var s' := Attach(s, name, device, a);
    forall u, d | HasDevice(s', u, d)
      ensures DeviceOk(s', u, d)
    {
      if (u, d) != (name, a.device) {
        assert HasDevice(s, u, d) && DeviceOk(s, u, d);
        var device := Dev(s, u, d);
        assert AccessHeld(s, device.accessToken.value);
        assert device.refreshToken.Some? ==> RefreshHeld(s, device.refreshToken.value);
      }
    }
    forall t | t in s'.access
      ensures AccessHeld(s', t)
    {
      if t != a.access { assert AccessHeld(s, t); }
    }
    forall r | r in s'.refresh
      ensures RefreshHeld(s', r)
    {
      if Some(r) != a.refresh {
        assert RefreshHeld(s, r);
        assert AccessHeld(s, s.refresh[r]);
      }
    }
  }

  lemma RemoveCommutes<K, V>(m: map<K, V>, k: K, v: V, ks: set<K>)
    requires k !in ks
    ensures m[k := v] - ks == (m - ks)[k := v]
  {
  }

  lemma RemoveThenSet<K, V>(m: map<K, V>, k: K, v: V)
    ensures (m - {k})[k := v] == m[k := v]
  {
  }

  lemma PurgeOne(s: Store, name: string, d: string)
    requires Inv(s) && HasDevice(s, name, d)
    ensures var device := Dev(s, name, d);
      && AccessTokens(DevicesOf(s.users[name]), {d}) == ToSet(device.accessToken)
      && RefreshTokens(DevicesOf(s.users[name]), {d}) == ToSet(device.refreshToken)
      && ToSet(device.accessToken) <= s.issued.Keys
      && ToSet(device.refreshToken) <= s.issuedRefresh
  {
    assert DeviceOk(s, name, d);
    var device := Dev(s, name, d);
    assert AccessHeld(s, device.accessToken.value);
    assert device.refreshToken.Some? ==> RefreshHeld(s, device.refreshToken.value);
  }

  // A login onto an existing device is a logout of that device followed by a login onto a new one.
  lemma LoginIsPurgeThenAttach(s: Store, name: string, a: LoginArgs)
    requires Inv(s) && FreshLogin(s, a)
    requires HasDevice(s, name, a.device)
    ensures Login(s, name, a)
         == Attach(Purge(s, name, {a.device}), name, LoggedIn(Some(Dev(s, name, a.device)), a), a)
  {
    var devices, device := DevicesOf(s.users[name]), Dev(s, name, a.device);
    PurgeOne(s, name, a.device);
    RemoveThenSet(devices, a.device, LoggedIn(Some(device), a));
    var issued := Access(name, a.device, if a.refresh.Some? then s.now + WEEK_MS else 0);
    RemoveCommutes(s.access, a.access, issued, ToSet(device.accessToken));
    if a.refresh.Some? {
      RemoveCommutes(s.refresh, a.refresh.value, a.access, ToSet(device.refreshToken));
    }
  }

  lemma FirstLoginIsAttach(s: Store, name: string, a: LoginArgs)
    requires name in s.users && !HasDevice(s, name, a.device)
    ensures Login(s, name, a) == Attach(s, name, LoggedIn(None, a), a)
  {
    var issued := IssueAccess(s, a.access, name, a.device, a.refresh.Some?);
    assert issued.access - {} == issued.access;
    assert Attach(s, name, LoggedIn(None, a), a).refresh - {} == Attach(s, name, LoggedIn(None, a), a).refresh;
  }

  lemma PurgedIsFree(s: Store, name: string, a: LoginArgs)
    requires HasDevice(s, name, a.device) && FreshLogin(s, a)
    ensures !HasDevice(Purge(s, name, {a.device}), name, a.device)
    ensures FreshLogin(Purge(s, name, {a.device}), a)
  {
  }

  lemma LoginKeepsInv(s: Store, name: string, a: LoginArgs)
    requires Inv(s) && name in s.users && FreshLogin(s, a)
    ensures Inv(Login(s, name, a))
  {
    if HasDevice(s, name, a.device) {
      LoginIsPurgeThenAttach(s, name, a);
      PurgeKeepsInv(s, name, {a.device});
      PurgedIsFree(s, name, a);
      var device := LoggedIn(Some(Dev(s, name, a.device)), a);
      AttachKeepsInv(Purge(s, name, {a.device}), name, device, a);
    } else {
      FirstLoginIsAttach(s, name, a);
      AttachKeepsInv(s, name, LoggedIn(None, a), a);
    }
  }

  lemma RefreshKeepsInv(s: Store, rt: string, t: string)
    requires Inv(s) && t !in s.issued
    ensures Inv(Refresh(s, rt, t))
  {
    if rt in s.refresh {
      assert RefreshHeld(s, rt);
      var stale := s.refresh[rt];
      assert AccessHeld(s, stale);
      var s' := Refresh(s, rt, t);
      forall u, d | HasDevice(s', u, d)
        ensures DeviceOk(s', u, d)
      {
        assert HasDevice(s, u, d) && DeviceOk(s, u, d);
      }
      forall x | x in s'.access
        ensures AccessHeld(s', x)
      {
        if x != t { assert AccessHeld(s, x); }
      }
      forall r | r in s'.refresh
        ensures RefreshHeld(s', r)
      {
        assert RefreshHeld(s, r);
      }
    }
  }

  lemma PurgeKeepsInv(s: Store, name: string, ds: set<string>)
    requires Inv(s) && name in s.users && ds <= DevicesOf(s.users[name]).Keys
    ensures Inv(Purge(s, name, ds))
  {
    var s' := Purge(s, name, ds);
    forall u, d | HasDevice(s', u, d)
      ensures DeviceOk(s', u, d)
    {
      assert HasDevice(s, u, d) && DeviceOk(s, u, d);
      forall e | e in ds ensures DeviceOk(s, name, e) { assert HasDevice(s, name, e); }
    }
    forall t | t in s'.access
      ensures AccessHeld(s', t)
    {
      assert AccessHeld(s, t);
    }
    forall r | r in s'.refresh
      ensures RefreshHeld(s', r)
    {
      assert RefreshHeld(s, r);
      var a := s.access[s.refresh[r]];
      assert AccessHeld(s, s.refresh[r]);
      assert a.user == name ==> a.device !in ds;
      assert HasDevice(s', a.user, a.device);
      assert DeviceOk(s', a.user, a.device);
    }
  }

  lemma DeleteTokenIsPurge(s: Store, name: string, t: string)
    requires Inv(s) && Deletable(s, name, t)
    ensures DeleteToken(s, name, t) == Purge(s, name, {s.access[t].device})
  {
    var d := s.access[t].device;
    assert AccessHeld(s, t);
    assert AccessTokens(DevicesOf(s.users[name]), {d}) == {t};
    assert RefreshTokens(DevicesOf(s.users[name]), {d}) == ToSet(Dev(s, name, d).refreshToken);
  }

  // Changing the parts of a user that are not devices.
  predicate SameDevices(s: Store, s': Store) {
    && s'.access == s.access && s'.refresh == s.refresh
    && s'.issued == s.issued && s'.issuedRefresh == s.issuedRefresh
    && s.users.Keys <= s'.users.Keys
    && (forall u :: u in s.users ==> s'.users[u].devices == s.users[u].devices)
    && (forall u :: u in s'.users && u !in s.users ==> s'.users[u].devices.None?)
  }

  lemma SameDevicesKeepInv(s: Store, s': Store)
    requires Inv(s) && SameDevices(s, s')
    ensures Inv(s')
  {
    forall u, d | HasDevice(s', u, d)
      ensures DeviceOk(s', u, d)
    {
      assert HasDevice(s, u, d) && DeviceOk(s, u, d);
    }
    forall t | t in s'.access
      ensures AccessHeld(s', t)
    {
      assert AccessHeld(s, t);
    }
    forall r | r in s'.refresh
      ensures RefreshHeld(s', r)
    {
      assert RefreshHeld(s, r);
    }
  }

  lemma RegisterKeepsInv(sha: Hash, s: Store, name: string, password: string, salt: string,
                         login: Option<LoginArgs>, grants: Option<Privileges.Json>)
    requires Inv(s) && (login.Some? ==> FreshLogin(s, login.value))
    ensures Inv(Register(sha, s, name, password, salt, login, grants))
  {
    if Creatable(s, name, password) {
      var s1 := CreateUser(sha, s, name, password, salt);
      SameDevicesKeepInv(s, s1);
      if login.Some? { LoginKeepsInv(s1, name, login.value); }
      var s2 := if login.Some? then TryLogin(sha, s1, name, password, login.value) else s1;
      if grants.Some? {
        var json := Privileges.Stored(Privileges.Decode(grants.value));
        SetPrivilegesKeepsInv(s2, name, json);
      }
    }
  }

  lemma SetPrivilegesKeepsInv(s: Store, name: string, json: Option<Privileges.Json>)
    requires Inv(s)
    ensures Inv(SetPrivileges(s, name, json))
  {
    SameDevicesKeepInv(s, SetPrivileges(s, name, json));
  }

  lemma LogoutKeepsInv(s: Store, t: string)
    requires Inv(s)
    ensures Inv(Logout(s, t))
  {
    if Authenticate(s, t).Some? && Deletable(s, Authenticate(s, t).value.user, t) {
      DeleteTokenIsPurge(s, s.access[t].user, t);
      PurgeKeepsInv(s, s.access[t].user, {s.access[t].device});
    }
  }

  lemma DeleteTokensKeepsInv(s: Store, name: string, exempt: Option<string>)
    requires Inv(s) && name in s.users
    ensures Inv(DeleteTokens(s, name, exempt))
  {
    PurgeKeepsInv(s, name, Doomed(s.users[name], exempt));
  }

  lemma ChangePasswordKeepsInv(sha: Hash, s: Store, t: string, password: string, salt: string, all: bool)
    requires Inv(s)
    ensures Inv(ChangePassword(sha, s, t, password, salt, all))
  {
    if Authenticate(s, t).Some? {
      var name := Authenticate(s, t).value.user;
      var s1 := SetPassword(sha, s, name, password, salt);
      SameDevicesKeepInv(s, s1);
      DeleteTokensKeepsInv(s1, name, Some(t));
    }
  }

  lemma DeactivateKeepsInv(s: Store, actor: Actor)
    requires Inv(s)
    ensures Inv(Deactivate(s, actor))
  {
    if DeactivateSucceeds(s, actor) {
      var name := Acting(s, actor).value;
      DeleteTokensKeepsInv(s, name, None);
      SameDevicesKeepInv(DeleteTokens(s, name, None), Deactivate(s, actor));
    }
  }

  lemma AdminKeepsInv(s: Store, t: string, target: string, deactivated: bool)
    requires Inv(s)
    ensures Inv(AdminSetDeactivated(s, t, target, deactivated))
  {
    SameDevicesKeepInv(s, AdminSetDeactivated(s, t, target, deactivated));
  }

  lemma PrivilegesKeepInv(s: Store, t: string, target: Option<string>, verb: Privileges.Verb, request: Privileges.Json)
    requires Inv(s)
    ensures Inv(ChangePrivileges(s, t, target, verb, request))
  {
    if AdminAllowed(s, t, Privileges.GrantPrivileges) {
      var name := if target.Some? then target.value else Authenticate(s, t).value.user;
      if name in s.users {
        SetPrivilegesKeepsInv(s, name, Privileges.Updated(s.users[name].privileges, verb, request));
      }
    }
  }

  /** Every transition keeps the cross-table invariant. */
  lemma {:induction false} StepKeepsInv(sha: Hash, s: Store, step: Step)
    requires Inv(s) && Legal(s, step)
    ensures Inv(Next(sha, s, step))
  {
    match step
    case DoRegister(name, password, salt, login, grants) =>
      RegisterKeepsInv(sha, s, name, password, salt, login, grants);
    case DoLogin(name, password, args) =>
      if name in s.users { LoginKeepsInv(s, name, args); }
    case DoRefresh(rt, t) => RefreshKeepsInv(s, rt, t);
    case DoLogout(t) => LogoutKeepsInv(s, t);
    case DoLogoutAll(t) =>
      if Authenticate(s, t).Some? { DeleteTokensKeepsInv(s, Authenticate(s, t).value.user, None); }
    case DoChangePassword(t, password, salt, all) => ChangePasswordKeepsInv(sha, s, t, password, salt, all);
    case DoDeactivate(actor) => DeactivateKeepsInv(s, actor);
    case DoAdmin(t, target, deactivated) => AdminKeepsInv(s, t, target, deactivated);
    case DoPrivileges(t, target, verb, request) => PrivilegesKeepInv(s, t, target, verb, request);
    case DoTick(ms) => SameDevicesKeepInv(s, Next(sha, s, step));
  }

  lemma {:induction false} RunKeepsInv(sha: Hash, s: Store, steps: seq<Step>)
    requires Inv(s) && LegalRun(sha, s, steps)
    ensures Inv(Exec(sha, s, steps))
    decreases |steps|
  {
    if steps != [] {
      StepKeepsInv(sha, s, steps[0]);
      RunKeepsInv(sha, Next(sha, s, steps[0]), steps[1..]);
    }
  }

  /** The invariant holds in every state reachable from the empty store. */
  lemma {:induction false} ReachableInv(sha: Hash, steps: seq<Step>)
    requires LegalRun(sha, EMPTY, steps)
    ensures Inv(Exec(sha, EMPTY, steps))
  {
    RunKeepsInv(sha, EMPTY, steps);
  }

  // ---------- What history forbids ----------

  // From s to s': users stay, time does not go back, history is only extended, and a stored access token
  // that had been issued before was already stored, unchanged.
  ghost predicate Evolves(s: Store, s': Store) {
    && s.users.Keys <= s'.users.Keys
    && s.now <= s'.now
    && (forall t :: t in s.issued ==> t in s'.issued && s'.issued[t] == s.issued[t])
    && (forall t :: t in s'.access && t in s.issued ==> t in s.access && s'.access[t] == s.access[t])
  }

  lemma EvolvesTransitive(s0: Store, s1: Store, s2: Store)
    requires Evolves(s0, s1) && Evolves(s1, s2)
    ensures Evolves(s0, s2)
  {
  }

  lemma LoginEvolves(s: Store, name: string, a: LoginArgs)
    requires name in s.users && FreshLogin(s, a)
    ensures Evolves(s, Login(s, name, a))
  {
  }

  lemma RegisterEvolves(sha: Hash, s: Store, name: string, password: string, salt: string,
                        login: Option<LoginArgs>, grants: Option<Privileges.Json>)
    requires login.Some? ==> FreshLogin(s, login.value)
    ensures Evolves(s, Register(sha, s, name, password, salt, login, grants))
  {
    if Creatable(s, name, password) {
      var s1 := CreateUser(sha, s, name, password, salt);
      if login.Some? { LoginEvolves(s1, name, login.value); }
    }
  }

  lemma DeletionsEvolve(sha: Hash, s: Store, step: Step)
    requires step.DoLogout? || step.DoLogoutAll? || step.DoDeactivate? || step.DoChangePassword?
    ensures Evolves(s, Next(sha, s, step))
  {
  }

  lemma PrivilegesEvolve(s: Store, t: string, target: Option<string>, verb: Privileges.Verb, request: Privileges.Json)
    ensures Evolves(s, ChangePrivileges(s, t, target, verb, request))
  {
  }

  lemma StepEvolves(sha: Hash, s: Store, step: Step)
    requires Legal(s, step)
    ensures Evolves(s, Next(sha, s, step))
  {
    match step
    case DoRegister(name, password, salt, login, grants) =>
      RegisterEvolves(sha, s, name, password, salt, login, grants);
    case DoLogin(name, password, args) =>
      if name in s.users { LoginEvolves(s, name, args); }
    case DoRefresh(rt, t) =>
    case DoLogout(_) => DeletionsEvolve(sha, s, step);
    case DoLogoutAll(_) => DeletionsEvolve(sha, s, step);
    case DoChangePassword(_, _, _, _) => DeletionsEvolve(sha, s, step);
    case DoDeactivate(_) => DeletionsEvolve(sha, s, step);
    case DoAdmin(_, _, _) =>
    case DoPrivileges(t, target, verb, request) => PrivilegesEvolve(s, t, target, verb, request);
    case DoTick(_) =>
  }

  lemma {:induction false} RunEvolves(sha: Hash, s: Store, steps: seq<Step>)
    requires LegalRun(sha, s, steps)
    ensures Evolves(s, Exec(sha, s, steps))
    decreases |steps|
  {
    if steps != [] {
      var s1 := Next(sha, s, steps[0]);
      StepEvolves(sha, s, steps[0]);
      RunEvolves(sha, s1, steps[1..]);
      EvolvesTransitive(s, s1, Exec(sha, s, steps));
    }
  }
}
