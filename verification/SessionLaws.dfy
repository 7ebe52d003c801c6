/**
 * What each route on sessions does, answer by answer, in terms of what is stored: who is let through, what goes, and
 * what stays as it was.
 */
module SessionLaws {
  import opened Options
  import opened SessionModel
  import opened SessionInvariant
  import opened SessionTheorems
  import Privileges

  // ---------- Logging out ----------

  // The device of who, its tokens, and nothing else of anyone are gone.
  ghost predicate OneGone(s: Store, s': Store, who: Owner, t: string) {
    && t !in s'.access && !HasDevice(s', who.user, who.device)
    && (forall d :: HasDevice(s, who.user, d) && d != who.device ==> DeviceKept(s, s', who.user, d))
    && (forall r :: r in s'.refresh <==> r in s.refresh && s.refresh[r] != t)
    && OthersKept(s, s', who.user)
  }

  // All devices and tokens of the user, and nothing of anyone else, are gone.
  ghost predicate AllGone(s: Store, s': Store, u: string) {
    && (forall d :: !HasDevice(s', u, d))
    && (forall t :: t in s'.access ==> s'.access[t].user != u)
    && (forall r, d :: HoldsRefresh(s, u, d, r) ==> r !in s'.refresh)
    && OthersKept(s, s', u)
  }

  lemma LogoutOne(s: Store, t: string)
    requires Inv(s) && Authenticate(s, t).Some?
    ensures OneGone(s, Logout(s, t), Authenticate(s, t).value, t)
  {
    SingleLogout(s, t);
  }

  lemma LogoutEvery(s: Store, t: string)
    requires Inv(s) && Authenticate(s, t).Some?
    ensures AllGone(s, LogoutAll(s, t), Authenticate(s, t).value.user)
  {
    var u := Authenticate(s, t).value.user;
    var s' := LogoutAll(s, t);
    BulkLogout(s, u, None);
    DeleteTokensKeepsInv(s, u, None);
    forall r, d | HoldsRefresh(s, u, d, r) ensures r !in s'.refresh { RefreshGone(s, s', u, d, r); }
  }

  lemma RefreshGone(s: Store, s': Store, u: string, d: string, r: string)
    requires Inv(s) && u in s.users && s' == DeleteTokens(s, u, None) && HoldsRefresh(s, u, d, r)
    ensures r !in s'.refresh
  {
    assert d in Doomed(s.users[u], None);
  }

  /**
   * RouteLogout: without a path the caller's device, its tokens and nothing else go; with the path "all" everything of
   * the caller and nothing of others; for any other path, and for a token that does not work, nothing.
   */
  lemma {:induction false} LogoutRouteEffect(s: Store, t: string, path: seq<string>)
    requires Inv(s)
    ensures var (s', reply) := LogoutRoute(s, t, path);
      match Authenticate(s, t)
      case None => reply == LogoutUnknownToken && s' == s
      case Some(who) =>
        if |path| != 1 then reply == LoggedOut && OneGone(s, s', who, t)
        else if path[0] == "all" then reply == LoggedOut && AllGone(s, s', who.user)
        else reply == LogoutNotFound && s' == s
  {
    if Authenticate(s, t).Some? {
      LogoutOne(s, t);
      LogoutEvery(s, t);
    }
  }

  /** The two logout steps of a run are the two paths of the route. */
  lemma {:induction false} LogoutSteps(sha: Hash, s: Store, t: string)
    ensures Next(sha, s, DoLogout(t)) == LogoutRoute(s, t, []).0
    ensures Next(sha, s, DoLogoutAll(t)) == LogoutRoute(s, t, ["all"]).0
  {
  }

  /** UserDeleteToken deletes a token exactly if it is stored for that user, and otherwise nothing. */
  lemma {:induction false} DeletesOwnOnly(s: Store, name: string, t: string)
    requires Inv(s)
    ensures var s' := DeleteToken(s, name, t);
      if t in s.access && s.access[t].user == name then OneGone(s, s', Owner(name, s.access[t].device), t) else s' == s
  {
    if t in s.access && s.access[t].user == name {
      assert AccessHeld(s, t);
      DeletedIsGone(s, name, t, s.access[t].device);
    }
  }

  lemma DeletedIsGone(s: Store, name: string, t: string, d: string)
    requires Inv(s) && Deletable(s, name, t) && d == s.access[t].device
    ensures OneGone(s, DeleteToken(s, name, t), Owner(name, d), t)
  {
    var s' := DeleteToken(s, name, t);
    DeleteTokenIsPurge(s, name, t);
    forall e | HasDevice(s, name, e) && e != d ensures DeviceKept(s, s', name, e) { PurgeKeepsDevice(s, name, {d}, e); }
    PurgeKeepsOthers(s, name, {d});
    assert AccessHeld(s, t) && DeviceOk(s, name, d);
    forall r | r in s.refresh ensures s.refresh[r] == t <==> Dev(s, name, d).refreshToken == Some(r) {
      assert RefreshHeld(s, r);
    }
  }

  // ---------- Administration ----------

  /** RoutePrivileges gives each answer exactly when the caller, the target and the body call for it. */
  lemma {:induction false} PrivilegesAnswers(s: Store, t: string, target: Option<string>, call: PrivilegesCall)
    ensures var (s', reply) := PrivilegesRoute(s, t, target, call);
      var entitled := Entitled(s, t, Privileges.GrantPrivileges);
      var known := target.Some? ==> target.value in s.users;
      && (reply == PrivilegesUnknownToken <==> Authenticate(s, t).None?)
      && (reply == Forbidden <==> Authenticate(s, t).Some? && !entitled)
      && (reply == UnknownUser <==> entitled && !known)
      && (reply == BodyNotJson <==> entitled && known && call.Change? && call.body.NotJson?)
      && (reply == BodyBadJson <==> entitled && known && call.Change? && call.body.BadJson?)
      && (reply.Listed? <==> entitled && known && (call.Change? ==> call.body.Body?))
  {
    EntitledIsAllowed(s, t, Privileges.GrantPrivileges);
  }

  // Nothing has changed but what is said of one user.
  ghost predicate OnlyUser(s: Store, s': Store, u: string, account: User) {
    u in s.users && s' == s.(users := s.users[u := account])
  }

  /**
   * RouteAdminDeactivate sets or clears the mark of an existing target for a caller who holds DEACTIVATE, and changes
   * nothing else; for any other caller or target it changes nothing.
   */
  lemma {:induction false} AdminEffect(s: Store, t: string, target: string, mark: bool)
    ensures var s' := AdminSetDeactivated(s, t, target, mark);
      if Entitled(s, t, Privileges.Deactivate) && target in s.users
      then OnlyUser(s, s', target, s.users[target].(deactivated := mark))
      else s' == s
  {
    EntitledIsAllowed(s, t, Privileges.Deactivate);
  }

  // ---------- Logging in ----------

  // The device has exactly the tokens of this login, and they work.
  ghost predicate LoggedInAs(s: Store, s': Store, name: string, a: LoginArgs) {
    && HasDevice(s', name, a.device)
    && Authenticate(s', a.access) == Some(Owner(name, a.device))
    && (forall t :: NamesDevice(s', t, name, a.device) <==> t == a.access)
    && (forall r :: HoldsRefresh(s', name, a.device, r) <==> Some(r) == a.refresh)
    && (a.refresh.Some? ==> a.refresh.value in s'.refresh && s'.refresh[a.refresh.value] == a.access)
    && Dev(s', name, a.device).displayName
       == (if HasDevice(s, name, a.device) then Dev(s, name, a.device).displayName else a.displayName)
    && OthersKept(s, s', name)
    && (forall d :: HasDevice(s, name, d) && d != a.device ==> DeviceKept(s, s', name, d))
  }

  /**
   * A login attempt leaves the store alone if the account does not exist, the hash of the password with the stored salt
   * is not the stored one, or the account is deactivated; otherwise it logs the device in.
   */
  lemma {:induction false} LoginAttempt(sha: Hash, s: Store, name: string, password: string, a: LoginArgs)
    requires Inv(s) && FreshLogin(s, a)
    ensures var s' := TryLogin(sha, s, name, password, a);
      if name in s.users && sha(password + s.users[name].salt) == s.users[name].password && !s.users[name].deactivated
      then LoggedInAs(s, s', name, a)
      else s' == s
  {
    if LoginAllowed(sha, s, name, password) {
      LoginEffect(s, name, a);
      LoginKeepsOthers(s, name, a);
    }
  }

  /** The token of a login works for a week if it comes with a refresh token, and otherwise until it is deleted. */
  lemma {:induction false} LoginLasts(sha: Hash, s: Store, name: string, a: LoginArgs, ms: nat)
    requires Inv(s) && name in s.users && FreshLogin(s, a)
    ensures Authenticate(Next(sha, Login(s, name, a), DoTick(ms)), a.access)
         == if a.refresh.None? || ms < 7 * 24 * 60 * 60 * 1000 then Some(Owner(name, a.device)) else None
  {
    LoginTables(s, name, a);
  }

  // Everything of the user but the device, and everything of other users, is kept.
  ghost predicate OnlyDevice(s: Store, s': Store, u: string, d: string) {
    (forall e :: HasDevice(s, u, e) && e != d ==> DeviceKept(s, s', u, e)) && OthersKept(s, s', u)
  }

  /** The token of a refresh works for another week as that of the same user and device. */
  lemma {:induction false} RefreshLasts(sha: Hash, s: Store, rt: string, t: string, ms: nat)
    requires Inv(s) && rt in s.refresh && t !in s.issued
    ensures Authenticate(Next(sha, Refresh(s, rt, t), DoTick(ms)), t)
         == if ms < 7 * 24 * 60 * 60 * 1000 then Some(Holder(s, rt)) else None
  {
    RefreshEffect(s, rt, t);
  }

  /** A refresh changes the access token of its device, and nothing else of any device. */
  lemma {:induction false} RefreshDevice(s: Store, rt: string, t: string)
    requires Inv(s) && rt in s.refresh && t !in s.issued
    ensures var s', who := Refresh(s, rt, t), Holder(s, rt);
      && HasDevice(s, who.user, who.device) && HasDevice(s', who.user, who.device)
      && Dev(s', who.user, who.device) == Dev(s, who.user, who.device).(accessToken := Some(t))
      && OnlyDevice(s, s', who.user, who.device)
  {
    assert RefreshHeld(s, rt) && AccessHeld(s, s.refresh[rt]);
    RefreshSpares(s, rt, t, Holder(s, rt));
    RefreshSparesOthers(s, rt, t, Holder(s, rt));
  }

  lemma RefreshSpares(s: Store, rt: string, t: string, who: Owner)
    requires Inv(s) && rt in s.refresh && t !in s.issued && who == Holder(s, rt)
    ensures forall d :: HasDevice(s, who.user, d) && d != who.device ==> DeviceKept(s, Refresh(s, rt, t), who.user, d)
  {
    assert RefreshHeld(s, rt) && AccessHeld(s, s.refresh[rt]);
    forall d | HasDevice(s, who.user, d) && d != who.device ensures DeviceKept(s, Refresh(s, rt, t), who.user, d) {
      assert DeviceOk(s, who.user, d);
      StoredIsIssued(s);
    }
  }

  lemma RefreshSparesOthers(s: Store, rt: string, t: string, who: Owner)
    requires Inv(s) && rt in s.refresh && t !in s.issued && who == Holder(s, rt)
    ensures OthersKept(s, Refresh(s, rt, t), who.user)
  {
    assert RefreshHeld(s, rt) && AccessHeld(s, s.refresh[rt]);
    StoredIsIssued(s);
  }

  // ---------- What happens to accounts ----------

  // The step gives the user another password.
  predicate ChangesPassword(s: Store, step: Step, u: string) {
    step.DoChangePassword? && Authenticate(s, step.token).Some? && Authenticate(s, step.token).value.user == u
  }

  // The step is a self-service deactivation of the user that succeeds.
  predicate DeactivatesSelf(s: Store, step: Step, u: string) {
    && step.DoDeactivate? && u in s.users && s.users[u].devices.Some?
    && match step.actor
       case ByToken(t) => Authenticate(s, t).Some? && Authenticate(s, t).value.user == u
       case BySession(name) => name == Some(u)
  }

  // The step is an administrator's ban or pardon of the user that is let through.
  predicate Marks(s: Store, step: Step, u: string) {
    step.DoAdmin? && step.target == u && Entitled(s, step.token, Privileges.Deactivate)
  }

  // The step changes the user's privileges and is let through.
  predicate Grants(s: Store, step: Step, u: string) {
    && step.DoPrivileges? && Entitled(s, step.token, Privileges.GrantPrivileges)
    && u == if step.who.Some? then step.who.value else Authenticate(s, step.token).value.user
  }

  // The step makes the account.
  predicate Creates(s: Store, step: Step, u: string) {
    step.DoRegister? && step.name == u && u !in s.users && step.password != ""
  }

  // What a step may do to an account that exists before it.
  ghost predicate AccountAfter(sha: Hash, s: Store, step: Step, u: string, s': Store)
    requires u in s.users
  {
    && u in s'.users
    && s'.users[u].password
       == (if ChangesPassword(s, step, u) then sha(step.password + step.salt) else s.users[u].password)
    && s'.users[u].salt == (if ChangesPassword(s, step, u) then step.salt else s.users[u].salt)
    && s'.users[u].deactivated
       == (if DeactivatesSelf(s, step, u) then true
           else if Marks(s, step, u) then step.deactivated
           else s.users[u].deactivated)
    && (!Grants(s, step, u) ==> s'.users[u].privileges == s.users[u].privileges)
  }

  lemma IssuingAccounts(sha: Hash, s: Store, step: Step, u: string)
    requires u in s.users && (step.DoRegister? || step.DoLogin? || step.DoRefresh? || step.DoTick?)
    ensures AccountAfter(sha, s, step, u, Next(sha, s, step))
  {
  }

  lemma DeletingAccounts(sha: Hash, s: Store, step: Step, u: string)
    requires u in s.users && (step.DoLogout? || step.DoLogoutAll? || step.DoChangePassword? || step.DoDeactivate?)
    ensures AccountAfter(sha, s, step, u, Next(sha, s, step))
  {
  }

  lemma AdminAccounts(sha: Hash, s: Store, step: Step, u: string)
    requires u in s.users && (step.DoAdmin? || step.DoPrivileges?)
    ensures AccountAfter(sha, s, step, u, Next(sha, s, step))
  {
    if step.DoAdmin? {
      AdminEffect(s, step.token, step.target, step.deactivated);
    } else {
      EntitledIsAllowed(s, step.token, Privileges.GrantPrivileges);
    }
  }

  /**
   * For every step: which accounts there are afterwards, and which password, mark and privileges an account has. A
   * password changes only by a password change with a token of the account, a mark only by deactivation of oneself or
   * by a caller who holds DEACTIVATE, privileges only by a caller who holds GRANT_PRIVILEGES.
   */
  lemma {:induction false} AccountsAfter(sha: Hash, s: Store, step: Step, u: string)
    ensures var s' := Next(sha, s, step);
      && (u in s'.users <==> u in s.users || Creates(s, step, u))
      && (u in s.users ==> AccountAfter(sha, s, step, u, s'))
  {
    if u in s.users {
      if step.DoAdmin? || step.DoPrivileges? {
        AdminAccounts(sha, s, step, u);
      } else if step.DoLogout? || step.DoLogoutAll? || step.DoChangePassword? || step.DoDeactivate? {
        DeletingAccounts(sha, s, step, u);
      } else {
        IssuingAccounts(sha, s, step, u);
      }
    } else {
      NewAccounts(sha, s, step, u);
    }
  }

  lemma NewAccounts(sha: Hash, s: Store, step: Step, u: string)
    requires u !in s.users
    ensures u in Next(sha, s, step).users <==> Creates(s, step, u)
  {
    if step.DoAdmin? || step.DoPrivileges? {
      NobodyByAdmin(sha, s, step, u);
    } else if step.DoLogout? || step.DoLogoutAll? || step.DoChangePassword? || step.DoDeactivate? {
      NobodyByDeleting(sha, s, step, u);
    } else {
      NobodyElse(sha, s, step, u);
    }
  }

  lemma NobodyByAdmin(sha: Hash, s: Store, step: Step, u: string)
    requires u !in s.users && (step.DoAdmin? || step.DoPrivileges?)
    ensures u !in Next(sha, s, step).users
  {
  }

  lemma NobodyByDeleting(sha: Hash, s: Store, step: Step, u: string)
    requires u !in s.users && (step.DoLogout? || step.DoLogoutAll? || step.DoChangePassword? || step.DoDeactivate?)
    ensures u !in Next(sha, s, step).users
  {
  }

  lemma NobodyElse(sha: Hash, s: Store, step: Step, u: string)
    requires u !in s.users && (step.DoRegister? || step.DoLogin? || step.DoRefresh? || step.DoTick?)
    ensures u in Next(sha, s, step).users <==> Creates(s, step, u)
  {
    if step.DoRegister? {
      NobodyButTheNamed(sha, s, step.name, step.password, step.salt, step.login, step.grants, u);
    }
  }

  lemma NobodyButTheNamed(sha: Hash, s: Store, name: string, password: string, salt: string,
                          login: Option<LoginArgs>, grants: Option<Privileges.Json>, u: string)
    requires u !in s.users
    ensures u in Register(sha, s, name, password, salt, login, grants).users <==> name == u && password != ""
  {
  }

  // ---------- Effects in full ----------

  /** A registration is refused for a name that is taken or an empty password; else only its own password logs in. */
  lemma {:induction false} RegisterPassword(sha: Hash, s: Store, name: string, password: string, salt: string,
                                            login: Option<LoginArgs>, grants: Option<Privileges.Json>, p: string)
    requires Inv(s) && (login.Some? ==> FreshLogin(s, login.value))
    ensures var s' := Register(sha, s, name, password, salt, login, grants);
      if name in s.users || password == "" then s' == s
      else
        && (LoginAllowed(sha, s', name, p) <==> sha(p + salt) == sha(password + salt))
        && (login.None? ==> s'.access == s.access && s'.refresh == s.refresh && DevicesOf(s'.users[name]) == map[])
  {
  }

  /** What is stored for a new account. */
  lemma RegisteredAccount(sha: Hash, s: Store, name: string, password: string, salt: string,
                          login: Option<LoginArgs>, grants: Option<Privileges.Json>)
    requires Creatable(s, name, password)
    ensures var s' := Register(sha, s, name, password, salt, login, grants);
      && name in s'.users && s'.users[name].password == sha(password + salt) && s'.users[name].salt == salt
      && !s'.users[name].deactivated
  {
  }

  /** Without bulk logout a password change touches no token; with it the caller's device keeps both of its own. */
  lemma {:induction false} ChangePasswordTokens(sha: Hash, s: Store, t: string, password: string, salt: string,
                                                all: bool)
    requires Inv(s) && Authenticate(s, t).Some?
    ensures var s', who := ChangePassword(sha, s, t, password, salt, all), Authenticate(s, t).value;
      && HasDevice(s, who.user, who.device)
      && (all ==> DeviceKept(s, s', who.user, who.device)
                  && forall d :: HasDevice(s', who.user, d) ==> d == who.device)
      && (!all ==> s'.access == s.access && s'.refresh == s.refresh
                   && s'.users[who.user].devices == s.users[who.user].devices)
  {
    var who := Authenticate(s, t).value;
    var s1 := SetPassword(sha, s, who.user, password, salt);
    assert AccessHeld(s, t);
    SetPasswordEffect(sha, s, t, password, salt);
    if all {
      BulkLogout(s1, who.user, Some(t));
      assert AccessHeld(s1, t);
      SameDeviceKept(sha, s, t, password, salt);
    }
  }

  lemma SameDeviceKept(sha: Hash, s: Store, t: string, password: string, salt: string)
    requires Inv(s) && Authenticate(s, t).Some?
    ensures var who := Authenticate(s, t).value;
      var s' := ChangePassword(sha, s, t, password, salt, true);
      && HasDevice(s, who.user, who.device) && DeviceKept(s, s', who.user, who.device)
      && forall d :: HasDevice(s', who.user, d) ==> d == who.device
  {
    var who := Authenticate(s, t).value;
    var s1 := SetPassword(sha, s, who.user, password, salt);
    var s' := ChangePassword(sha, s, t, password, salt, true);
    assert AccessHeld(s, t);
    SetPasswordEffect(sha, s, t, password, salt);
    BulkLogout(s1, who.user, Some(t));
    assert HoldsAccess(s1, who.user, who.device, t);
    forall d | HasDevice(s', who.user, d) ensures d == who.device {
      assert HoldsAccess(s1, who.user, d, t) && DeviceOk(s1, who.user, d);
    }
  }

  /** A self-service deactivation marks the user and takes everything from them, and nothing from others. */
  lemma {:induction false} DeactivateEffect(s: Store, t: string)
    requires Inv(s) && Authenticate(s, t).Some?
    ensures var s', u := Deactivate(s, ByToken(t)), Authenticate(s, t).value.user;
      && u in s'.users && s'.users[u].deactivated && AllGone(s, s', u)
      && (forall x :: x in s.users && x != u ==> x in s'.users && s'.users[x] == s.users[x])
  {
    var u := Authenticate(s, t).value.user;
    var s1 := LogoutAll(s, t);
    LogoutNeverFails(s, t);
    LogoutEvery(s, t);
    MarkKeepsGone(s, s1, SetDeactivated(s1, u, true), u);
    OnlyTheUser(s, u);
  }

  lemma MarkKeepsGone(s: Store, s1: Store, s2: Store, u: string)
    requires AllGone(s, s1, u) && u in s1.users && s2 == SetDeactivated(s1, u, true)
    ensures AllGone(s, s2, u)
  {
    forall x, d ensures HasDevice(s2, x, d) <==> HasDevice(s1, x, d) { }
  }

  lemma OnlyTheUser(s: Store, u: string)
    requires u in s.users
    ensures var s1 := DeleteTokens(s, u, None);
      u in s1.users && forall x :: x in s.users && x != u ==> x in s1.users && s1.users[x] == s.users[x]
  {
  }
}
