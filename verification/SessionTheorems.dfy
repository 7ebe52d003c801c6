/**
 * What the server promises about sessions, over whole runs of the transitions.
 */
module SessionTheorems {
  import opened Options
  import opened SessionModel
  import opened SessionInvariant
  import Privileges

  // ---------- The tables form a bijection ----------

  ghost predicate NamesDevice(s: Store, t: string, u: string, d: string) {
    t in s.access && s.access[t].user == u && s.access[t].device == d
  }

  ghost predicate HoldsAccess(s: Store, u: string, d: string, t: string) {
    HasDevice(s, u, d) && Dev(s, u, d).accessToken == Some(t)
  }

  ghost predicate HoldsRefresh(s: Store, u: string, d: string, r: string) {
    HasDevice(s, u, d) && Dev(s, u, d).refreshToken == Some(r)
  }

  /** In every reachable state an access token names a device exactly when that device holds it. */
  lemma {:induction false} AccessBijection(sha: Hash, steps: seq<Step>, t: string, u: string, d: string)
    requires LegalRun(sha, EMPTY, steps)
    ensures var s := Exec(sha, EMPTY, steps);
      NamesDevice(s, t, u, d) <==> HoldsAccess(s, u, d, t)
  {
    var s := Exec(sha, EMPTY, steps);
    ReachableInv(sha, steps);
    if t in s.access { assert AccessHeld(s, t); }
    if HasDevice(s, u, d) { assert DeviceOk(s, u, d); }
  }

  lemma SoleToken(s: Store, t: string, x: string)
    requires Inv(s) && t in s.access
    ensures NamesDevice(s, x, s.access[t].user, s.access[t].device) <==> x == t
  {
    assert AccessHeld(s, t);
    if x in s.access { assert AccessHeld(s, x); }
  }

  /**
   * In every reachable state a refresh token is stored exactly when some device holds it, exactly one device does,
   * and it refreshes the access token of that same device.
   */
  lemma {:induction false} RefreshBijection(sha: Hash, steps: seq<Step>, r: string)
    requires LegalRun(sha, EMPTY, steps)
    ensures var s := Exec(sha, EMPTY, steps);
      && (r in s.refresh <==> exists u, d :: HoldsRefresh(s, u, d, r))
      && (forall u, d :: HoldsRefresh(s, u, d, r) ==>
            r in s.refresh && HoldsAccess(s, u, d, s.refresh[r]) && NamesDevice(s, s.refresh[r], u, d))
      && (forall u, d, u', d' :: HoldsRefresh(s, u, d, r) && HoldsRefresh(s, u', d', r) ==> u == u' && d == d')
  {
    var s := Exec(sha, EMPTY, steps);
    ReachableInv(sha, steps);
    if r in s.refresh {
      assert RefreshHeld(s, r);
      var a := s.access[s.refresh[r]];
      assert HoldsRefresh(s, a.user, a.device, r);
    }
    forall u, d | HoldsRefresh(s, u, d, r)
      ensures r in s.refresh && HoldsAccess(s, u, d, s.refresh[r]) && NamesDevice(s, s.refresh[r], u, d)
    {
      assert DeviceOk(s, u, d);
    }
  }

  // ---------- Ownership and death of access tokens ----------

  /** Whenever an issued token authenticates, it is as the user and device it was issued to. */
  lemma {:induction false} OwnershipFixed(sha: Hash, s: Store, steps: seq<Step>, t: string)
    requires Inv(s) && LegalRun(sha, s, steps)
    requires t in s.issued
    ensures var who := Authenticate(Exec(sha, s, steps), t);
      who.Some? ==> who.value == Owner(s.issued[t].user, s.issued[t].device)
  {
    RunEvolves(sha, s, steps);
    if t in s.access { assert AccessHeld(s, t); }
  }

  /** A token authenticates exactly while it is stored and, if it came with a refresh token, younger than a week. */
  lemma {:induction false} AuthenticatesWhile(s: Store, t: string)
    requires Inv(s)
    ensures Authenticate(s, t).Some? <==>
      t in s.access && (s.issued[t].expiring ==> s.now < s.issued[t].at + WEEK_MS)
  {
    if t in s.access { assert AccessHeld(s, t); }
  }

  /** Once an issued token does not authenticate, it never authenticates again, whatever follows. */
  lemma {:induction false} DeathIsPermanent(sha: Hash, s: Store, steps: seq<Step>, t: string)
    requires Inv(s) && LegalRun(sha, s, steps)
    requires t in s.issued && Authenticate(s, t).None?
    ensures Authenticate(Exec(sha, s, steps), t).None?
  {
    RunEvolves(sha, s, steps);
    if t in s.access { assert AccessHeld(s, t); }
  }

  // ---------- Refreshing ----------

  /** Neither repair branch of the refresh route is reachable from the empty store. */
  lemma {:induction false} RepairUnreachable(sha: Hash, steps: seq<Step>, rt: string)
    requires LegalRun(sha, EMPTY, steps)
    ensures var s := Exec(sha, EMPTY, steps);
      RefreshResult(s, rt) == if rt in s.refresh then Refreshed else UnknownToken
  {
    var s := Exec(sha, EMPTY, steps);
    ReachableInv(sha, steps);
    if rt in s.refresh {
      assert RefreshHeld(s, rt);
    }
  }

  lemma StoredIsIssued(s: Store)
    requires Inv(s)
    ensures s.access.Keys <= s.issued.Keys
  {
    forall t | t in s.access ensures t in s.issued { assert AccessHeld(s, t); }
  }

  ghost predicate RefreshedTo(s: Store, rt: string, t: string, s': Store)
    requires rt in s.refresh && s.refresh[rt] in s.access
  {
    var stale := s.refresh[rt];
    && s'.refresh == s.refresh[rt := t]
    && s'.access == (s.access - {stale})[t := Access(s.access[stale].user, s.access[stale].device, s.now + WEEK_MS)]
    && s'.now == s.now
  }

  /**
   * A refresh replaces the access token and nothing else in the token tables: the new one authenticates as the same
   * user and device, the old one no longer does.
   */
  lemma {:induction false} RefreshEffect(s: Store, rt: string, t: string)
    requires Inv(s) && rt in s.refresh && t !in s.issued
    ensures var s', stale := Refresh(s, rt, t), s.refresh[rt];
      && Inv(s') && stale in s.access && RefreshedTo(s, rt, t, s')
      && Authenticate(s', t) == Some(Owner(s.access[stale].user, s.access[stale].device))
      && Authenticate(s', stale).None?
  {
    var stale := s.refresh[rt];
    assert RefreshHeld(s, rt);
    assert AccessHeld(s, stale);
    RefreshKeepsInv(s, rt, t);
    RemoveCommutes(s.access, t, Access(s.access[stale].user, s.access[stale].device, s.now + WEEK_MS), {stale});
  }

  // The user and device a stored refresh token belongs to.
  ghost function Holder(s: Store, rt: string): Owner
    requires Inv(s) && rt in s.refresh
  {
    assert RefreshHeld(s, rt);
    Owner(s.access[s.refresh[rt]].user, s.access[s.refresh[rt]].device)
  }

  // The access token drawn by the last refresh with rt, or the one rt had before.
  function LastDrawn(steps: seq<Step>, rt: string, t: string): string
    decreases |steps|
  {
    if steps == [] then t
    else LastDrawn(steps[1..], rt, if steps[0].DoRefresh? && steps[0].refreshToken == rt then steps[0].access else t)
  }

  // A step keeps rt, if at all, with its holder, and changes what it refreshes only by refreshing with rt.
  ghost predicate RefreshStays(s: Store, step: Step, rt: string, s': Store) {
    rt in s'.refresh && rt in s.issuedRefresh ==>
      && rt in s.refresh
      && s'.refresh[rt] == (if step.DoRefresh? && step.refreshToken == rt then step.access else s.refresh[rt])
      && s.refresh[rt] in s.access && s'.refresh[rt] in s'.access
      && s'.access[s'.refresh[rt]].user == s.access[s.refresh[rt]].user
      && s'.access[s'.refresh[rt]].device == s.access[s.refresh[rt]].device
  }

  // From s to s' the refresh token is kept, if at all, with what it refreshes.
  ghost predicate RefreshKept(s: Store, s': Store, rt: string) {
    rt in s'.refresh && rt in s.issuedRefresh ==>
      && rt in s.refresh && s'.refresh[rt] == s.refresh[rt]
      && s.refresh[rt] in s.access && s.refresh[rt] in s'.access
      && s'.access[s.refresh[rt]] == s.access[s.refresh[rt]]
  }

  lemma LoginKeepsRefresh(s: Store, name: string, a: LoginArgs, rt: string)
    requires Inv(s) && name in s.users && FreshLogin(s, a)
    ensures RefreshKept(s, Login(s, name, a), rt)
  {
    var s' := Login(s, name, a);
    LoginKeepsInv(s, name, a);
    if rt in s'.refresh && rt in s.issuedRefresh {
      assert RefreshHeld(s, rt) && RefreshHeld(s', rt);
      assert AccessHeld(s, s.refresh[rt]);
    }
  }

  // Steps that leave the token tables alone before and after.
  lemma RefreshKeptAround(s: Store, s1: Store, s2: Store, s3: Store, rt: string)
    requires s1.refresh == s.refresh && s1.access == s.access && s1.issuedRefresh == s.issuedRefresh
    requires s3.refresh == s2.refresh && s3.access == s2.access
    requires RefreshKept(s1, s2, rt)
    ensures RefreshKept(s, s3, rt)
  {
  }

  lemma FirstLoginKeepsRefresh(sha: Hash, s: Store, name: string, password: string, login: Option<LoginArgs>,
                               s': Store, rt: string)
    requires Inv(s) && name in s.users && (login.Some? ==> FreshLogin(s, login.value))
    requires s' == if login.Some? then TryLogin(sha, s, name, password, login.value) else s
    ensures RefreshKept(s, s', rt)
  {
    if rt in s.refresh { assert RefreshHeld(s, rt); }
    if login.Some? { LoginKeepsRefresh(s, name, login.value, rt); }
  }

  lemma GrantLeavesTables(s: Store, name: string, grants: Option<Privileges.Json>)
    ensures var s' :=
        if grants.Some? then SetPrivileges(s, name, Privileges.Stored(Privileges.Decode(grants.value))) else s;
      s'.refresh == s.refresh && s'.access == s.access
  {
  }

  lemma RegisterKeepsRefresh(sha: Hash, s: Store, name: string, password: string, salt: string,
                             login: Option<LoginArgs>, grants: Option<Privileges.Json>, rt: string)
    requires Inv(s) && (login.Some? ==> FreshLogin(s, login.value)) && Creatable(s, name, password)
    ensures RefreshKept(s, Register(sha, s, name, password, salt, login, grants), rt)
  {
    var s1 := CreateUser(sha, s, name, password, salt);
    var s2 := if login.Some? then TryLogin(sha, s1, name, password, login.value) else s1;
    SameDevicesKeepInv(s, s1);
    FirstLoginKeepsRefresh(sha, s1, name, password, login, s2, rt);
    GrantLeavesTables(s2, name, grants);
    RefreshKeptAround(s, s1, s2, Register(sha, s, name, password, salt, login, grants), rt);
  }

  lemma DeletingRefreshStays(sha: Hash, s: Store, step: Step, rt: string)
    requires Inv(s) && Legal(s, step)
    requires step.DoLogout? || step.DoLogoutAll? || step.DoChangePassword? || step.DoDeactivate?
    ensures RefreshStays(s, step, rt, Next(sha, s, step))
  {
    var s' := Next(sha, s, step);
    StepKeepsInv(sha, s, step);
    if rt in s'.refresh {
      assert RefreshHeld(s, rt) && RefreshHeld(s', rt);
    }
  }

  lemma StepRefreshStays(sha: Hash, s: Store, step: Step, rt: string)
    requires Inv(s) && Legal(s, step)
    ensures RefreshStays(s, step, rt, Next(sha, s, step))
  {
    if step.DoRegister? && Creatable(s, step.name, step.password) {
      RegisterKeepsRefresh(sha, s, step.name, step.password, step.salt, step.login, step.grants, rt);
    } else if step.DoLogin? && step.name in s.users {
      LoginKeepsRefresh(s, step.name, step.args, rt);
      if rt in s.refresh { assert RefreshHeld(s, rt); }
    } else if step.DoLogout? || step.DoLogoutAll? || step.DoChangePassword? || step.DoDeactivate? {
      DeletingRefreshStays(sha, s, step, rt);
    } else {
      if rt in s.refresh { assert RefreshHeld(s, rt) && AccessHeld(s, s.refresh[rt]); }
      if step.DoRefresh? && step.refreshToken in s.refresh { RefreshEffect(s, step.refreshToken, step.access); }
    }
  }

  lemma IssuedRefreshGrows(sha: Hash, s: Store, step: Step)
    ensures s.issuedRefresh <= Next(sha, s, step).issuedRefresh
  {
  }

  lemma {:induction false} RunRefreshStays(sha: Hash, s: Store, steps: seq<Step>, rt: string)
    requires Inv(s) && LegalRun(sha, s, steps) && rt in s.issuedRefresh
    ensures Inv(Exec(sha, s, steps))
    ensures var s' := Exec(sha, s, steps);
      rt in s'.refresh ==>
        rt in s.refresh && s'.refresh[rt] == LastDrawn(steps, rt, s.refresh[rt]) && Holder(s', rt) == Holder(s, rt)
    decreases |steps|
  {
    if steps != [] {
      var s1 := Next(sha, s, steps[0]);
      StepKeepsInv(sha, s, steps[0]);
      IssuedRefreshGrows(sha, s, steps[0]);
      StepRefreshStays(sha, s, steps[0], rt);
      RunRefreshStays(sha, s1, steps[1..], rt);
    }
  }

  /**
   * Whatever happens between them, time included, any number of refreshes with one refresh token leaves its device
   * with exactly one access token, the one last drawn, for as long as the refresh token is stored; its device never
   * changes, and once it is gone it is never stored again.
   */
  lemma {:induction false} RefreshChain(sha: Hash, s: Store, steps: seq<Step>, rt: string)
    requires Inv(s) && LegalRun(sha, s, steps) && rt in s.issuedRefresh
    ensures var s' := Exec(sha, s, steps);
      && (rt !in s.refresh ==> rt !in s'.refresh)
      && (rt in s'.refresh ==>
            var who := Holder(s, rt);
            && s'.refresh[rt] == LastDrawn(steps, rt, s.refresh[rt])
            && HoldsRefresh(s', who.user, who.device, rt)
            && forall t :: NamesDevice(s', t, who.user, who.device) <==> t == s'.refresh[rt])
  {
    var s' := Exec(sha, s, steps);
    RunRefreshStays(sha, s, steps, rt);
    if rt in s'.refresh {
      assert RefreshHeld(s', rt);
      var who := Holder(s', rt);
      forall t ensures NamesDevice(s', t, who.user, who.device) <==> t == s'.refresh[rt] {
        SoleToken(s', s'.refresh[rt], t);
      }
    }
  }

  // ---------- Who may do what ----------

  // The user's stored array names the privilege, by itself or by "ALL".
  predicate Holds(s: Store, u: string, x: Privileges.Privilege) {
    u in s.users && s.users[u].privileges.Some? && Privileges.Names(s.users[u].privileges.value, x)
  }

  // The token works, and its user holds the privilege.
  predicate Entitled(s: Store, t: string, x: Privileges.Privilege) {
    Authenticate(s, t).Some? && Holds(s, Authenticate(s, t).value.user, x)
  }

  lemma HoldsIsGranted(s: Store, u: string, x: Privileges.Privilege)
    ensures Holds(s, u, x) <==> Granted(s, u, x)
  {
    if u in s.users && s.users[u].privileges.Some? { Privileges.DecodeNames(s.users[u].privileges.value, x); }
  }

  /** Administrators' routes let a caller through exactly when the caller's stored array names the privilege. */
  lemma EntitledIsAllowed(s: Store, t: string, x: Privileges.Privilege)
    ensures AdminAllowed(s, t, x) <==> Entitled(s, t, x)
  {
    if Authenticate(s, t).Some? { HoldsIsGranted(s, Authenticate(s, t).value.user, x); }
  }

  // ---------- Deactivation ----------

  // A deactivated user with no device and no access token.
  ghost predicate Silenced(s: Store, u: string) {
    && u in s.users && s.users[u].deactivated
    && DevicesOf(s.users[u]) == map[]
    && (forall t :: t in s.access ==> s.access[t].user != u)
  }

  lemma NoDeviceNoToken(s: Store, u: string)
    requires Inv(s) && u in s.users && DevicesOf(s.users[u]) == map[]
    ensures forall t :: t in s.access ==> s.access[t].user != u
  {
    forall t | t in s.access ensures s.access[t].user != u { assert AccessHeld(s, t); }
  }

  lemma DeactivateSilences(s: Store, actor: Actor)
    requires Inv(s) && DeactivateSucceeds(s, actor)
    ensures Silenced(Deactivate(s, actor), Acting(s, actor).value)
  {
    var s' := Deactivate(s, actor);
    DeactivateKeepsInv(s, actor);
    NoDeviceNoToken(s', Acting(s, actor).value);
  }

  // The step reactivates the user: an attempt that the server refuses does not.
  predicate Reactivates(s: Store, step: Step, u: string) {
    step.DoAdmin? && step.target == u && !step.deactivated && Entitled(s, step.token, Privileges.Deactivate)
  }

  predicate NeverReactivated(sha: Hash, s: Store, steps: seq<Step>, u: string)
    decreases |steps|
  {
    steps == [] || (!Reactivates(s, steps[0], u) && NeverReactivated(sha, Next(sha, s, steps[0]), steps[1..], u))
  }

  lemma StepKeepsSilence(sha: Hash, s: Store, step: Step, u: string)
    requires Inv(s) && Legal(s, step) && Silenced(s, u) && !Reactivates(s, step, u)
    ensures Silenced(Next(sha, s, step), u)
  {
    var s' := Next(sha, s, step);
    StepKeepsInv(sha, s, step);
    UserUntouched(sha, s, step, u);
    NoDeviceNoToken(s', u);
  }

  ghost predicate Quiet(s: Store, u: string) {
    u in s.users && s.users[u].deactivated && DevicesOf(s.users[u]) == map[]
  }

  // Steps that issue tokens do so for other users.
  lemma IssuingLeavesQuiet(sha: Hash, s: Store, step: Step, u: string)
    requires Inv(s) && Silenced(s, u) && (step.DoRegister? || step.DoLogin? || step.DoRefresh?)
    ensures Quiet(Next(sha, s, step), u)
  {
    if step.DoRefresh? && step.refreshToken in s.refresh { assert RefreshHeld(s, step.refreshToken); }
  }

  // Steps that delete tokens act for users who have some, or find nothing to delete.
  lemma DeletingLeavesQuiet(sha: Hash, s: Store, step: Step, u: string)
    requires Silenced(s, u)
    requires step.DoLogout? || step.DoLogoutAll? || step.DoChangePassword? || step.DoDeactivate?
    ensures Quiet(Next(sha, s, step), u)
  {
  }

  lemma UserUntouched(sha: Hash, s: Store, step: Step, u: string)
    requires Inv(s) && Silenced(s, u) && !Reactivates(s, step, u)
    ensures Quiet(Next(sha, s, step), u)
  {
    if step.DoRegister? || step.DoLogin? || step.DoRefresh? {
      IssuingLeavesQuiet(sha, s, step, u);
    } else if step.DoLogout? || step.DoLogoutAll? || step.DoChangePassword? || step.DoDeactivate? {
      DeletingLeavesQuiet(sha, s, step, u);
    } else if step.DoAdmin? {
      EntitledIsAllowed(s, step.token, Privileges.Deactivate);
    } else if step.DoPrivileges? {
      PrivilegesUntouched(s, step.token, step.who, step.verb, step.request, u);
    }
  }

  lemma PrivilegesUntouched(s: Store, t: string, who: Option<string>, verb: Privileges.Verb,
                            request: Privileges.Json, u: string)
    requires u in s.users
    ensures var s' := ChangePrivileges(s, t, who, verb, request);
      u in s'.users && s'.users[u].deactivated == s.users[u].deactivated && s'.users[u].devices == s.users[u].devices
  {
  }

  lemma {:induction false} RunKeepsSilence(sha: Hash, s: Store, steps: seq<Step>, u: string)
    requires Inv(s) && LegalRun(sha, s, steps) && Silenced(s, u)
    requires NeverReactivated(sha, s, steps, u)
    ensures Silenced(Exec(sha, s, steps), u)
    decreases |steps|
  {
    if steps != [] {
      StepKeepsInv(sha, s, steps[0]);
      StepKeepsSilence(sha, s, steps[0], u);
      RunKeepsSilence(sha, Next(sha, s, steps[0]), steps[1..], u);
    }
  }

  /**
   * After a user has deactivated their account, no token authenticates as them in any continuation in which no caller
   * entitled to do so reactivates that user; attempts the server refuses may occur.
   */
  lemma {:induction false} DeactivationIsFinal(sha: Hash, s: Store, actor: Actor, steps: seq<Step>, t: string)
    requires Inv(s) && DeactivateSucceeds(s, actor)
    requires LegalRun(sha, Deactivate(s, actor), steps)
    requires NeverReactivated(sha, Deactivate(s, actor), steps, Acting(s, actor).value)
    ensures var who := Authenticate(Exec(sha, Deactivate(s, actor), steps), t);
      who.Some? ==> who.value.user != Acting(s, actor).value
  {
    DeactivateKeepsInv(s, actor);
    DeactivateSilences(s, actor);
    RunKeepsSilence(sha, Deactivate(s, actor), steps, Acting(s, actor).value);
  }

  /**
   * Deactivation by an administrator logs the user out only if there was nothing to log out: afterwards no stored
   * token names the target exactly when the target had no device before.
   */
  lemma AdminDeactivationLogsOut(s: Store, t: string, target: string)
    requires Inv(s) && target in s.users && Entitled(s, t, Privileges.Deactivate)
    ensures var s' := AdminSetDeactivated(s, t, target, true);
      (forall x :: x in s'.access ==> s'.access[x].user != target) <==> DevicesOf(s.users[target]) == map[]
  {
    EntitledIsAllowed(s, t, Privileges.Deactivate);
    if DevicesOf(s.users[target]) == map[] {
      NoDeviceNoToken(s, target);
    } else {
      var d :| d in DevicesOf(s.users[target]);
      assert HasDevice(s, target, d) && DeviceOk(s, target, d);
      var x := Dev(s, target, d).accessToken.value;
      assert x in AdminSetDeactivated(s, t, target, true).access;
    }
  }

  // A deactivated user whose token still works.
  predicate BannedYetIn(s: Store, t: string, u: string, d: string) {
    u in s.users && s.users[u].deactivated && Authenticate(s, t) == Some(Owner(u, d))
  }

  // What another user's token and account see of a change to the user name: nothing.
  ghost predicate Unaffected(s: Store, s': Store, name: string, t: string) {
    && Authenticate(s', t) == Authenticate(s, t)
    && forall u :: u in s.users && u != name ==> u in s'.users && s'.users[u] == s.users[u]
  }

  lemma NewLoginLeavesOthers(s: Store, name: string, a: LoginArgs, t: string)
    requires Inv(s) && name in s.users && DevicesOf(s.users[name]) == map[] && FreshLogin(s, a)
    requires Authenticate(s, t).Some?
    ensures Unaffected(s, Login(s, name, a), name, t)
  {
    assert AccessHeld(s, t);
  }

  lemma CreationLeavesOthers(sha: Hash, s: Store, name: string, password: string, salt: string, t: string)
    requires name !in s.users && Authenticate(s, t).Some?
    ensures Unaffected(s, CreateUser(sha, s, name, password, salt), name, t)
  {
  }

  lemma GrantLeavesOthers(s: Store, name: string, grants: Option<Privileges.Json>, t: string)
    ensures var s' :=
        if grants.Some? then SetPrivileges(s, name, Privileges.Stored(Privileges.Decode(grants.value))) else s;
      Unaffected(s, s', name, t)
  {
  }

  lemma UnaffectedTransitive(s: Store, s1: Store, s2: Store, name: string, t: string)
    requires Unaffected(s, s1, name, t) && Unaffected(s1, s2, name, t)
    ensures Unaffected(s, s2, name, t)
  {
  }

  /** A registration leaves every other account, its privileges and its working tokens as they were. */
  lemma {:induction false} RegisterLeavesOthers(sha: Hash, s: Store, name: string, password: string, salt: string,
                                                login: Option<LoginArgs>, grants: Option<Privileges.Json>, t: string)
    requires Inv(s) && Creatable(s, name, password) && (login.Some? ==> FreshLogin(s, login.value))
    requires Authenticate(s, t).Some?
    ensures Unaffected(s, Register(sha, s, name, password, salt, login, grants), name, t)
  {
    var s1 := CreateUser(sha, s, name, password, salt);
    var s2 := if login.Some? then TryLogin(sha, s1, name, password, login.value) else s1;
    var s3 := Register(sha, s, name, password, salt, login, grants);
    SameDevicesKeepInv(s, s1);
    CreationLeavesOthers(sha, s, name, password, salt, t);
    if login.Some? { NewLoginLeavesOthers(s1, name, login.value, t); }
    UnaffectedTransitive(s, s1, s2, name, t);
    GrantLeavesOthers(s2, name, grants, t);
    UnaffectedTransitive(s, s2, s3, name, t);
  }

  // The administrator, the user and the ban.
  function BanRun(admin: string, u: string, password: string, salt: string, d: string, ta: string, t: string)
    : seq<Step>
  {
    [DoRegister(admin, password, salt, Some(LoginArgs(d, None, ta, None)), Some([Some("DEACTIVATE")])),
     DoRegister(u, password, salt, Some(LoginArgs(d, None, t, None)), None),
     DoAdmin(ta, u, true)]
  }

  /**
   * The documented log-out of a deactivated user does not happen: from the empty store, whatever the names, a run of
   * two registrations and a ban of the second account by the first reaches a state in which the banned user still
   * authenticates.
   */
  lemma {:induction false} BannedUserStillAuthenticates(sha: Hash, admin: string, u: string, password: string,
                                                        salt: string, d: string, ta: string, t: string)
    requires password != "" && admin != u && ta != t
    ensures var steps := BanRun(admin, u, password, salt, d, ta, t);
      LegalRun(sha, EMPTY, steps) && BannedYetIn(Exec(sha, EMPTY, steps), t, u, d)
  {
    var one := DoRegister(admin, password, salt, Some(LoginArgs(d, None, ta, None)), Some([Some("DEACTIVATE")]));
    var two := DoRegister(u, password, salt, Some(LoginArgs(d, None, t, None)), None);
    AdminRegistered(sha, admin, password, salt, d, ta);
    UserRegistered(sha, Next(sha, EMPTY, one), u, password, salt, d, t, ta);
    BanKeepsToken(sha, Next(sha, Next(sha, EMPTY, one), two), ta, t, u, d);
    BanEnds(sha, EMPTY, one, two, DoAdmin(ta, u, true), t, u, d);
  }

  lemma AdminRegistered(sha: Hash, admin: string, password: string, salt: string, d: string, ta: string)
    requires password != ""
    ensures var login := LoginArgs(d, None, ta, None);
      var step := DoRegister(admin, password, salt, Some(login), Some([Some("DEACTIVATE")]));
      var s1 := Next(sha, EMPTY, step);
      && Legal(EMPTY, step) && Inv(s1) && s1.users.Keys == {admin} && s1.issued.Keys == {ta} && s1.issuedRefresh == {}
      && AdminAllowed(s1, ta, Privileges.Deactivate)
  {
    var login := LoginArgs(d, None, ta, None);
    var grants := [Some("DEACTIVATE")];
    assert grants[0] == Some(Privileges.Name(Privileges.Deactivate));
    RegisterKeepsInv(sha, EMPTY, admin, password, salt, Some(login), Some(grants));
    RegisterEffect(sha, EMPTY, admin, password, salt, Some(login), Some(grants));
  }

  lemma UserRegistered(sha: Hash, s1: Store, u: string, password: string, salt: string, d: string, t: string,
                       ta: string)
    requires password != "" && Inv(s1) && u !in s1.users && t !in s1.issued
    requires AdminAllowed(s1, ta, Privileges.Deactivate)
    ensures var step := DoRegister(u, password, salt, Some(LoginArgs(d, None, t, None)), None);
      var s2 := Next(sha, s1, step);
      && Legal(s1, step) && AdminAllowed(s2, ta, Privileges.Deactivate) && Authenticate(s2, t) == Some(Owner(u, d))
  {
    var login := LoginArgs(d, None, t, None);
    RegisterEffect(sha, s1, u, password, salt, Some(login), None);
    RegisterLeavesOthers(sha, s1, u, password, salt, Some(login), None, ta);
  }

  // A ban deactivates its target and leaves their tokens.
  lemma BanKeepsToken(sha: Hash, s: Store, ta: string, t: string, u: string, d: string)
    requires AdminAllowed(s, ta, Privileges.Deactivate) && Authenticate(s, t) == Some(Owner(u, d))
    ensures var ban := DoAdmin(ta, u, true); Legal(s, ban) && BannedYetIn(Next(sha, s, ban), t, u, d)
  {
  }

  lemma BanEnds(sha: Hash, s: Store, one: Step, two: Step, three: Step, t: string, u: string, d: string)
    requires Legal(s, one)
    requires var s1 := Next(sha, s, one); Legal(s1, two)
    requires var s2 := Next(sha, Next(sha, s, one), two); Legal(s2, three) && BannedYetIn(Next(sha, s2, three), t, u, d)
    ensures LegalRun(sha, s, [one, two, three]) && BannedYetIn(Exec(sha, s, [one, two, three]), t, u, d)
  {
    ThreeSteps(sha, s, one, two, three);
  }

  lemma ThreeSteps(sha: Hash, s: Store, one: Step, two: Step, three: Step)
    ensures var s1 := Next(sha, s, one);
      var s2 := Next(sha, s1, two);
      && Exec(sha, s, [one, two, three]) == Next(sha, s2, three)
      && (LegalRun(sha, s, [one, two, three]) <==> Legal(s, one) && Legal(s1, two) && Legal(s2, three))
  {
    var s1 := Next(sha, s, one);
    var s2 := Next(sha, s1, two);
    assert [one, two, three][1..] == [two, three] && [two, three][1..] == [three] && [three][1..] == [];
    assert Exec(sha, s2, [three]) == Exec(sha, Next(sha, s2, three), []);
    assert Exec(sha, s1, [two, three]) == Exec(sha, s2, [three]);
    assert LegalRun(sha, s2, [three]) <==> Legal(s2, three) && LegalRun(sha, Next(sha, s2, three), []);
    assert LegalRun(sha, s1, [two, three]) <==> Legal(s1, two) && LegalRun(sha, s2, [three]);
  }

  // ---------- Logging out ----------

  /** For a caller whose token authenticates, logout and deactivation cannot run into their error branches. */
  lemma {:induction false} LogoutNeverFails(s: Store, t: string)
    requires Inv(s) && Authenticate(s, t).Some?
    ensures Deletable(s, Authenticate(s, t).value.user, t)
    ensures s.users[Authenticate(s, t).value.user].devices.Some?
    ensures DeactivateSucceeds(s, ByToken(t))
  {
    assert AccessHeld(s, t);
  }

  // Everything that concerns other users is the same in s and s'.
  ghost predicate OthersKept(s: Store, s': Store, name: string) {
    && (forall u, d :: u != name ==> (HasDevice(s', u, d) <==> HasDevice(s, u, d)))
    && (forall u, d :: u != name && HasDevice(s, u, d) ==> Dev(s', u, d) == Dev(s, u, d))
    && (forall t :: t in s.access && s.access[t].user != name ==> t in s'.access && s'.access[t] == s.access[t])
    && (forall r :: r in s.refresh && s.refresh[r] in s.access && s.access[s.refresh[r]].user != name ==>
          r in s'.refresh && s'.refresh[r] == s.refresh[r])
  }

  // The device d of a user, with both of its tokens, is the same in s and s'.
  ghost predicate DeviceKept(s: Store, s': Store, u: string, d: string)
    requires HasDevice(s, u, d)
  {
    var device := Dev(s, u, d);
    && HasDevice(s', u, d) && Dev(s', u, d) == device
    && (device.accessToken.Some? && device.accessToken.value in s.access ==>
          device.accessToken.value in s'.access
          && s'.access[device.accessToken.value] == s.access[device.accessToken.value])
    && (device.refreshToken.Some? && device.refreshToken.value in s.refresh ==>
          device.refreshToken.value in s'.refresh
          && s'.refresh[device.refreshToken.value] == s.refresh[device.refreshToken.value])
  }

  lemma PurgeKeepsOthers(s: Store, name: string, ds: set<string>)
    requires Inv(s) && name in s.users && ds <= DevicesOf(s.users[name]).Keys
    ensures OthersKept(s, Purge(s, name, ds), name)
  {
    var s' := Purge(s, name, ds);
    forall d | d in ds ensures DeviceOk(s, name, d) { assert HasDevice(s, name, d); }
    forall r | r in s.refresh && s.refresh[r] in s.access && s.access[s.refresh[r]].user != name
      ensures r in s'.refresh && s'.refresh[r] == s.refresh[r]
    {
    }
  }

  lemma PurgeKeepsDevice(s: Store, name: string, ds: set<string>, d: string)
    requires Inv(s) && HasDevice(s, name, d) && ds <= DevicesOf(s.users[name]).Keys && d !in ds
    ensures DeviceKept(s, Purge(s, name, ds), name, d)
  {
    assert DeviceOk(s, name, d);
    forall e | e in ds ensures DeviceOk(s, name, e) { assert HasDevice(s, name, e); }
  }

  /**
   * Bulk logout leaves the user with exactly the device holding the exempt token, both tokens of it intact, and with
   * no other access token; other users keep everything.
   */
  lemma {:induction false} BulkLogout(s: Store, name: string, exempt: Option<string>)
    requires Inv(s) && name in s.users
    ensures var s' := DeleteTokens(s, name, exempt);
      && (forall d :: HasDevice(s', name, d) <==>
            HasDevice(s, name, d) && exempt.Some? && HoldsAccess(s, name, d, exempt.value))
      && (forall d :: HasDevice(s', name, d) ==> DeviceKept(s, s', name, d))
      && (forall t :: t in s'.access && s'.access[t].user == name ==> Some(t) == exempt)
      && OthersKept(s, s', name)
  {
    var ds := Doomed(s.users[name], exempt);
    var s' := DeleteTokens(s, name, exempt);
    forall d | HasDevice(s', name, d) ensures DeviceKept(s, s', name, d) {
      PurgeKeepsDevice(s, name, ds, d);
    }
    PurgeKeepsOthers(s, name, ds);
    PurgeKeepsInv(s, name, ds);
    forall t | t in s'.access && s'.access[t].user == name ensures Some(t) == exempt { assert AccessHeld(s', t); }
  }

  /** Logging out one token removes its device, that device's refresh token and the token, and nothing else. */
  lemma {:induction false} SingleLogout(s: Store, t: string)
    requires Inv(s) && Authenticate(s, t).Some?
    ensures var s', who := Logout(s, t), Authenticate(s, t).value;
      && t !in s'.access
      && (forall d :: HasDevice(s', who.user, d) <==> HasDevice(s, who.user, d) && d != who.device)
      && (forall d :: HasDevice(s', who.user, d) ==> DeviceKept(s, s', who.user, d))
      && (forall r :: r in s'.refresh <==> r in s.refresh && s.refresh[r] != t)
      && OthersKept(s, s', who.user)
  {
    var s', who := Logout(s, t), Authenticate(s, t).value;
    LogoutNeverFails(s, t);
    DeleteTokenIsPurge(s, who.user, t);
    forall d | HasDevice(s', who.user, d) ensures DeviceKept(s, s', who.user, d) {
      PurgeKeepsDevice(s, who.user, {who.device}, d);
    }
    PurgeKeepsOthers(s, who.user, {who.device});
    assert AccessHeld(s, t) && DeviceOk(s, who.user, who.device);
    forall r | r in s.refresh ensures s.refresh[r] == t <==> Dev(s, who.user, who.device).refreshToken == Some(r) {
      assert RefreshHeld(s, r);
    }
  }

  // ---------- Logging in ----------

  /**
   * A login leaves exactly its own tokens on the device: they work, tokens the device held before are gone, an existing
   * device keeps its display name, and no other device of anyone changes.
   */
  lemma LoginEffect(s: Store, name: string, a: LoginArgs)
    requires Inv(s) && name in s.users && FreshLogin(s, a)
    ensures var s' := Login(s, name, a);
      && HasDevice(s', name, a.device)
      && HoldsAccess(s', name, a.device, a.access)
      && Authenticate(s', a.access) == Some(Owner(name, a.device))
      && (forall t :: NamesDevice(s', t, name, a.device) <==> t == a.access)
      && (a.refresh.Some? ==> a.refresh.value in s'.refresh && s'.refresh[a.refresh.value] == a.access)
      && (forall r :: HoldsRefresh(s', name, a.device, r) <==> Some(r) == a.refresh)
      && Dev(s', name, a.device).displayName
         == (if HasDevice(s, name, a.device) then Dev(s, name, a.device).displayName else a.displayName)
  {
    var s' := Login(s, name, a);
    LoginKeepsInv(s, name, a);
    LoginTables(s, name, a);
    forall t ensures NamesDevice(s', t, name, a.device) <==> t == a.access { SoleToken(s', a.access, t); }
  }

  lemma LoginTables(s: Store, name: string, a: LoginArgs)
    requires Inv(s) && name in s.users && FreshLogin(s, a)
    ensures var s' := Login(s, name, a);
      && a.access in s'.access
      && s'.access[a.access] == Access(name, a.device, if a.refresh.Some? then s.now + WEEK_MS else 0)
      && (a.refresh.Some? ==> a.refresh.value in s'.refresh && s'.refresh[a.refresh.value] == a.access)
  {
    if HasDevice(s, name, a.device) { PurgeOne(s, name, a.device); }
  }

  lemma AttachKeeps(s: Store, name: string, device: Device, a: LoginArgs)
    requires Inv(s) && name in s.users && FreshLogin(s, a) && !HasDevice(s, name, a.device)
    ensures OthersKept(s, Attach(s, name, device, a), name)
    ensures forall d :: HasDevice(s, name, d) ==> DeviceKept(s, Attach(s, name, device, a), name, d)
  {
    StoredIsIssued(s);
    StoredRefreshIsIssued(s);
  }

  lemma KeptTransitive(s: Store, s1: Store, s2: Store, name: string)
    requires OthersKept(s, s1, name) && OthersKept(s1, s2, name)
    ensures OthersKept(s, s2, name)
  {
  }

  lemma DeviceKeptTransitive(s: Store, s1: Store, s2: Store, u: string, d: string)
    requires HasDevice(s, u, d) && DeviceKept(s, s1, u, d) && DeviceKept(s1, s2, u, d)
    ensures DeviceKept(s, s2, u, d)
  {
  }

  /** A login changes nothing of other users, and of the user only the device it is for. */
  lemma LoginKeepsOthers(s: Store, name: string, a: LoginArgs)
    requires Inv(s) && name in s.users && FreshLogin(s, a)
    ensures OthersKept(s, Login(s, name, a), name)
    ensures forall d :: HasDevice(s, name, d) && d != a.device ==> DeviceKept(s, Login(s, name, a), name, d)
  {
    if HasDevice(s, name, a.device) {
      LoginIsPurgeThenAttach(s, name, a);
      ReloginKeepsOthers(s, name, LoggedIn(Some(Dev(s, name, a.device)), a), a);
    } else {
      FirstLoginIsAttach(s, name, a);
      AttachKeeps(s, name, LoggedIn(None, a), a);
    }
  }

  lemma ReloginKeepsOthers(s: Store, name: string, device: Device, a: LoginArgs)
    requires Inv(s) && HasDevice(s, name, a.device) && FreshLogin(s, a)
    ensures var s2 := Attach(Purge(s, name, {a.device}), name, device, a);
      && OthersKept(s, s2, name)
      && forall d :: HasDevice(s, name, d) && d != a.device ==> DeviceKept(s, s2, name, d)
  {
    var s1 := Purge(s, name, {a.device});
    var s2 := Attach(s1, name, device, a);
    PurgeKeepsInv(s, name, {a.device});
    PurgedIsFree(s, name, a);
    PurgeKeepsOthers(s, name, {a.device});
    AttachKeeps(s1, name, device, a);
    KeptTransitive(s, s1, s2, name);
    forall d | HasDevice(s, name, d) && d != a.device ensures DeviceKept(s, s2, name, d) {
      PurgeKeepsDevice(s, name, {a.device}, d);
      DeviceKeptTransitive(s, s1, s2, name, d);
    }
  }

  lemma StoredRefreshIsIssued(s: Store)
    requires Inv(s)
    ensures s.refresh.Keys <= s.issuedRefresh
  {
    forall r | r in s.refresh ensures r in s.issuedRefresh { assert RefreshHeld(s, r); }
  }

  // What a freshly created user finds after the optional first login.
  lemma FirstLogin(sha: Hash, s: Store, name: string, password: string, salt: string, login: Option<LoginArgs>)
    requires Inv(s) && Creatable(s, name, password) && (login.Some? ==> FreshLogin(s, login.value))
    ensures var s1 := CreateUser(sha, s, name, password, salt);
      var s2 := if login.Some? then TryLogin(sha, s1, name, password, login.value) else s1;
      && s2.users.Keys == s.users.Keys + {name}
      && s2.users[name].privileges.None?
      && LoginAllowed(sha, s2, name, password)
      && (login.Some? ==> Authenticate(s2, login.value.access) == Some(Owner(name, login.value.device)))
  {
    var s1 := CreateUser(sha, s, name, password, salt);
    SameDevicesKeepInv(s, s1);
    if login.Some? { LoginTables(s1, name, login.value); }
  }

  // Setting privileges changes nothing about logging in.
  lemma PrivilegesFrame(sha: Hash, s: Store, name: string, json: Option<Privileges.Json>, password: string, t: string)
    ensures var s' := SetPrivileges(s, name, json);
      && s'.users.Keys == s.users.Keys
      && (LoginAllowed(sha, s', name, password) <==> LoginAllowed(sha, s, name, password))
      && Authenticate(s', t) == Authenticate(s, t)
  {
  }

  /** A new account can be used at once: the first login succeeds and the privileges are those the token grants. */
  lemma RegisterEffect(sha: Hash, s: Store, name: string, password: string, salt: string,
                       login: Option<LoginArgs>, grants: Option<Privileges.Json>)
    requires Inv(s) && Creatable(s, name, password) && (login.Some? ==> FreshLogin(s, login.value))
    ensures var s' := Register(sha, s, name, password, salt, login, grants);
      && s'.users.Keys == s.users.Keys + {name}
      && LoginAllowed(sha, s', name, password)
      && (login.Some? ==> Authenticate(s', login.value.access) == Some(Owner(name, login.value.device)))
      && (forall x :: Granted(s', name, x) <==> grants.Some? && Privileges.Names(grants.value, x))
  {
    var s1 := CreateUser(sha, s, name, password, salt);
    var s2 := if login.Some? then TryLogin(sha, s1, name, password, login.value) else s1;
    FirstLogin(sha, s, name, password, salt, login);
    if grants.Some? {
      var json := Privileges.Stored(Privileges.Decode(grants.value));
      PrivilegesFrame(sha, s2, name, json, password, if login.Some? then login.value.access else "");
    }
    var s' := Register(sha, s, name, password, salt, login, grants);
    forall x ensures Granted(s', name, x) <==> grants.Some? && Privileges.Names(grants.value, x) {
      GrantedAfter(s2, name, grants, x);
    }
  }

  lemma GrantedAfter(s: Store, name: string, grants: Option<Privileges.Json>, x: Privileges.Privilege)
    requires name in s.users && s.users[name].privileges.None?
    ensures var s' :=
        if grants.Some? then SetPrivileges(s, name, Privileges.Stored(Privileges.Decode(grants.value))) else s;
      Granted(s', name, x) <==> grants.Some? && Privileges.Names(grants.value, x)
  {
    if grants.Some? {
      Privileges.FetchStored(Privileges.Decode(grants.value), x);
      Privileges.DecodeNames(grants.value, x);
    }
  }

  /**
   * A caller entitled to change privileges gets the answer that names exactly the privileges the target then has: those
   * the request asks for, by its verb. Every other answer means that nothing changed.
   */
  lemma {:induction false} PrivilegesEffect(s: Store, t: string, target: Option<string>, call: PrivilegesCall,
                                            x: Privileges.Privilege)
    ensures var (s', reply) := PrivilegesRoute(s, t, target, call);
      if !reply.Listed? then s' == s
      else
        && Entitled(s, t, Privileges.GrantPrivileges)
        && var name := if target.Some? then target.value else Authenticate(s, t).value.user;
        && s'.users.Keys == s.users.Keys
        && (Privileges.Names(reply.privileges, x) <==> Granted(s', name, x))
        && (Granted(s', name, x) <==>
              if call.Read? then Granted(s, name, x)
              else Privileges.Outcome(call.verb, Granted(s, name, x), Privileges.Names(call.body.privileges, x)))
  {
    var (s', reply) := PrivilegesRoute(s, t, target, call);
    EntitledIsAllowed(s, t, Privileges.GrantPrivileges);
    if reply.Listed? {
      var name := if target.Some? then target.value else Authenticate(s, t).value.user;
      ListedAre(s', name, x);
      if call.Change? { ChangedAre(s, t, target, call.verb, call.body.privileges, x); }
    }
  }

  lemma ListedAre(s: Store, name: string, x: Privileges.Privilege)
    requires name in s.users
    ensures Privileges.Names(ListPrivileges(s, name).privileges, x) <==> Granted(s, name, x)
  {
    Privileges.EncodeNames(Privileges.Fetch(s.users[name].privileges), x);
  }

  lemma ChangedAre(s: Store, t: string, target: Option<string>, verb: Privileges.Verb, request: Privileges.Json,
                   x: Privileges.Privilege)
    requires AdminAllowed(s, t, Privileges.GrantPrivileges)
    requires (if target.Some? then target.value else Authenticate(s, t).value.user) in s.users
    ensures var s' := ChangePrivileges(s, t, target, verb, request);
      var name := if target.Some? then target.value else Authenticate(s, t).value.user;
      && s'.users.Keys == s.users.Keys
      && (Granted(s', name, x) <==> Privileges.Outcome(verb, Granted(s, name, x), Privileges.Names(request, x)))
  {
    var name := if target.Some? then target.value else Authenticate(s, t).value.user;
    Privileges.UpdatedGrants(s.users[name].privileges, verb, request, x);
  }

  lemma SetPasswordEffect(sha: Hash, s: Store, t: string, password: string, salt: string)
    requires Inv(s) && Authenticate(s, t).Some?
    ensures var who := Authenticate(s, t).value;
      var s1 := SetPassword(sha, s, who.user, password, salt);
      && Inv(s1) && Authenticate(s1, t) == Some(who) && HoldsAccess(s1, who.user, who.device, t)
      && (forall p :: LoginAllowed(sha, s1, who.user, p)
            <==> !s.users[who.user].deactivated && sha(p + salt) == sha(password + salt))
      && OthersKept(s, s1, who.user)
  {
    var who := Authenticate(s, t).value;
    SameDevicesKeepInv(s, SetPassword(sha, s, who.user, password, salt));
    assert AccessHeld(s, t);
  }

  lemma SparedToken(s: Store, t: string)
    requires Inv(s) && Authenticate(s, t).Some?
    ensures var who := Authenticate(s, t).value;
      var s' := DeleteTokens(s, who.user, Some(t));
      && Authenticate(s', t) == Some(who)
      && (forall x :: x in s'.access && s'.access[x].user == who.user ==> x == t)
      && s'.users[who.user] == s.users[who.user].(devices := s'.users[who.user].devices)
      && OthersKept(s, s', who.user)
  {
    var who := Authenticate(s, t).value;
    assert AccessHeld(s, t);
    BulkLogout(s, who.user, Some(t));
    assert HoldsAccess(s, who.user, who.device, t);
    assert DeviceKept(s, DeleteTokens(s, who.user, Some(t)), who.user, who.device);
  }

  /**
   * After a password change an active user can log in with the new password and with no other, unless it has the same
   * hash; the token that asked for the change still authenticates, and, if devices were to be logged out, no other
   * token of the user does.
   */
  lemma {:induction false} ChangePasswordEffect(sha: Hash, s: Store, t: string, password: string, salt: string,
                                                all: bool)
    requires Inv(s) && Authenticate(s, t).Some?
    ensures var s', who := ChangePassword(sha, s, t, password, salt, all), Authenticate(s, t).value;
      && (LoginAllowed(sha, s', who.user, password) <==> !s.users[who.user].deactivated)
      && (forall p :: LoginAllowed(sha, s', who.user, p)
            <==> !s.users[who.user].deactivated && sha(p + salt) == sha(password + salt))
      && Authenticate(s', t) == Some(who)
      && (all ==> forall x :: x in s'.access && s'.access[x].user == who.user ==> x == t)
      && OthersKept(s, s', who.user)
  {
    var who := Authenticate(s, t).value;
    var s1 := SetPassword(sha, s, who.user, password, salt);
    SetPasswordEffect(sha, s, t, password, salt);
    if all {
      SparedToken(s1, t);
      KeptTransitive(s, s1, DeleteTokens(s1, who.user, Some(t)), who.user);
    }
  }

  // ---------- Conservation ----------

  /** The number of devices of all users together. */
  ghost function DeviceTotal(users: map<string, User>): nat
    decreases |users|
  {
    if users == map[] then 0 else
    var u := Pick(users.Keys);
    |DevicesOf(users[u])| + DeviceTotal(users - {u})
  }

  // The access tokens in a table are one for one those the devices of these users hold.
  ghost predicate Matched(users: map<string, User>, access: map<string, Access>) {
    && (forall t :: t in access ==>
          && access[t].user in users && access[t].device in DevicesOf(users[access[t].user])
          && DevicesOf(users[access[t].user])[access[t].device].accessToken == Some(t))
    && (forall u, d :: u in users && d in DevicesOf(users[u]) ==>
          var token := DevicesOf(users[u])[d].accessToken;
          token.Some? && token.value in access && access[token.value].user == u && access[token.value].device == d)
  }

  ghost predicate Injective(devices: map<string, Device>) {
    && (forall d :: d in devices ==> devices[d].accessToken.Some?)
    && (forall d, d' :: d in devices && d' in devices && devices[d].accessToken == devices[d'].accessToken ==> d == d')
  }

  lemma {:induction false} CountAccessTokens(devices: map<string, Device>, ds: set<string>)
    requires Injective(devices) && ds <= devices.Keys
    ensures |AccessTokens(devices, ds)| == |ds|
    decreases |ds|
  {
    if ds == {} {
      assert AccessTokens(devices, ds) == {};
    } else {
      var d :| d in ds;
      CountAccessTokens(devices, ds - {d});
      assert AccessTokens(devices, ds) == AccessTokens(devices, ds - {d}) + {devices[d].accessToken.value};
    }
  }

  lemma {:induction false} CountMatched(users: map<string, User>, access: map<string, Access>)
    requires Matched(users, access)
    ensures |access| == DeviceTotal(users)
    decreases |users|
  {
    if users == map[] {
      NoUserNoToken(users, access);
    } else {
      var u := Pick(users.Keys);
      var devices := DevicesOf(users[u]);
      var mine := AccessTokens(devices, devices.Keys);
      MineAre(users, access, u);
      CountAccessTokens(devices, devices.Keys);
      CountMatched(users - {u}, access - mine);
      SplitSize(access, mine);
    }
  }

  lemma SplitSize<K, V>(m: map<K, V>, ks: set<K>)
    requires ks <= m.Keys
    ensures |m| == |ks| + |m - ks|
  {
    assert m.Keys == ks + (m - ks).Keys;
  }

  lemma NoUserNoToken(users: map<string, User>, access: map<string, Access>)
    requires Matched(users, access) && users == map[]
    ensures |access| == 0
  {
    assert access == map[];
  }

  lemma MineAre(users: map<string, User>, access: map<string, Access>, u: string)
    requires Matched(users, access) && u in users
    ensures var devices := DevicesOf(users[u]);
      var mine := AccessTokens(devices, devices.Keys);
      && Injective(devices)
      && mine <= access.Keys
      && (forall t :: t in access ==> (t in mine <==> access[t].user == u))
      && Matched(users - {u}, access - mine)
  {
  }

  lemma {:induction false} InjectiveMapSize(m: map<string, string>, ys: set<string>)
    requires forall x :: x in m ==> m[x] in ys
    requires forall x, x' :: x in m && x' in m && m[x] == m[x'] ==> x == x'
    ensures |m| <= |ys|
    decreases |m|
  {
    if m != map[] {
      var x := Pick(m.Keys);
      InjectiveMapSize(m - {x}, ys - {m[x]});
    }
  }

  /**
   * In every reachable state there are as many access tokens as devices, and no more refresh tokens than access tokens.
   */
  lemma {:induction false} TokensConserved(sha: Hash, steps: seq<Step>)
    requires LegalRun(sha, EMPTY, steps)
    ensures var s := Exec(sha, EMPTY, steps);
      |s.access| == DeviceTotal(s.users) && |s.refresh| <= |s.access|
  {
    var s := Exec(sha, EMPTY, steps);
    ReachableInv(sha, steps);
    InvMatches(s);
    CountMatched(s.users, s.access);
    forall r, r' | r in s.refresh && r' in s.refresh && s.refresh[r] == s.refresh[r'] ensures r == r' {
      assert RefreshHeld(s, r) && RefreshHeld(s, r');
    }
    forall r | r in s.refresh ensures s.refresh[r] in s.access.Keys { assert RefreshHeld(s, r); }
    InjectiveMapSize(s.refresh, s.access.Keys);
  }

  lemma InvMatches(s: Store)
    requires Inv(s)
    ensures Matched(s.users, s.access)
  {
    forall t | t in s.access
      ensures && s.access[t].user in s.users && s.access[t].device in DevicesOf(s.users[s.access[t].user])
              && DevicesOf(s.users[s.access[t].user])[s.access[t].device].accessToken == Some(t)
    {
      assert AccessHeld(s, t);
    }
    forall u, d | u in s.users && d in DevicesOf(s.users[u])
      ensures var token := DevicesOf(s.users[u])[d].accessToken;
        token.Some? && token.value in s.access && s.access[token.value].user == u && s.access[token.value].device == d
    {
      assert HasDevice(s, u, d) && DeviceOk(s, u, d);
    }
  }
}
