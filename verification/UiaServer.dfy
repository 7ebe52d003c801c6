/**
 * User-interactive authentication and registration tokens updated in place, as Uia.c and RegToken.c do:
 * the loops of UiaComplete, the token handle that mirrors the stored JSON, and the purge loop, each proved
 * against UiaModel.
 */
module UiaServer {
  import opened Characters
  import opened Options
  import opened UiaModel
  import Privileges

  // The in-memory copy of a stored registration token.
  class RegTokenInfo {
    const name: string
    const createdBy: string
    const createdOn: nat
    const expiresOn: nat
    const uses: int
    const grants: Privileges.Json
    var used: int

    constructor (name: string, token: RegToken)
      ensures this.name == name && ToJson() == token
    {
      this.name := name;
      createdBy, createdOn, expiresOn := token.createdBy, token.createdOn, token.expiresOn;
      used, uses, grants := token.used, token.uses, token.grants;
    }

    function ToJson(): RegToken
      reads this
    {
      RegToken(createdBy, createdOn, expiresOn, used, uses, grants)
    }
  }

  class UiaDb {
    var sessions: map<string, Session>
    var tokens: map<string, RegToken>
    var now: nat

    constructor ()
      ensures View() == EMPTY
    {
      sessions, tokens, now := map[], map[], 0;
    }

    ghost function View(): State
      reads this
    {
      State(sessions, tokens, now)
    }

    // The handle says what is stored.
    ghost predicate Synced(info: RegTokenInfo)
      reads this, info
    {
      info.name in tokens && tokens[info.name] == info.ToJson()
    }

    // ---------- Registration tokens ----------

    method RegTokenGetInfo(name: string) returns (info: RegTokenInfo?)
      ensures info == null <==> name !in tokens
      ensures info != null ==> fresh(info) && info.name == name && Synced(info)
    {
      if name !in tokens {
        return null;
      }
      info := new RegTokenInfo(name, tokens[name]);
    }

    method RegTokenValid(info: RegTokenInfo?) returns (valid: bool)
      ensures valid <==> info != null && TokenValid(View(), info.name)
    {
      if info == null || info.name !in tokens {
        return false;
      }
      var json := tokens[info.name];
      return (json.expiresOn == 0 || now < json.expiresOn) && (json.uses == -1 || json.used < json.uses);
    }

    /** Using a stored token that still can be used counts one use, in memory and in the store alike. */
    method RegTokenUse(info: RegTokenInfo)
      modifies this`tokens, info`used
      ensures var usable := info.name in old(tokens) && !(info.uses >= 0 && old(info.used) >= info.uses);
        && info.used == old(info.used) + (if usable then 1 else 0)
        && tokens ==
           if usable then old(tokens)[info.name := old(tokens)[info.name].(used := info.used)] else old(tokens)
      ensures old(Synced(info)) ==> Synced(info)
    {
      if info.name !in tokens {
        return;
      }
      if info.uses >= 0 && info.used >= info.uses {
        return;
      }
      info.used := info.used + 1;
      tokens := tokens[info.name := tokens[info.name].(used := info.used)];
    }

    /** Closing writes the handle back; for a handle in step with the store that changes nothing. */
    method RegTokenClose(info: RegTokenInfo)
      modifies this`tokens
      ensures tokens == old(tokens)[info.name := info.ToJson()]
      ensures Synced(info)
      ensures old(Synced(info)) ==> tokens == old(tokens)
    {
      tokens := tokens[info.name := info.ToJson()];
    }

    method RegTokenDelete(info: RegTokenInfo?) returns (ok: bool)
      modifies this`tokens
      ensures ok <==> info != null
      ensures tokens == if info == null then old(tokens) else old(tokens) - {info.name}
    {
      if info == null {
        return false;
      }
      RegTokenClose(info);
      tokens := tokens - {info.name};
      return true;
    }

    method RegTokenVerify(token: string) returns (ok: bool)
      ensures ok <==> TokenName(token)
    {
      if |token| > 64 {
        return false;
      }
      var i := 0;
      while i < |token|
        invariant 0 <= i <= |token|
        invariant forall k :: 0 <= k < i ==> TokenChar(token[k])
      {
        var c := token[i];
        if !(IsAlnum(c) || c == '0' || c == '_' || c == '~' || c == '-') {
          assert c in token && !TokenChar(c);
          return false;
        }
        i := i + 1;
      }
      return true;
    }

    // The new object has no members until the handle is closed.
    method RegTokenCreate(name: string, owner: string, expires: nat, uses: int, privileges: Privileges.Bits)
      returns (info: RegTokenInfo?)
      modifies this`tokens
      ensures info != null <==> old(TokenCreatable(View(), name, expires, uses))
      ensures tokens == if info != null then old(tokens)[name := BLANK] else old(tokens)
      ensures info != null ==> fresh(info) && info.name == name
      ensures info != null ==> info.ToJson() == NewToken(old(View()), owner, expires, uses, privileges)
    {
      if uses < -1 {
        return null;
      }
      var verified := RegTokenVerify(name);
      if !verified || (expires > 0 && expires < now) {
        return null;
      }
      if name in tokens {
        return null;
      }
      tokens := tokens[name := BLANK];
      info := new RegTokenInfo(name, RegToken(owner, now, expires, 0, uses, Privileges.Encode(privileges)));
    }

    // The POST branch of RouteAdminTokens for a request that is well formed.
    method RouteAdminTokens(name: string, owner: string, expires: nat, uses: int, privileges: Privileges.Bits)
      returns (ok: bool)
      modifies this`tokens
      ensures ok <==> old(TokenCreatable(View(), name, expires, uses))
      ensures View() == CreateToken(old(View()), name, owner, expires, uses, privileges)
    {
      var info := RegTokenCreate(name, owner, expires, uses, privileges);
      if info == null {
        return false;
      }
      RegTokenClose(info);
      return true;
    }

    // ---------- Sessions ----------

    // BuildResponse without a session: store a new one.
    method CreateSession(flows: seq<Flow>, newId: string) returns (reply: Reply)
      modifies this`sessions
      ensures (View(), reply) == NewSession(flows, old(View()), newId)
    {
      if newId in sessions {
        return Internal;
      }
      sessions := sessions[newId := Session([], now, None, None)];
      return Challenge(newId, [], flows);
    }

    // The search through the flows: whether one is completed, and otherwise the parallel arrays of next stages and
    // of the stages each flow has left. remaining holds sixteen entries, so callers offer at most sixteen flows.
    method SearchFlows(flows: seq<Flow>, completed: seq<string>, remaining: array<int>)
      returns (matched: bool, possibleNext: seq<string>)
      requires remaining.Length == 16 && |flows| <= 16
      modifies remaining
      ensures matched <==> completed in flows
      ensures !matched ==> Mirrors(Candidates(flows, |completed|), possibleNext, remaining[..])
    {
      possibleNext := [];
      var i := 0;
      while i < |flows|
        invariant 0 <= i <= |flows|
        invariant |possibleNext| <= i
        invariant completed !in flows[..i]
        invariant Mirrors(Candidates(flows[..i], |completed|), possibleNext, remaining[..])
      {
        var stages := flows[i];
        assert flows[..i + 1][..i] == flows[..i];
        if |stages| > |completed| {
          ghost var before := remaining[..];
          possibleNext := possibleNext + [stages[|completed|]];
          remaining[|possibleNext| - 1] := |stages| - |completed|;
          assert remaining[..] == before[|possibleNext| - 1 := |stages| - |completed|];
        } else if |stages| == |completed| {
          var j := 0;
          while j < |stages| && stages[j] == completed[j]
            invariant 0 <= j <= |stages|
            invariant stages[..j] == completed[..j]
          {
            j := j + 1;
          }
          if j == |stages| {
            assert stages == stages[..j] && completed == completed[..j];
            return true, possibleNext;
          }
        }
        i := i + 1;
      }
      assert flows[..i] == flows;
      return false, possibleNext;
    }

    // The position of the presented stage among the next stages, or their number when it is not one of them.
    method FindStage(possibleNext: seq<string>, stage: string, ghost cs: seq<Candidate>, remaining: array<int>)
      returns (i: nat)
      requires Mirrors(cs, possibleNext, remaining[..])
      ensures i <= |possibleNext| <= remaining.Length
      ensures i == |possibleNext| <==> Remaining(cs, stage).None?
      ensures i < |possibleNext| ==> Remaining(cs, stage) == Some(remaining[i])
    {
      i := 0;
      while i < |possibleNext| && stage != possibleNext[i]
        invariant 0 <= i <= |possibleNext|
        invariant Remaining(cs, stage) == Remaining(cs[i..], stage)
      {
        assert cs[i..][1..] == cs[i + 1..];
        i := i + 1;
      }
    }

    // The stored tokens with one more use of one of them.
    ghost function UsedOnce(name: string): map<string, RegToken>
      reads this`tokens
      requires name in tokens
    {
      tokens[name := tokens[name].(used := tokens[name].used + 1)]
    }

    // The registration-token stage: find the token, check it, use it and write it back.
    method UseRegistrationToken(token: Option<string>) returns (ok: bool)
      modifies this`tokens
      ensures ok <==> token.Some? && TokenValid(old(View()), token.value)
      ensures ok ==> tokens == old(UsedOnce(token.value))
      ensures !ok ==> tokens == old(tokens)
    {
      if token.None? || token.value !in tokens {
        return false;
      }
      var info := RegTokenGetInfo(token.value);
      var valid := RegTokenValid(info);
      if !valid {
        RegTokenClose(info);
        return false;
      }
      RegTokenUse(info);
      RegTokenClose(info);
      return true;
    }

    // Check the evidence for a stage; a registration token that is good is used up by one.
    method CheckStage(id: string, stage: string, auth: Auth) returns (ok: bool)
      requires id in sessions
      modifies this`tokens, this`sessions
      ensures ok <==> Verified(old(View()), stage, auth)
      ensures !ok ==> View() == old(View())
      ensures ok && stage == REGISTRATION ==>
        && tokens == old(UsedOnce(auth.token.value))
        && sessions == old(sessions)[id := old(sessions)[id].(registrationToken := auth.token)]
      ensures ok && stage != REGISTRATION ==> tokens == old(tokens) && sessions == old(sessions)
    {
      if stage == DUMMY {
        return true;
      } else if stage == PASSWORD {
        return auth.passwordOk;
      } else if stage == REGISTRATION {
        ok := UseRegistrationToken(auth.token);
        if ok {
          sessions := sessions[id := sessions[id].(registrationToken := auth.token)];
        }
      } else {
        return false;
      }
    }

    /** UiaComplete. */
    method UiaComplete(flows: seq<Flow>, request: Request, newId: string) returns (reply: Reply)
      requires |flows| <= 16
      modifies this`sessions, this`tokens
      ensures (View(), reply) == Complete(flows, old(View()), request, newId)
    {
      match request
      case NoAuth =>
        reply := CreateSession(flows, newId);
      case AuthNotObject =>
        reply := BadJson;
      case WithAuth(auth) =>
        if auth.session.None? {
          return BadJson;
        }
        if auth.session.value !in sessions {
          reply := CreateSession(flows, newId);
          return;
        }
        reply := CompleteNamed(flows, auth.session.value, auth);
        sessions := sessions[auth.session.value := sessions[auth.session.value].(lastAccess := now)];
    }

    // The part of UiaComplete that runs on an existing session, up to its exit.
    method CompleteNamed(flows: seq<Flow>, id: string, auth: Auth) returns (reply: Reply)
      requires |flows| <= 16 && id in sessions
      modifies this`sessions, this`tokens
      ensures id in sessions
      ensures (Touch(View(), id), reply) == CompleteIn(flows, old(View()), id, auth)
    {
      var completed := sessions[id].completed;
      var remaining := new int[16];
      var matched, possibleNext := SearchFlows(flows, completed, remaining);
      if matched {
        return Passed;
      }
      if auth.stage.None? {
        return BadJson;
      }
      var stage := auth.stage.value;
      var i := FindStage(possibleNext, stage, Candidates(flows, |completed|), remaining);
      if i == |possibleNext| {
        return Challenge(id, completed, flows);
      }
      var ok := CheckStage(id, stage, auth);
      if !ok {
        return Challenge(id, completed, flows);
      }
      sessions := sessions[id := sessions[id].(completed := completed + [stage])];
      ghost var s := old(View());
      assert Accepted(flows, s, id, auth);
      assert View() == Accept(s, id, stage, auth);
      if remaining[i] - 1 > 0 {
        return Challenge(id, sessions[id].completed, flows);
      }
      return Passed;
    }

    /** UiaCleanup: a loop over a list of the sessions made beforehand. */
    method UiaCleanup()
      modifies this`sessions
      ensures View() == Cleanup(old(View()))
    {
      var pending := sessions.Keys;
      ghost var was := sessions;
      while pending != {}
        invariant pending <= sessions.Keys
        invariant forall id :: id in sessions <==>
          id in was && (id in pending || now - was[id].lastAccess <= IDLE_MS)
        invariant forall id :: id in sessions ==> sessions[id] == was[id]
        decreases |pending|
      {
        var id :| id in pending;
        pending := pending - {id};
        if now - sessions[id].lastAccess > 1000 * 60 * 15 {
          sessions := sessions - {id};
        }
      }
    }
  }

  // The two parallel arrays hold the candidates.
  ghost predicate Mirrors(cs: seq<Candidate>, possibleNext: seq<string>, remaining: seq<int>) {
    && |possibleNext| == |cs| <= |remaining|
    && forall i :: 0 <= i < |cs| ==> possibleNext[i] == cs[i].stage && remaining[i] == cs[i].remaining
  }
}
