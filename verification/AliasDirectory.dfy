/**
 * The alias directory updated in place, and what makes it one directory: the index agrees with the map.
 */
module AliasDirectory {
  import opened Options
  import opened AliasModel
  import Identifiers
  import Privileges

  // ---------- The index agrees with the map ----------

  // Room r lists alias a exactly once if a maps to r, and not at all otherwise.
  ghost predicate ListedRight(s: Directory, r: string, a: string) {
    multiset(Listed(s, r))[a] == if a in s.aliases && s.aliases[a].room == r then 1 else 0
  }

  ghost predicate Agrees(s: Directory) {
    forall r, a :: ListedRight(s, r, a)
  }

  lemma {:induction false} WithoutRemovesOne(xs: seq<string>, x: string)
    ensures multiset(Without(xs, x)) == multiset(xs) - multiset{x}
    ensures x !in xs ==> Without(xs, x) == xs
  {
    if xs != [] {
      assert xs == [xs[0]] + xs[1..];
      WithoutRemovesOne(xs[1..], x);
    }
  }

  lemma PutAgrees(s: Directory, user: Option<User>, alias: string, serverName: string, body: Body)
    requires Agrees(s)
    ensures Agrees(Put(s, user, alias, serverName, body))
  {
    var s' := Put(s, user, alias, serverName, body);
    forall r, a ensures ListedRight(s', r, a) {
      assert ListedRight(s, r, a);
      if s' != s && r == body.room.value {
        assert multiset(Listed(s, r) + [alias]) == multiset(Listed(s, r)) + multiset{alias};
      }
    }
  }

  // Taking an alias out of the map and out of its room's list.
  lemma RemovalAgrees(s: Directory, alias: string, s': Directory)
    requires Agrees(s) && alias in s.aliases && s'.aliases == s.aliases - {alias}
    requires forall r ::
      Listed(s', r) == if r == s.aliases[alias].room then Without(Listed(s, r), alias) else Listed(s, r)
    ensures Agrees(s')
  {
    forall r, a ensures ListedRight(s', r, a) {
      assert ListedRight(s, r, a);
      WithoutRemovesOne(Listed(s, r), alias);
    }
  }

  lemma DeleteAgrees(s: Directory, user: Option<User>, alias: string)
    requires Agrees(s)
    ensures Agrees(Delete(s, user, alias))
  {
    if DeleteReply(s, user, alias).Done? {
      RemovalAgrees(s, alias, Delete(s, user, alias));
    }
  }

  lemma {:induction false} RunAgrees(s: Directory, steps: seq<Step>)
    requires Agrees(s)
    ensures Agrees(Exec(s, steps))
    decreases |steps|
  {
    if steps != [] {
      match steps[0] {
        case DoPut(user, alias, serverName, body) => PutAgrees(s, user, alias, serverName, body);
        case DoDelete(user, alias) => DeleteAgrees(s, user, alias);
      }
      RunAgrees(Next(s, steps[0]), steps[1..]);
    }
  }

  /**
   * In every reachable state the room of each list entry is the room its alias maps to, and a room's list contains
   * every alias that maps to the room exactly once.
   */
  lemma {:induction false} ReachableAgrees(steps: seq<Step>, r: string, a: string)
    ensures ListedRight(Exec(EMPTY, steps), r, a)
  {
    assert Agrees(EMPTY);
    RunAgrees(EMPTY, steps);
  }

  /** The reader of the index answers with exactly the aliases of the room, without repetition. */
  lemma {:induction false} ReaderIsRight(steps: seq<Step>, r: string)
    ensures var s := Exec(EMPTY, steps);
      var answer := if RoomAliases(s, r).Some? then RoomAliases(s, r).value else [];
      && (forall a :: a in answer <==> a in s.aliases && s.aliases[a].room == r)
      && (forall i, j :: 0 <= i < j < |answer| ==> answer[i] != answer[j])
  {
    var s := Exec(EMPTY, steps);
    var xs := Listed(s, r);
    forall a ensures a in xs <==> a in s.aliases && s.aliases[a].room == r { ReachableAgrees(steps, r, a); }
    forall i, j | 0 <= i < j < |xs| ensures xs[i] != xs[j] {
      ReachableAgrees(steps, r, xs[i]);
      if xs[i] == xs[j] { TwiceListed(xs, i, j); }
    }
  }

  lemma TwiceListed(xs: seq<string>, i: nat, j: nat)
    requires i < j < |xs| && xs[i] == xs[j]
    ensures multiset(xs)[xs[i]] >= 2
  {
    assert xs == xs[..j] + xs[j..];
    assert xs[..j][i] == xs[i] && xs[j..][0] == xs[i];
    assert multiset(xs) == multiset(xs[..j]) + multiset(xs[j..]);
  }

  // ---------- Counting ----------

  /** The lengths of all lists together. */
  ghost function ListTotal(rooms: map<string, seq<string>>): nat
    decreases |rooms|
  {
    if rooms == map[] then 0 else
    var r := Pick(rooms.Keys);
    |rooms[r]| + ListTotal(rooms - {r})
  }

  ghost function OfRoom(aliases: map<string, Alias>, r: string): set<string> {
    set a | a in aliases && aliases[a].room == r
  }

  // The list of a room is an enumeration of a set.
  lemma {:induction false} EnumerationSize(xs: seq<string>, ys: set<string>)
    requires forall a :: multiset(xs)[a] == if a in ys then 1 else 0
    ensures |xs| == |ys|
    decreases |xs|
  {
    if xs == [] {
      forall y ensures y !in ys { assert multiset(xs)[y] == if y in ys then 1 else 0; }
    } else {
      assert xs == [xs[0]] + xs[1..];
      assert multiset(xs) == multiset{xs[0]} + multiset(xs[1..]);
      assert multiset(xs)[xs[0]] == 1;
      EnumerationSize(xs[1..], ys - {xs[0]});
    }
  }

  lemma {:induction false} TotalIsSize(aliases: map<string, Alias>, rooms: map<string, seq<string>>)
    requires forall r, a :: ListedRight(Directory(aliases, rooms), r, a)
    ensures ListTotal(rooms) == |aliases|
    decreases |rooms|
  {
    var s := Directory(aliases, rooms);
    if rooms == map[] {
      forall a ensures a !in aliases { assert a in aliases ==> ListedRight(s, aliases[a].room, a); }
      assert aliases == map[];
    } else {
      var r := Pick(rooms.Keys);
      var mine := OfRoom(aliases, r);
      forall a ensures multiset(rooms[r])[a] == if a in mine then 1 else 0 { assert ListedRight(s, r, a); }
      EnumerationSize(rooms[r], mine);
      WithoutRoom(aliases, rooms, r);
      TotalIsSize(aliases - mine, rooms - {r});
      assert aliases.Keys == mine + (aliases - mine).Keys;
    }
  }

  lemma WithoutRoom(aliases: map<string, Alias>, rooms: map<string, seq<string>>, r: string)
    requires forall x, a :: ListedRight(Directory(aliases, rooms), x, a)
    ensures forall x, a :: ListedRight(Directory(aliases - OfRoom(aliases, r), rooms - {r}), x, a)
  {
    var s' := Directory(aliases - OfRoom(aliases, r), rooms - {r});
    forall x, a ensures ListedRight(s', x, a) { assert ListedRight(Directory(aliases, rooms), x, a); }
  }

  /** In every reachable state the lists together are as long as there are aliases. */
  lemma {:induction false} ListsCountAliases(steps: seq<Step>)
    ensures var s := Exec(EMPTY, steps); ListTotal(s.rooms) == |s.aliases|
  {
    var s := Exec(EMPTY, steps);
    assert Agrees(EMPTY);
    RunAgrees(EMPTY, steps);
    TotalIsSize(s.aliases, s.rooms);
  }

  // ---------- Undoing ----------

  lemma {:induction false} WithoutLast(xs: seq<string>, x: string)
    requires x !in xs
    ensures Without(xs + [x], x) == xs
  {
    if xs != [] {
      WithoutLast(xs[1..], x);
      assert (xs + [x])[1..] == xs[1..] + [x];
    }
  }

  /** Deleting an alias its creator has just made restores the map and every room's list. */
  lemma {:induction false} DeleteUndoesPut(s: Directory, user: User, alias: string, serverName: string, body: Body)
    requires Agrees(s) && PutReply(s, Some(user), alias, serverName, body).Done?
    ensures var s' := Delete(Put(s, Some(user), alias, serverName, body), Some(user), alias);
      && DeleteReply(Put(s, Some(user), alias, serverName, body), Some(user), alias).Done?
      && s'.aliases == s.aliases
      && forall r :: Listed(s', r) == Listed(s, r)
  {
    var room := body.room.value;
    assert ListedRight(s, room, alias);
    assert alias !in Listed(s, room);
    WithoutLast(Listed(s, room), alias);
  }

  // ---------- The directory in place ----------

  class AliasDb {
    var aliases: map<string, Alias>
    var rooms: map<string, seq<string>>

    ghost function View(): Directory
      reads this
    {
      Directory(aliases, rooms)
    }

    constructor ()
      ensures View() == EMPTY
    {
      aliases, rooms := map[], map[];
    }

    // The checks of a PUT, in order.
    method CheckPut(user: Option<User>, alias: string, serverName: string, body: Body) returns (reply: Reply)
      ensures reply == PutReply(View(), user, alias, serverName, body)
    {
      if !IsAlias(alias) {
        return InvalidAlias;
      }
      if user.None? {
        return UnknownToken;
      }
      if !OnServer(alias, serverName) {
        return InvalidServer;
      }
      if alias in aliases {
        return Conflict;
      }
      if body.NotJson? {
        return BadJson;
      }
      if body.room.None? {
        return MissingRoom;
      }
      var valid := Identifiers.ValidCommonId(body.room.value, '!');
      return if valid then Done else InvalidRoom;
    }

    method PutAlias(user: Option<User>, alias: string, serverName: string, body: Body) returns (reply: Reply)
      modifies this
      ensures reply == PutReply(old(View()), user, alias, serverName, body)
      ensures View() == Put(old(View()), user, alias, serverName, body)
    {
      reply := CheckPut(user, alias, serverName, body);
      if !reply.Done? {
        return;
      }
      AddAlias(user.value.name, alias, body.room.value);
    }

    // Set the alias, then add it to the room's list, made first if the room has none.
    method AddAlias(creator: string, alias: string, room: string)
      modifies this
      ensures aliases == old(aliases)[alias := Alias(creator, room)]
      ensures rooms == old(rooms)[room := Listed(old(View()), room) + [alias]]
    {
      aliases := aliases[alias := Alias(creator, room)];
      if room !in rooms {
        rooms := rooms[room := []];
      }
      rooms := rooms[room := rooms[room] + [alias]];
    }

    method DeleteAlias(user: Option<User>, alias: string) returns (reply: Reply)
      modifies this
      ensures reply == DeleteReply(old(View()), user, alias)
      ensures View() == Delete(old(View()), user, alias)
    {
      if !IsAlias(alias) {
        return InvalidAlias;
      }
      if user.None? {
        return UnknownToken;
      }
      if alias !in aliases {
        return NotFound;
      }
      var room := aliases[alias].room;
      if !Privileges.Has(Privileges.Fetch(user.value.privileges), Privileges.Alias)
         && user.value.name != aliases[alias].createdBy
      {
        return Unauthorized;
      }
      aliases := aliases - {alias};
      if room in rooms {
        var list := RemoveFirst(rooms[room], alias);
        rooms := rooms[room := list];
      }
      return Done;
    }
  }

  // The search loop of DELETE: the first occurrence found is taken out of the list.
  method RemoveFirst(arr: seq<string>, alias: string) returns (arr': seq<string>)
    ensures arr' == Without(arr, alias)
  {
    var i := 0;
    while i < |arr|
      invariant 0 <= i <= |arr|
      invariant Without(arr, alias) == arr[..i] + Without(arr[i..], alias)
    {
      if arr[i] == alias {
        return arr[..i] + arr[i + 1..];
      }
      assert arr[i..][1..] == arr[i + 1..];
      assert arr[..i + 1] == arr[..i] + [arr[i]];
      i := i + 1;
    }
    assert arr[..i] == arr;
    return arr;
  }
}
