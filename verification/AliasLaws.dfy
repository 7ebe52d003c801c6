/**
 * The alias routes answer by answer: who may do what, and what changes.
 */
module AliasLaws {
  import opened Options
  import opened AliasModel
  import AliasDirectory
  import Identifiers
  import Privileges

  // The server that an alias names, as it is written; nothing for a text that is no alias.
  function ServerOf(alias: string): Option<string> {
    match Identifiers.ParseCommonId(alias)
    case None => None
    case Some(id) =>
      if id.sigil == '#' && id.server.Some? then Some(Identifiers.Recompose(id.server.value)) else None
  }

  lemma AliasNamesServer(alias: string)
    ensures IsAlias(alias) <==> ServerOf(alias).Some?
    ensures IsAlias(alias) ==> forall name :: OnServer(alias, name) <==> ServerOf(alias) == Some(name)
  {
  }

  /**
   * PUT makes an alias exactly for a caller who is known, an alias of this server that is free, and a body with a room
   * ID; the caller is its creator. It then maps to the room and stands last in the room's list, and nothing else
   * changes.
   */
  lemma {:induction false} PutEffect(s: Directory, user: Option<User>, alias: string, serverName: string, body: Body)
    ensures var s', reply := Put(s, user, alias, serverName, body), PutReply(s, user, alias, serverName, body);
      if ServerOf(alias).None? then reply == InvalidAlias && s' == s
      else if user.None? then reply == UnknownToken && s' == s
      else if ServerOf(alias) != Some(serverName) then reply == InvalidServer && s' == s
      else if alias in s.aliases then reply == Conflict && s' == s
      else if body.NotJson? then reply == BadJson && s' == s
      else if body.room.None? then reply == MissingRoom && s' == s
      else if !Identifiers.ValidCommonId(body.room.value, '!') then reply == InvalidRoom && s' == s
      else
        && reply == Done
        && s'.aliases == s.aliases[alias := Alias(user.value.name, body.room.value)]
        && Listed(s', body.room.value) == Listed(s, body.room.value) + [alias]
        && forall r :: r != body.room.value ==> RoomAliases(s', r) == RoomAliases(s, r)
  {
    AliasNamesServer(alias);
  }

  // The caller made the alias, or their stored array names the privilege for it.
  predicate Owns(s: Directory, user: User, alias: string)
    requires alias in s.aliases
  {
    || user.name == s.aliases[alias].createdBy
    || (user.privileges.Some? && Privileges.Names(user.privileges.value, Privileges.Alias))
  }

  /**
   * DELETE removes an alias exactly for its creator and for callers whose stored array names ALIAS, whatever server the
   * alias is of. It then maps to nothing and one entry for it is gone from its room's list; nothing else changes.
   */
  lemma {:induction false} DeleteEffect(s: Directory, user: Option<User>, alias: string)
    ensures var s', reply := Delete(s, user, alias), DeleteReply(s, user, alias);
      if ServerOf(alias).None? then reply == InvalidAlias && s' == s
      else if user.None? then reply == UnknownToken && s' == s
      else if alias !in s.aliases then reply == NotFound && s' == s
      else if !Owns(s, user.value, alias) then reply == Unauthorized && s' == s
      else
        var room := s.aliases[alias].room;
        && reply == Done
        && s'.aliases == s.aliases - {alias}
        && multiset(Listed(s', room)) == multiset(Listed(s, room)) - multiset{alias}
        && forall r :: r != room ==> RoomAliases(s', r) == RoomAliases(s, r)
  {
    AliasNamesServer(alias);
    if user.Some? && alias in s.aliases {
      OwnersMayDelete(s, user.value, alias);
      AliasDirectory.WithoutRemovesOne(Listed(s, s.aliases[alias].room), alias);
    }
  }

  lemma OwnersMayDelete(s: Directory, user: User, alias: string)
    requires alias in s.aliases
    ensures MayDelete(s, user, alias) <==> Owns(s, user, alias)
  {
    if user.privileges.Some? { Privileges.DecodeNames(user.privileges.value, Privileges.Alias); }
  }
}
