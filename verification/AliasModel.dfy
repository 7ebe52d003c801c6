/**
 * The room alias directory of RouteAliasDirectory.c and RouteRoomAliases.c: a map from aliases to rooms and a
 * reverse index from rooms to lists of aliases, both kept up to date by hand.
 */
module AliasModel {
  import opened Options
  import Identifiers
  import Privileges

  datatype Alias = Alias(createdBy: string, room: string)

  // rooms holds the list under "aliases" of each room that ever had one.
  datatype Directory = Directory(aliases: map<string, Alias>, rooms: map<string, seq<string>>)

  const EMPTY := Directory(map[], map[])

  // An authenticated user, with the privileges stored for them.
  datatype User = User(name: string, privileges: Option<Privileges.Json>)

  // The body of a PUT: not JSON at all, or JSON whose room_id may be missing or not a string.
  datatype Body = NotJson | Json(room: Option<string>)

  datatype Reply =
    | Done
    | InvalidAlias | UnknownToken | InvalidServer | Conflict | BadJson | MissingRoom | InvalidRoom
    | NotFound | Unauthorized

  predicate IsAlias(alias: string) {
    Identifiers.ValidCommonId(alias, '#')
  }

  // The server the alias belongs to is this one.
  predicate OnServer(alias: string, serverName: string)
    requires IsAlias(alias)
  {
    var part := Identifiers.ParseCommonId(alias).value.server;
    part.Some? && Identifiers.Recompose(part.value) == serverName
  }

  function PutReply(s: Directory, user: Option<User>, alias: string, serverName: string, body: Body): Reply {
    if !IsAlias(alias) then InvalidAlias
    else if user.None? then UnknownToken
    else if !OnServer(alias, serverName) then InvalidServer
    else if alias in s.aliases then Conflict
    else if body.NotJson? then BadJson
    else if body.room.None? then MissingRoom
    else if !Identifiers.ValidCommonId(body.room.value, '!') then InvalidRoom
    else Done
  }

  // The aliases listed for a room.
  function Listed(s: Directory, room: string): seq<string> {
    if room in s.rooms then s.rooms[room] else []
  }

  function Put(s: Directory, user: Option<User>, alias: string, serverName: string, body: Body): Directory {
    if !PutReply(s, user, alias, serverName, body).Done? then s else
    var room := body.room.value;
    Directory(s.aliases[alias := Alias(user.value.name, room)], s.rooms[room := Listed(s, room) + [alias]])
  }

  predicate MayDelete(s: Directory, user: User, alias: string)
    requires alias in s.aliases
  {
    Privileges.Has(Privileges.Fetch(user.privileges), Privileges.Alias) || user.name == s.aliases[alias].createdBy
  }

  function DeleteReply(s: Directory, user: Option<User>, alias: string): Reply {
    if !IsAlias(alias) then InvalidAlias
    else if user.None? then UnknownToken
    else if alias !in s.aliases then NotFound
    else if !MayDelete(s, user.value, alias) then Unauthorized
    else Done
  }

  // The list without its first occurrence of x.
  function Without(xs: seq<string>, x: string): seq<string> {
    if xs == [] then [] else if xs[0] == x then xs[1..] else [xs[0]] + Without(xs[1..], x)
  }

  function Delete(s: Directory, user: Option<User>, alias: string): Directory {
    if !DeleteReply(s, user, alias).Done? then s else
    var room := s.aliases[alias].room;
    Directory(s.aliases - {alias},
              if room in s.rooms then s.rooms[room := Without(s.rooms[room], alias)] else s.rooms)
  }

  // RouteRoomAliases for a user allowed to see the list; None for a room that never had an alias.
  function RoomAliases(s: Directory, room: string): Option<seq<string>> {
    if room in s.rooms then Some(s.rooms[room]) else None
  }

  datatype Step =
    | DoPut(user: Option<User>, alias: string, serverName: string, body: Body)
    | DoDelete(user: Option<User>, alias: string)

  function Next(s: Directory, step: Step): Directory {
    match step
    case DoPut(user, alias, serverName, body) => Put(s, user, alias, serverName, body)
    case DoDelete(user, alias) => Delete(s, user, alias)
  }

  function Exec(s: Directory, steps: seq<Step>): Directory
    decreases |steps|
  {
    if steps == [] then s else Exec(Next(s, steps[0]), steps[1..])
  }
}
