# Telodendria: sessions, interactive authentication, canonical JSON, aliases and identifiers

Telodendria is a Matrix homeserver over a flat-file JSON store. This Dafny project models the five parts of it that
decide something and proves what they promise. `dafny verify dfyconfig.toml` checks all of it.

| modules | part |
|---|---|
| `SessionModel`, `SessionInvariant`, `SessionTheorems`, `SessionLaws`, `SessionStore`, `Privileges` | users, devices, access and refresh tokens, privileges |
| `UiaModel`, `UiaTheorems`, `UiaFlows`, `UiaLaws`, `UiaServer` | user-interactive authentication (UIA) and registration tokens |
| `EndpointModel`, `EndpointTheorems`, `EndpointPasswords`, `EndpointLaws`, `EndpointServer` | the endpoints that run UIA and then act: registration, password change, deactivation, fallback |
| `CanonicalJson`, `CanonicalJsonParser`, `CanonicalJsonTheorems`, `CanonicalJsonLanguage`, `CanonicalJsonOrder` | the canonical JSON encoder and a reference parser for it |
| `AliasModel`, `AliasDirectory`, `AliasLaws` | the room alias map and its reverse index |
| `Identifiers`, `IdentifierParser`, `IdentifierTheorems`, `IdentifierLaws`, `QuadTheorems`, `IPv6Theorems`, `Characters` | user IDs, aliases, server names |

Each part has the same shape. A `...Model` module (or `Identifiers`, or the function `Enc`) says what one operation does,
as a function on values. A class or a group of methods does it the way the C code does, by updating maps, arrays, a
stream or a cursor in loops, and is proved equal to that function. The `...Theorems` are about runs: sequences of any
operations with any arguments, from the empty store or from any state in which the invariant holds. The `...Laws` are
about single answers: what each operation does, in terms of what is stored, written without the functions of the model
that decide it.

The invariant of the session store, `SessionModel.Inv`, is written down nowhere in the source: an access token names a
device exactly when that device holds it, with the expiry it was issued with; a device has a refresh token exactly when
its access token expires, and the token refreshes that same access token; every stored refresh token is held by
exactly one device.

## Assumptions

The Cytoplasm library is not part of this model; these are the facts about it, and about the machine, that are used.

- The database is a map from keys to JSON objects, and the body of a route is one atomic step. Creating an object fails
  if the key exists. The generated conversions between structures and JSON undo each other.
- A hash map is a finite map, iterated in any order; an array is a sequence; sorting gives a sorted permutation.
- Setting a nested JSON member makes the objects that are missing on the way, and does nothing on a null object.
- Tokens are drawn at random and never repeat; they are arguments that must be fresh. SHA-256 is some function, the
  parameter `sha`. The clock does not go back.
- A request is well-formed JSON unless the model says otherwise; the access token a route takes from it is an argument.
- The library that writes JSON strings escapes them as in section 7 of RFC 8259, with the short forms of the Matrix
  Specification v1.7, Appendices, "Canonical JSON". Nothing in the repository shows this, and its own files in `Schema/`
  write "/" as "\/", which canonical JSON does not. Everything said about the bytes of strings turns on this assumption,
  and so do `CanonicalJsonTheorems.ValidExactlyWhenTidy` and `CanonicalJsonLanguage.EncodingsAreCanonical`: a library that
  escapes "/" would make them false, though not the unique decodability of the output.
- A `char` is a byte. The end of a string, and everything beyond it, reads as NUL.
- Integers do not overflow, except where the code relies on it: privilege fields are 32 bits wide, and the length limit
  of a user name is computed modulo 2^64.

## Where the code and its documentation disagree

The model follows the code, and a lemma says exactly how far the promise holds.

- `src/include/User.h:191-196` promises that deactivation logs the user out. Deactivation by an administrator does not:
  `SessionTheorems.AdminDeactivationLogsOut`, `SessionTheorems.BannedUserStillAuthenticates`.
- `src/include/Uia.h:130-133` promises 1 if and only if all stages are completed. With several flows of several stages
  it may not be so: `UiaFlows.MixedFlowsPass`. It is so, over all runs, if and only if the flows satisfy `Unmixed`, which
  can be evaluated before they are offered: `UiaFlows.DocumentedExactlyWhen`. A single flow of any length does, and so do
  the flows of every endpoint: `UiaFlows.EndpointsAreDocumented`.
- `src/Routes/RouteDeactivate.c:86` offers deactivation with a password instead of an access token. It cannot succeed:
  the route then takes the user from the member "user" of the UIA session (line 122), and nothing ever writes that
  member: `EndpointTheorems.TokenlessDeactivationFails`.
- A password change asks for a password (`src/Routes/RouteChangePwd.c:36-47`), but any account's will do: the password
  stage checks the account its identifier names, the route changes that of the access token, and nothing compares the
  two. And it asks once for a session: a session with its password stage behind it changes the password of any access
  token's account, whatever evidence the call presents. `EndpointPasswords.PasswordChangedExactlyWhen`,
  `EndpointPasswords.OwnPasswordExactlyWhen`, `EndpointPasswords.PasswordStageIsReused`, and a run in which it happens:
  `EndpointPasswords.ForeignPasswordAccepted`.
- The uses of a registration token are counted per completed session, not per account: a completed session is not
  consumed, and one use makes any number of accounts. `EndpointTheorems.OneUseManyAccounts`.
- The comment at `src/RegToken.c:178-180` allows a dot in a token; the code refuses it: `UiaTheorems.DotIsRefused`.
- The encoder is to write canonical JSON, but a float at the last index leaves a comma behind:
  `CanonicalJsonTheorems.ValidExactlyWhenTidy`, `CanonicalJsonTheorems.TrailingFloatBreaksJson`.
- The length limit on user names does not count the sigil and the colon, so a name of the greatest length cannot be
  addressed by its full ID: `IdentifierTheorems.RegisteredNameIsAddressable`, `IdentifierTheorems.LongestNameLost`. For
  a server name of 255 characters and more the limit wraps around and is none: `IdentifierTheorems.LengthLimit`.
- A host that begins with a dotted quad is cut after it, "1.2.3.a" for example, and the last group of a quad is neither
  required nor limited: `IdentifierTheorems.ServerReadBack`, `IdentifierTheorems.QuadHostIsCut`,
  `IdentifierTheorems.HostNameIsCut`, `IdentifierTheorems.LastGroupUnchecked`, `QuadTheorems.QuadExactly`.
- A byte above 127 that ends the local part of a full ID right before the colon is dropped, so that two texts name the
  same user: `IdentifierTheorems.FullIdExactly`, `IdentifierTheorems.HighByteIsDropped`.
- In an IPv6 literal the last group and the group before "::" may have any length, and there may be too few groups:
  `IPv6Theorems.IPv6Exactly`, `IPv6Theorems.BareDigitsAccepted`.

## Model

| member | source | states |
|---|---|---|
| `Privileges.UserDecodePrivileges` | src/User.c:781-806 | the decoding loop yields the union of the bits its elements name, elements that are not strings skipped |
| `Privileges.DecodeNames` | src/User.c:781-847 | decoding grants a privilege exactly when the array contains its name or "ALL" |
| `Privileges.WireNames` | src/User.c:808-847 | each name on the wire decodes to its bit of src/include/User.h:60-70, "ALL" to all six, and an element that is not a string to none |
| `Privileges.DecodeIsSetLike` | src/User.c:781-847 | arrays naming the same privileges decode to the same int, whatever their order, repetitions and unknown names |
| `Privileges.EncodeNames` | src/User.c:849-882 | encoding names exactly the privileges held, with or without the "ALL" shorthand |
| `Privileges.SetThenGet` | src/User.c:744-779 | setting any int and getting it back leaves its six defined bits |
| `Privileges.Update` | src/Routes/RoutePrivileges.c:104-129 | after the update of the stored array each privilege is held exactly as the verb, the array before and the request say |
| `Privileges.UpdatedGrants` | src/Routes/RoutePrivileges.c:104-123 | POST, PUT and DELETE replace, extend and reduce the set of privileges |
| `SessionStore.SessionDb.UserAuthenticate` | src/User.c:126-169 | a stored token of a stored user authenticates until it expires, and nothing else does |
| `SessionStore.SessionDb.UserAccessTokenSave` | src/User.c:514-576 | a fresh token is stored with its user, device and a lifetime of one week or none |
| `SessionStore.SessionDb.UserLogin` | src/User.c:238-342 | succeeds exactly for the right password of an active user; the device's old tokens give way to the new ones; keeps the invariant |
| `SessionStore.SessionDb.RouteRefresh` | src/Routes/RouteRefresh.c:84-149 | refreshes exactly the stored refresh tokens, replacing the device's access token; never needs a repair branch; keeps the invariant |
| `SessionStore.SessionDb.UserDeleteToken` | src/User.c:592-668 | deletes a token of this user with its device and refresh token, and nothing when it fails; keeps the invariant |
| `SessionStore.SessionDb.UserDeleteTokens` | src/User.c:699-742 | whatever the iteration order, the loop deletes exactly the devices that do not hold the exempt token; keeps the invariant |
| `SessionStore.SessionDb.UserCreate` | src/User.c:190-236 | creates a user exactly for a free name and a non-empty password; keeps the invariant |
| `SessionStore.SessionDb.UserSetPrivileges` | src/User.c:755-779 | stores the encoded privileges, or removes the key for none; keeps the invariant |
| `SessionStore.SessionDb.RouteLogout` | src/Routes/RouteLogout.c:61-98 | unknown token, unknown path, and logout of one token or of all; a token that authenticates never runs into an internal error; keeps the invariant |
| `SessionLaws.LogoutRouteEffect` | src/Routes/RouteLogout.c:61-98 | without a path exactly the caller's device with its tokens goes; with "all" everything of the caller and nothing of others; for another path or an unknown token nothing; each with its answer |
| `SessionLaws.DeletesOwnOnly` | src/User.c:592-668 | a token is deleted exactly if it is stored for that user |
| `SessionStore.SessionDb.RouteAdminDeactivate` | src/Routes/RouteAdminDeactivate.c:80-110 | sets or clears the mark for callers with the privilege, and touches nothing else; keeps the invariant |
| `SessionLaws.AdminEffect` | src/Routes/RouteAdminDeactivate.c:80-110 | the mark of an existing target is set or cleared, and nothing else changes, exactly for a caller whose token works and whose stored array names DEACTIVATE |
| `SessionStore.SessionDb.RoutePrivileges` | src/Routes/RoutePrivileges.c:46-135 | every answer, in the order of the checks, and the change of the target, or of the caller without one; keeps the invariant |
| `SessionTheorems.PrivilegesEffect` | src/Routes/RoutePrivileges.c:53-135 | a successful answer names exactly the privileges the target then has, which are those asked for by the verb; any other answer means no change |
| `SessionLaws.PrivilegesAnswers` | src/Routes/RoutePrivileges.c:46-135 | each answer exactly when it is due: forbidden exactly for a caller whose token works and whose stored array does not name GRANT_PRIVILEGES |
| `SessionTheorems.EntitledIsAllowed` | src/Routes/RoutePrivileges.c:59-65 | the check of a privilege passes exactly when the caller's token works and their stored array names it |
| `SessionInvariant.StepKeepsInv` | src/User.c:238-742 | every operation on sessions keeps the cross-table invariant |
| `SessionInvariant.ReachableInv` | src/User.c:238-742 | the cross-table invariant holds in every reachable state |
| `SessionInvariant.RunEvolves` | src/User.c:514-576 | over any run users stay, and a token issued before it is stored afterwards only if it was stored already, unchanged |
| `SessionTheorems.AccessBijection` | src/User.c:276-339 | in every reachable state a token names (user, device) exactly when that device holds it |
| `SessionTheorems.RefreshBijection` | src/User.c:283-331 | in every reachable state a refresh token is stored exactly when a device holds it; exactly one does, and it refreshes that device's access token |
| `SessionTheorems.OwnershipFixed` | src/User.c:141-168 | after any run an issued token authenticates, if at all, as the user and device it was issued to |
| `SessionTheorems.AuthenticatesWhile` | src/User.c:126-169 | a token authenticates exactly while stored and, if it came with a refresh token, less than a week old |
| `SessionTheorems.DeathIsPermanent` | src/User.c:141-168 | a token that does not authenticate never does again, whatever follows |
| `SessionTheorems.RepairUnreachable` | src/Routes/RouteRefresh.c:98-134 | neither repair branch can be reached from the empty store |
| `SessionTheorems.RefreshEffect` | src/Routes/RouteRefresh.c:136-149 | one refresh replaces the access token by one that authenticates as the same user and device, and changes no other token |
| `SessionLaws.RefreshLasts` | src/Routes/RouteRefresh.c:136-149 | the new token works for exactly a week, for the same user and device |
| `SessionLaws.RefreshDevice` | src/Routes/RouteRefresh.c:136-149 | of all devices only the token's own changes, and of that only the access token |
| `SessionTheorems.RefreshChain` | src/Routes/RouteRefresh.c:84-149 | over any legal run, time and other users included, a refresh token that is still stored belongs to the device it always did, refreshes the token last drawn with it, and that is the only one naming the device; once gone it never comes back |
| `SessionTheorems.DeactivationIsFinal` | src/Routes/RouteDeactivate.c:135-141 | after self-service deactivation no token authenticates as the user in any run in which no entitled caller reactivates them, refused attempts included |
| `SessionTheorems.AdminDeactivationLogsOut` | src/Routes/RouteAdminDeactivate.c:80-110 | deactivation by an administrator leaves no token of the target exactly when there was no device before |
| `SessionTheorems.BannedUserStillAuthenticates` | src/User.c:431-462 | for all names, a run of two registrations and a ban of the one account by the other, after which the banned user authenticates |
| `SessionTheorems.RegisterLeavesOthers` | src/Routes/RouteRegister.c:179-231 | a registration leaves every other account, its privileges and its working tokens as they were |
| `SessionTheorems.LogoutNeverFails` | src/Routes/RouteLogout.c:61-98 | for a token that authenticates, logout and deactivation cannot run into their error branches |
| `SessionTheorems.BulkLogout` | src/User.c:699-742 | exactly the device with the exempt token remains, both its tokens intact; other users keep everything |
| `SessionTheorems.SingleLogout` | src/User.c:592-668 | exactly the token, its device and the refresh tokens that refresh it disappear |
| `SessionTheorems.LoginEffect` | src/User.c:238-342 | after a login the device has exactly the new tokens, they work, and an existing device keeps its display name |
| `SessionTheorems.LoginKeepsOthers` | src/User.c:276-339 | a login changes nothing of other users or of the user's other devices |
| `SessionLaws.LoginAttempt` | src/User.c:238-342 | an attempt changes nothing for an unknown account, a password whose hash with the stored salt is not the stored one, or a deactivated account, and else logs the device in |
| `SessionLaws.LoginLasts` | src/User.c:514-576 | the token of a login works for exactly a week with a refresh token, and until it is deleted without one |
| `SessionLaws.AccountsAfter` | src/User.c:190-482 | for every step, which accounts there are and which password, salt, mark and privileges each then has: they change only by the steps, and the callers, that may change them |
| `SessionLaws.RegisterPassword` | src/User.c:190-236 | a registration is refused exactly for a taken name or an empty password; after it the passwords with the hash of the one given log in, and no others |
| `SessionTheorems.ChangePasswordEffect` | src/Routes/RouteChangePwd.c:139-158 | an active user logs in with the new password and with no other of a different hash, the caller's token still works, and with bulk logout it is the user's only one |
| `SessionLaws.ChangePasswordTokens` | src/Routes/RouteChangePwd.c:150-156 | without bulk logout no token is touched; with it exactly the caller's device remains, both tokens intact |
| `SessionLaws.DeactivateEffect` | src/Routes/RouteDeactivate.c:135-141 | the user is marked and loses every device and token, and nobody else loses anything |
| `SessionTheorems.TokensConserved` | src/User.c:276-339 | in every reachable state there are as many access tokens as devices and no more refresh than access tokens |
| `UiaServer.RegTokenInfo.constructor` | src/RegToken.c:106-140 | a handle made from a stored token says what is stored |
| `UiaServer.UiaDb.RegTokenGetInfo` | src/RegToken.c:106-140 | a handle exactly for a stored token, in step with the store |
| `UiaServer.UiaDb.RegTokenValid` | src/RegToken.c:38-57 | valid exactly when stored, not expired and not used up |
| `UiaServer.UiaDb.RegTokenUse` | src/RegToken.c:58-78 | counts one use in the handle and in the store alike, or none in either; a handle in step stays in step |
| `UiaServer.UiaDb.RegTokenClose` | src/RegToken.c:151-167 | writes the handle back; for a handle in step that changes nothing |
| `UiaServer.UiaDb.RegTokenDelete` | src/RegToken.c:90-104 | removes the token and nothing else |
| `UiaServer.UiaDb.RegTokenVerify` | src/RegToken.c:168-195 | the loop accepts exactly the names of at most 64 characters out of letters, digits, `_`, `~` and `-` |
| `UiaServer.UiaDb.RegTokenCreate` | src/RegToken.c:197-241 | under exactly the stated conditions the name is taken by an object without members, and the handle holds an unused token with its creator, times and privileges |
| `UiaServer.UiaDb.RouteAdminTokens` | src/Routes/RouteAdminTokens.c:164-193 | creating and closing stores what the handle held, and nothing on refusal |
| `UiaServer.UiaDb.SearchFlows` | src/Uia.c:279-313 | finds whether a flow is completed; otherwise the parallel arrays hold the next stage and rest of each longer flow |
| `UiaServer.UiaDb.FindStage` | src/Uia.c:328-343 | finds the first flow that has the presented stage next |
| `UiaServer.UiaDb.UiaComplete` | src/Uia.c:207-458 | stores and answers what the transition `Complete` says, the offered flows included, for every request and state |
| `UiaServer.UiaDb.UiaCleanup` | src/Uia.c:488-524 | the loop removes exactly the idle sessions |
| `UiaTheorems.AcceptedExactly` | src/Uia.c:279-442 | a stage is accepted exactly when no flow is completed yet, some flow has it next, and its evidence, spelled out by stage, is good |
| `UiaLaws.StageExactly` | src/Uia.c:279-442 | what a session has completed grows by the stage presented exactly under these conditions, and it remembers the token of an accepted registration-token stage |
| `UiaLaws.TokenStageExactly` | src/Uia.c:405-431 | after any run, a registration-token stage that is next is accepted exactly if the token is stored, its expiry at creation is none or to come, and the stages completed with it are fewer than its uses at creation or those are unlimited |
| `UiaLaws.Answers` | src/Uia.c:107-174 | every answer; a challenge carries the session's ID, exactly what it has then completed, and the flows offered |
| `UiaLaws.AccessRecorded` | src/Uia.c:453-457 | a call naming a session records the time and touches no other session |
| `UiaTheorems.CompletedIsLog` | src/Uia.c:345-442 | over any run with any flows, a session has completed exactly the stages accepted in calls naming it since its creation, in order, each once; it remembers the registration token of the last |
| `UiaTheorems.CompletedIsPrefix` | src/Uia.c:279-313 | in any run in which the calls naming a session offer one flow, and other calls any others, what that session has completed is a prefix of the flow |
| `UiaTheorems.EachStageOnce` | src/Uia.c:279-442 | such a session has had exactly the first stages of the flow accepted, one call each |
| `UiaTheorems.PassedExactlyWhenFlowDone` | src/Uia.c:442-451 | a call returns 1 exactly when the session has then completed the flow; an accepted stage shortens the rest by one, any other call leaves it |
| `UiaTheorems.PassedForever` | src/Uia.c:292-312 | once a session has completed the flow every later call naming it returns 1 until it is purged, whatever other sessions do |
| `UiaTheorems.SurvivesFifteenMinutes` | src/Uia.c:455-524 | in any run a session outlives all purges within fifteen minutes of any access, and is purged after that |
| `UiaFlows.DocumentedExactlyWhen` | src/include/Uia.h:130-133 | for any flows, every call in every run answers as documented if and only if, following at each stage the first flow that has it next, a flow ends exactly where a flow has been completed |
| `UiaFlows.AgreeingFlowsAreDocumented` | src/include/Uia.h:130-133 | it suffices that no flow begins another and that two flows agree up to the last stage of either |
| `UiaFlows.EndpointsAreDocumented` | src/Routes/RouteDeactivate.c:81-97 | a single flow of any length, and the flows of every endpoint, are answered for as documented |
| `UiaFlows.MixedFlowsPass` | src/Uia.c:285-291 | a run from the empty store after which a call returns 1 although no flow is completed |
| `UiaTheorems.SessionsStayShort` | src/Uia.c:345-442 | in any run of one-stage flows, whatever endpoints share sessions, a session has at most one stage, of a known type, and remembers a token exactly with its stage |
| `UiaTheorems.PassedExactlyWhenOffered` | src/Uia.c:279-451 | with one-stage flows a call returns 1 exactly when the completed stage is then an offered flow |
| `UiaTheorems.UsedIsCompletions` | src/Uia.c:405-431 | over any run, `used` of a registration token is the number of stages completed with it since its creation, over all sessions, and at most `uses` unless that is -1 |
| `UiaTheorems.CreationFixed` | src/RegToken.c:58-78 | over any run a stored token has the expiry, uses and grants it was created with |
| `UiaLaws.CreationExactly` | src/RegToken.c:168-241 | a token is created exactly for at least -1 uses, a free name of at most 64 allowed bytes, and an expiry that has not passed; it is unused |
| `UiaTheorems.DotIsRefused` | src/RegToken.c:178-191 | of the names the specification allows, exactly those without a dot are accepted |
| `EndpointServer.Homeserver.CheckPasswordStage` | src/Uia.c:349-396 | the evidence is good exactly when the identifier is a user of this server and the password is theirs |
| `EndpointPasswords.PasswordStageExactly` | src/Uia.c:349-396 | for any endpoint that asks for a password and a session with nothing completed, the stage passes exactly if the identifier is of kind m.id.user and reads as a local part on this server, the account is stored, and the hash of the password with its salt is the stored one |
| `EndpointPasswords.StageAfterChange` | src/User.c:398-429 | after a password change the stage accepts for that account exactly the passwords with the hash of the new one |
| `EndpointPasswords.StageAfterRegister` | src/User.c:190-236 | the same after a registration |
| `EndpointServer.Homeserver.RouteRegister` | src/Routes/RouteRegister.c:110-231 | the answer and both databases after every request: name checks, UIA, creation, first login, the grants of the session's registration token |
| `EndpointServer.Homeserver.RouteChangePwd` | src/Routes/RouteChangePwd.c:91-158 | the answer and both databases after every request: UIA with a password, then the change and the bulk logout that spares the caller |
| `EndpointServer.Homeserver.RouteDeactivate` | src/Routes/RouteDeactivate.c:81-141 | the answer and both databases after every request, with and without an access token |
| `EndpointServer.Homeserver.RouteUiaFallback` | src/Routes/RouteUiaFallback.c:75-90 | drives a session through the one-stage flow of the URL and leaves the session store alone |
| `EndpointTheorems.RunIsBothRuns` | src/Routes/RouteRegister.c:133-231 | every run of the server is a run of one-stage flows for UIA and a legal run for the session store, so the theorems of both hold of the server |
| `EndpointTheorems.ReachableSound` | src/Routes/RouteRegister.c:133-231 | in every reachable state of the server the token tables agree, no session has two stages, and none names a user |
| `EndpointTheorems.ActsExactlyWhenComplete` | src/Uia.c:279-451 | an endpoint goes on to act exactly when the named session has then completed one of its flows, wherever the stage was completed |
| `EndpointTheorems.ActsOnlyAfterStage` | src/Routes/RouteRegister.c:141-157 | an endpoint acts only for a session with exactly one accepted stage, one it offers: with closed registration a registration token, for a new password a password |
| `EndpointLaws.EndpointFlows` | src/Routes/RouteDeactivate.c:81-97 | the flows of each endpoint by the names of their stages |
| `EndpointLaws.RegisterAnswers` | src/Routes/RouteRegister.c:110-231 | every answer of the registration route exactly when it is due, and the store changes exactly for an account that is made |
| `EndpointLaws.ChangePwdAnswers` | src/Routes/RouteChangePwd.c:91-158 | every answer of the password route, and the store changes only with the password |
| `EndpointTheorems.RegisteredPrivileges` | src/Routes/RouteRegister.c:179-231 | a new account logs in, its first token works, and it has exactly the privileges with which the registration token accepted in its session was created |
| `EndpointTheorems.OneUseManyAccounts` | src/Routes/RouteRegister.c:133-231 | through a session with its registration-token stage completed any number of accounts can be made, and no token counts a use |
| `EndpointTheorems.TokenlessDeactivationFails` | src/Routes/RouteDeactivate.c:113-133 | in every reachable state deactivation succeeds exactly with an access token that authenticates, and otherwise changes nothing |
| `EndpointTheorems.DeactivatedStaysOut` | src/Routes/RouteDeactivate.c:135-141 | after a successful call no token authenticates as the user in any continuation of the server's run without a reactivation |
| `EndpointPasswords.PasswordChangedExactlyWhen` | src/Routes/RouteChangePwd.c:105-158 | in every state that satisfies the invariants, a call naming a stored session changes the caller's password exactly when the session has completed its password stage, whatever the call presents, or has completed nothing and the call presents good evidence, whichever account it is about |
| `EndpointPasswords.OwnPasswordExactlyWhen` | src/Uia.c:279-396 | that only the caller's own password serves holds of a call naming a stored session if and only if its identifier names the caller, or neither of these two conditions lets it through |
| `EndpointPasswords.PasswordStageIsReused` | src/Uia.c:292-312 | after an accepted change, and any steps that leave the session stored, every call naming it with any evidence changes the password of any access token's account |
| `EndpointPasswords.ForeignPasswordAccepted` | src/Routes/RouteChangePwd.c:105-158 | for any two accounts, a run from the empty server after which the password of one changes that of the other |
| `CanonicalJson.KeyCompare` | src/CanonicalJson.c:34-38 | negative exactly if the keys agree up to a place where the first ends or has the smaller byte; zero exactly for equal keys |
| `CanonicalJsonOrder.MembersInByteOrder` | src/CanonicalJson.c:111-157 | what is written of an object at any depth are its members in the one order of its keys that ascends by their bytes |
| `CanonicalJsonOrder.TwoMembers` | src/CanonicalJson.c:111-157 | of two members the one whose key comes first by its bytes is written first |
| `CanonicalJson.AscendingUnique` | src/CanonicalJson.c:111-125 | a set of keys has only one ascending order, whatever the iteration order |
| `CanonicalJson.SortedKeysSound` | src/CanonicalJson.c:111-125 | the keys written are all keys, strictly ascending |
| `CanonicalJson.SortKeys` | src/CanonicalJson.c:111-125 | sorting distinct keys in place gives their one ascending order |
| `CanonicalJson.EncodeValue` | src/CanonicalJson.c:40-88 | appends exactly the canonical bytes of the value and returns their number |
| `CanonicalJson.Encode` | src/CanonicalJson.c:90-161 | appends exactly the canonical bytes of the object, for every iteration order, and returns their number; -1 and nothing without an object |
| `CanonicalJsonTheorems.PiecesSep` | src/CanonicalJson.c:61-80 | commas stand exactly between the members written, and once more at the end when the last index is skipped |
| `CanonicalJsonTheorems.Decodes` | src/CanonicalJson.c:40-161 | with any text behind it, the reference parser reads back the value without its floats, or fails when the value is not tidy |
| `CanonicalJsonTheorems.RoundTrip` | src/CanonicalJson.c:40-161 | a float-free value is what its encoding parses to |
| `CanonicalJsonTheorems.UniquelyDecodable` | src/CanonicalJson.c:40-161 | for float-free values, equal bytes exactly for equal values |
| `CanonicalJsonTheorems.ValidExactlyWhenTidy` | src/CanonicalJson.c:61-80 | the output is canonical JSON exactly when at every level the last member is not a float or all are |
| `CanonicalJsonTheorems.SkippingIsStripping` | src/CanonicalJson.c:125-157 | skipping floats equals removing them first, at all depths, exactly for tidy values |
| `CanonicalJsonTheorems.TrailingFloatBreaksJson` | src/CanonicalJson.c:61-80 | a value whose encoding is not JSON |
| `CanonicalJsonLanguage.ParsedIsEncoded` | src/CanonicalJson.c:40-161 | conversely, every text the reference parser accepts is the encoding of the value it reads |
| `CanonicalJsonLanguage.EncodingsAreCanonical` | src/CanonicalJson.c:40-161 | the encodings of float-free values are exactly the texts of the canonical grammar |
| `AliasDirectory.AliasDb.PutAlias` | src/Routes/RouteAliasDirectory.c:117-185 | the reply, and the change of map and index, for every caller, alias and body |
| `AliasDirectory.AliasDb.DeleteAlias` | src/Routes/RouteAliasDirectory.c:186-226 | the reply, and the change of map and index, for every caller and alias |
| `AliasLaws.PutEffect` | src/Routes/RouteAliasDirectory.c:101-185 | each answer in terms of caller, recomposed server, alias and body; exactly the alias and its entry in the room's list are added, with the caller as creator |
| `AliasLaws.DeleteEffect` | src/Routes/RouteAliasDirectory.c:186-226 | each answer; exactly the creator and callers whose stored array names ALIAS delete, and exactly the alias and one entry go |
| `AliasDirectory.RemoveFirst` | src/Routes/RouteAliasDirectory.c:216-223 | the search loop takes out the first occurrence |
| `AliasDirectory.ReachableAgrees` | src/Routes/RouteAliasDirectory.c:136-224 | in every reachable state a room lists an alias once if the alias maps to it, and not at all otherwise |
| `AliasDirectory.ReaderIsRight` | src/Routes/RouteRoomAliases.c:85-99 | the reader of the index answers with exactly the aliases of the room, without repetition |
| `AliasDirectory.ListsCountAliases` | src/Routes/RouteAliasDirectory.c:136-224 | in every reachable state the lists together are as long as there are aliases |
| `AliasDirectory.DeleteUndoesPut` | src/Routes/RouteAliasDirectory.c:167-224 | deleting an alias just made restores the map and every room's list |
| `IdentifierParser.ParseUserLocalpart` | src/Parser.c:39-74 | takes the longest run of local characters, leaves the cursor at the colon or behind the end, and restores it on failure |
| `IdentifierParser.ParseIPv4` | src/Parser.c:76-128 | accepts exactly when all digits and dots at the cursor form a quad; restores the cursor on failure |
| `IdentifierParser.ParseIPv6` | src/Parser.c:136-226 | accepts exactly what `IPv6Exactly` describes; restores the cursor on failure |
| `IPv6Theorems.IPv6Exactly` | src/Parser.c:136-226 | accepted are brackets around 2 to 45 characters: digits and colons, at most one "::", one to four digits before every other colon, at most seven of these before the last character, and a dotted quad where a dot is |
| `IPv6Theorems.IPv6Prefix` | src/Parser.c:136-226 | whether a literal is accepted does not depend on what follows it |
| `IPv6Theorems.BareDigitsAccepted` | src/Parser.c:136-226 | any 2 to 45 hexadecimal digits in brackets are accepted |
| `IdentifierParser.ParseHostname` | src/Parser.c:228-252 | takes the longest run of host characters if it has 1 to 255; restores the cursor on failure |
| `IdentifierParser.ParseServerName` | src/Parser.c:254-340 | the host by the first parser that accepts, and a port of one to five digits up to 65535 |
| `IdentifierParser.ParseCommonID` | src/Parser.c:355-428 | the sigil decides between event ID, local part with server, and nothing more |
| `IdentifierParser.UserValidate` | src/User.c:45-71 | accepts exactly the specified alphabet within the length limit |
| `IdentifierParser.UserHistoricalValidate` | src/User.c:73-97 | accepts exactly the historical alphabet within the length limit |
| `IdentifierLaws.Alphabets` | src/User.c:45-97 | the alphabets of user names, historical names, local parts and host names, by their bytes |
| `IdentifierLaws.NamesExactly` | src/User.c:45-97 | both validators accept exactly their bytes within the shared length |
| `IdentifierParser.UserIdParse` | src/User.c:884-937 | full IDs and bare local parts on the default server, checked against the historical alphabet |
| `IdentifierTheorems.ServerExactly` | src/Parser.c:254-329 | for every server part: it is read back from its composition exactly when its port is absent or valid and its host is a dotted quad, a bracketed literal, or a name that does not open with a quad |
| `IdentifierTheorems.ServerReadBack` | src/Parser.c:254-329 | a composed server name is read back exactly unless its host opens with a quad and goes on; then only the quad is read |
| `IdentifierTheorems.QuadHostIsCut` | src/Parser.c:254-329 | every host made of a dotted quad and more that is not a digit or dot is cut after the quad, its port lost |
| `IdentifierTheorems.HostNameIsCut` | src/Parser.c:254-329 | the ordinary host name "1.2.3.a" is read as "1.2.3." |
| `IdentifierTheorems.LastGroupUnchecked` | src/Parser.c:76-128 | "1.2.3." and "1.2.3.999" are accepted as hosts |
| `IdentifierTheorems.LetterOpensNoQuad` | src/Parser.c:76-128 | a host that starts with a letter is never cut |
| `QuadTheorems.QuadExactly` | src/Parser.c:76-128 | the accepted quads are three groups of one to three digits up to 255, each with a dot, and then any digits |
| `IdentifierTheorems.AcceptedIsPrefix` | src/Parser.c:254-340 | recomposing an accepted server part gives a prefix of the input; its port is in range; a dotted quad has three dots and groups in range |
| `IdentifierTheorems.UserIdRoundTrip` | src/User.c:884-937 | parsing a composed user ID gives back its parts if and only if the host is not cut, and the server then equals only the one it was composed with |
| `IdentifierTheorems.FullIdExactly` | src/User.c:884-937 | exactly which full IDs are accepted and what is read; the ID composed of it is a prefix of the input unless a character that is not ASCII was dropped before the colon |
| `IdentifierTheorems.HighByteIsDropped` | src/Parser.c:39-74 | two texts, one with such a byte, that are read as the same user |
| `IdentifierTheorems.BareAgreesWithFull` | src/User.c:884-937 | a bare local part and the full ID on the default server name the same user |
| `IdentifierLaws.BareIdExactly` | src/User.c:884-937 | a text without a sigil is accepted exactly if it is a historical name that fits and the default server parses, and read as that |
| `IdentifierLaws.CommonIdExactly` | src/Parser.c:355-428 | exactly which room IDs, aliases and user IDs are accepted, and what is read |
| `IdentifierLaws.EventIdExactly` | src/Parser.c:386-404 | an event ID is a local part with no colon behind it; with another sigil nothing is checked |
| `IdentifierLaws.SigilIsFirst` | src/Parser.c:440-457 | the sigil asked for is the first character |
| `IdentifierTheorems.LengthLimit` | src/User.c:45-71 | local part and server name may share 255 characters; for a server name of 255 characters and more there is no limit |
| `IdentifierTheorems.RegisteredNameIsAddressable` | src/User.c:45-71 | a registered name has a full ID that parses if and only if it is not empty and leaves room for the colon |
| `IdentifierTheorems.LongestNameLost` | src/User.c:45-71 | for every server name of at most 254 characters there is a name that registration accepts and no full ID addresses |

## Left out

- HTTP, routing, logging, signals, configuration, startup, static pages and the user directory: plumbing and constant output.
- State, rooms, filters, room creation and token requests by mail: stubs in the source.
- Memory management, string termination and reads past the end of a string, which the model takes as NUL.
- Interleavings inside the database library, and calls that fail for lack of memory, a null argument or a broken file.
- UiaComplete: the "params" member of a challenge is not part of the reply; every caller builds its stages without parameters. Whether a password is good arrives as one flag of the request, which `CheckPasswordStage` computes.
- UserCreate: the creation time is not kept; nor are who deactivated an account and why, and profile fields.
- RouteRegister: an empty password is answered with a failure that changes nothing behind UIA; the source goes on with a null user.
- ParseIPv6: an embedded IPv4 address that does not parse fails the literal; the source goes back and reads on with a digit count it never resets, for which there is no bound.
- IPv6Exactly: says what the model of ParseIPv6 accepts, so literals with such an embedded address count as refused.
- ParseCommonID: an event ID is accepted exactly when no colon follows; the source changes a character instead of the cursor in that branch.
- ParserRecomposeCommonID puts a second sigil before the first; routes compose identifiers themselves, and the round trips use their composition.
- PutAlias: the list of servers of an alias, which is always empty, is not kept; the GET branches only read.
- Password hashing beyond "the same password and salt give the same hash".
