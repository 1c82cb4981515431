# Verification of the API portal's backend

A Dafny project that models the state machines of the portal's Go backend and proves what they
keep over whole runs. `dafny verify dfyconfig.toml` checks it. Paths below are relative to the
repository's root.

| module | models |
|---|---|
| `Rbac` | scopes, their normal form and the implications between them |
| `PermGraph`, `Granting`, `Decisions`, `Effects`, `Frames`, `Escalation`, `PermStore` | users, groups, roles, APIs, their relations and every request that changes them; the three resolvers; delegated granting |
| `Accounts`, `Identity`, `SignInNames`, `DirectoryAccounts`, `Portal`, `Sessions`, `PortalStore` | accounts, the last-administrator rule, sign-in names, Azure binding, directory imports, sessions |
| `LoginGate`, `LoginBound` | the sign-in gate and its numeric bound |
| `Operations`, `SpecIndex`, `SpecHistory`, `SpecReplay`, `SpecDiff`, `SpecStore` | the operation index and the spec history |
| `Keyring`, `KeyRotation` | encryption of stored secrets and key rotation across restarts |
| `ProxyPath` | the path policy of the try-it proxy |
| `Metrics` | label rendering, counters, histograms |
| `Strings`, `Ordering` | helpers |

Each request is one atomic step: its checks, then its write, which succeeds or rolls back. The
clock does not run backwards. Where the Go code updates rows in loops there is a class with one
method per handler or store method (`PermStore`, `PortalStore`, `Gatekeeper`, `SpecStore`,
`Store`, `CounterVec`, `HistogramVec`), proved against a function of the old state; the theorems are about runs
of those functions. Straight-line methods (creating and deleting groups and roles, starting and purging
sessions) equal their function by definition and have no row below; `Effects`, `Frames`, `Escalation`,
`Portal` and `Sessions` say what they achieve and leave alone. Tables are maps and sets with the foreign keys of
`backend/internal/db/db.go`; row ids are assigned in increasing order and not reused.

## Main results

- **No escalation** (`Escalation.NoEscalation`). Call a user's *potential* the scopes of every
  group the user is in or would join at a sign-in. In any run of requests by non-administrators,
  mixed with directory syncs and first sign-ins, every scope anybody holds or could get was
  implied, at the start, by that user's own potential or by that of one of the acting users; and
  nobody becomes an administrator.
- **Sign-in bound** (`LoginBound`). The exact maximum of failures that reach the password check
  in an interval, with runs that attain it.
- **Decisions** (`Decisions`, `Accounts`). For every request, exactly when it is accepted, in terms of
  who holds and who grants what; `Effects` says what it then achieves, `Frames` what it leaves alone.
- **Sessions** (`Sessions`, `Portal`). Exactly when a session is let through, over every run: which events
  end it, and until when it lasts otherwise. Refusal is permanent, the list is exact, purging is unobservable, the
  idle timeout is accurate to a minute.
- **Spec index** (`SpecHistory`, `SpecReplay`). The index is faithful to the spec it names in every
  reachable state, the recorded lists are exactly what differs between the two documents
  (`SpecDiff.ListsOfDocuments`), a run that skips unchanged specs matches one that always replaces, and the stored
  lists of differences replay.
- **Key rotation** (`KeyRotation.SecretsAreReadable`). At the end of any chain of restarts that hands
  the previous key over, every listed secret reads as it was entered, with one exact exception; a value
  in the unlisted column is read under an exact condition (`KeyRotation.UnlistedValueReadable`).
- **Binding** (`Identity.PreregistrationRoundTrip`). For every table of accounts, when a sign-in
  binds the account that was pre-registered for it.

## Where the code differs from what it or its comments say

- `README.md:255` and `backend/internal/store/crypto.go:255`: a previous key is said to be droppable after
  one restart with the new one, and all values to be under the external key after Rekey.
  `api_definitions.inject_headers_enc` is encrypted with the same keyring
  (`backend/internal/store/apis.go:109`) and is not in the list Rekey walks: injected headers become
  unreadable once the key they were saved under is dropped, be it the stored key
  (`KeyRotation.HeadersLostWithTheStoredKey`) or, in the documented rotation, an earlier external one
  (`KeyRotation.HeadersLostOnRotation`). Exactly when, at the end of any chain of restarts:
  `KeyRotation.UnlistedValueReadable` and `KeyRotation.SavedHeadersReadable`.
- `backend/internal/store/crypto.go:256`: when the external key is the stored key, Rekey deletes the
  current key from the running process's keyring (`KeyRotation.OwnKeyLost`; exactly when:
  `KeyRotation.CurrentValueReadable`, and at the end of a chain `KeyRotation.SecretsAreReadable`). The
  data is intact: the next restart that is given the key reads it.
- `backend/internal/store/catalog.go:78-82`: `initial` is meant for a first index, and is recorded
  again once 50 failures have pushed every other entry out (`SpecReplay.FirstIndexRecurs`; exactly
  when: `SpecReplay.EntryKinds`). For the same reason skipping an unchanged spec is not always what
  replacing would record (`SpecHistory.SkippingIsReplacing`).
- `backend/internal/proxy/service.go:89-90`: `RawPath` is to keep the client's encoding. Go uses it only
  when it decodes to `Path`, which it does unless the base URL's path ends in an encoded slash
  (`ProxyPath.JoinedPathDecodes`; such a base: `ProxyPath.EncodedSlashBase`). With such a base the
  upstream receives `Path` encoded anew, and what the client had encoded is lost.
- `backend/internal/api/admin_directory.go:183-184`: the comment says a first Microsoft sign-in binds the
  numbered name a pre-registration chose. It binds the plain name first, so when the account that held
  it is deleted and somebody else with the same local part is pre-registered, the first person's sign-in
  binds the second person's account (`Identity.SecondPreregistrationWins`,
  `Identity.BobGetsTheOtherAccount`; exactly when: `Identity.PreregistrationRoundTrip`).
- `backend/internal/api/admin_people.go:199-208`: the loop counts an administrator once for every time the
  list names them, so a bulk deactivation can be refused as deactivating the last active administrator
  although one would remain (`Accounts.ListedTwice`; exactly when: `Accounts.NeedlessConflictExact`). For an
  acting administrator the count refuses nothing else (`Accounts.AdminConflictsAreNeedless`).
- `backend/internal/api/security.go:166-184`: the window starts at the first failure and its end resets
  the count, so around a reset 9 failures, not 5, fit in a stretch however short (`LoginBound.LimitIsAttained`).

## Model

| member | source | states |
|---|---|---|
| Rbac.New | backend/internal/rbac/engine.go:11-17 | The engine of a user keeps exactly the normalized forms of the stored scopes. |
| Rbac.NormalizeExact | backend/internal/rbac/catalog.go:64-70 | A scope is stored without case and without the space around it, whatever there is of either; only the retired name becomes another one. |
| Rbac.NormalizeIdempotent | backend/internal/rbac/catalog.go:64-70 | Normalizing a scope twice is normalizing it once, the retired name included. |
| Rbac.ParseExact | backend/internal/rbac/catalog.go:91-99 | A scope is read as one of an API if and only if its stored form is `api:`, a decimal number and one of the four words; the number is clamped to the largest id. |
| Rbac.ParseOfAPIScope | backend/internal/rbac/catalog.go:87-99 | The scope printed for an API and an action is normal and parses back to that API and action, for every id the database assigns. |
| Rbac.HasAPIScope | backend/internal/rbac/engine.go:22-80 | Holding the printed scope of an API is the same as the matching `Can…API` answer. |
| Rbac.HasExtensive | backend/internal/rbac/engine.go:22-49 | A set of scopes implies each of its members. |
| Rbac.HasMonotone | backend/internal/rbac/engine.go:22-49 | More scopes imply at least as much. |
| Rbac.HasDistributes | backend/internal/rbac/engine.go:22-49 | The union of two sets implies a scope if and only if one of them does: no implication needs two grants. |
| Rbac.HasIdempotent | backend/internal/rbac/engine.go:22-80 | What implied scopes imply is implied already, so passing the escalation guard on a set covers everything the set implies. |
| PermGraph.ScopesForGroupsExact | backend/internal/store/roles.go:145-156 | A scope is returned for some groups exactly when one of them grants it through a role, as owner or through API access. |
| PermGraph.ResolversAgree | backend/internal/store/admin.go:191-223 | While every row refers to existing rows, the three separately written queries give the same scopes for a user. |
| PermGraph.ResolvedIsPotential | backend/internal/store/roles.go:186-199 | What a user holds now is part of what the user holds or would get at a sign-in. |
| Escalation.ReachableResolversAgree | backend/internal/store/roles.go:144-199 | In every state any run of requests and sign-ins reaches, the foreign keys hold and the three resolvers agree. |
| Escalation.StepKeepsIntegrity | backend/internal/db/db.go:483-517 | Every request and every sign-in keeps all references intact, cascades included, and API ids within the parsed range. |
| Escalation.ReplacedScopes | backend/internal/store/roles.go:111-137 | After a replacement the role grants exactly the listed non-blank scopes in stored form. |
| Escalation.InsertedRows | backend/internal/store/roles.go:116-136 | New permission rows get fresh ids, belong to the role and come from the list; kept rows are untouched. |
| Escalation.InsertedAccess | backend/internal/store/apis.go:131-143 | Replacing an API's access rows leaves the other APIs' rows alone and stores only listed groups and levels. |
| Escalation.SetUserGroupsIsWithin | backend/internal/api/admin_users.go:204-237 | Setting a user's groups adds to nobody's potential more than the scopes of the added groups. |
| Escalation.AddMembersIsWithin | backend/internal/api/admin_people.go:228-263 | Adding members adds no more than the scopes of the group. |
| Escalation.UpdateGroupIsWithin | backend/internal/api/admin_groups.go:32-66 | A changed directory mapping adds no more than the scopes of the group; an unchanged one adds nothing. |
| Escalation.SetGroupRolesIsWithin | backend/internal/api/admin_groups.go:89-112 | Setting a group's roles adds no more than the scopes of the added roles. |
| Escalation.NewPermissionIsWithin | backend/internal/api/admin_roles.go:65-91 | Adding a scope to a role adds no more than what the actor holds. |
| Escalation.NewPermissionsAreWithin | backend/internal/api/admin_roles.go:93-137 | Replacing a role's scopes adds no more than what the actor holds, although scopes the role has in another spelling are not checked. |
| Escalation.CreateApiIsWithin | backend/internal/api/admin_apis.go:99-124 | Creating an API with an owner group gives away only a scope the actor holds. |
| Escalation.UpdateApiIsWithin | backend/internal/api/admin_apis.go:126-174 | Changing an API's owner group gives away only a scope the actor holds. |
| Escalation.ApiAccessIsWithin | backend/internal/api/admin_apis.go:247-280 | Access grants on an API give away only scopes its manager holds. |
| Escalation.ImportIsWithin | backend/internal/api/admin_directory.go:48-132 | Importing directory accounts into groups adds no more than what the actor holds. |
| Escalation.PreregisterIsWithin | backend/internal/api/admin_directory.go:139-217 | Pre-registering an account into groups adds no more than what the actor holds. |
| Escalation.SyncIsWithin | backend/internal/store/groups.go:61-101 | A directory sync adds nothing to what a user holds or would get by signing in. |
| Escalation.HandleIsWithin | backend/internal/api/admin_users.go:242-257 | Whatever request a non-administrator sends, nobody gains potential beyond what the sender holds at that moment. |
| Escalation.WithinBoundsPotential | backend/internal/api/security.go:297-309 | A step that grants and joins within some scopes enlarges each user's potential at most by what those scopes imply. |
| Escalation.NobodyBecomesAdmin | backend/internal/api/admin_users.go:95-99 | In every run of requests by non-administrators, mixed with sign-ins, nobody becomes an administrator. |
| Escalation.NoEscalation | backend/internal/api/admin_users.go:239-257 | In every such run, every scope a user comes to hold or could get was implied at the start by that user's own potential or by that of a single acting user. |
| PermStore.AddedIDs | backend/internal/api/admin_users.go:259-271 | Exactly the ids of the new list that are not in the old one, repeated only if the list repeats them. |
| PermStore.ScopesBeyondActor | backend/internal/api/security.go:297-309 | Exactly the wanted scopes the actor does not hold; none if and only if all are held. |
| PermStore.PermStore.AllowGrant | backend/internal/api/admin_users.go:242-257 | The grant passes if and only if the actor is an administrator or holds every scope. |
| PermStore.PermStore.GroupScopes | backend/internal/store/roles.go:145-156 | The query result for a list of groups, the empty list included. |
| PermStore.PermStore.StoreUserGroups | backend/internal/store/groups.go:118-130 | Replaces a user's rows, or changes nothing when the user or a group does not exist. |
| PermStore.PermStore.SetUserGroups | backend/internal/api/admin_users.go:204-237 | The whole request: its refusals and the new tables. |
| PermStore.PermStore.StoreGroupMembers | backend/internal/store/admin.go:67-82 | Adds the members and reports exactly the new ones, or changes nothing when the group or a user does not exist. |
| PermStore.PermStore.AddGroupMembers | backend/internal/api/admin_people.go:228-263 | The whole request, with the reply to the first member that may not be changed. |
| PermStore.PermStore.RemoveGroupMember | backend/internal/api/admin_people.go:265-290 | The whole request: refusals, not a member, or exactly one row less. |
| PermStore.PermStore.SyncDirectoryGroups | backend/internal/store/groups.go:61-101 | Afterwards the user is in a mapped group exactly when the directory says so, all other rows are as before, and the two lists name exactly the joined and the left groups; nothing changes when a user without a row would have to join one. |
| PermStore.PermStore.IsMember | backend/internal/api/auth_handlers.go:172-184 | Whether some membership equals the mapping up to case and surrounding space. |
| PermStore.PermStore.UpdateGroup | backend/internal/api/admin_groups.go:32-66 | The whole request, where only a changed mapping needs the grant check. |
| PermStore.PermStore.StoreGroupRoles | backend/internal/store/roles.go:58-70 | Replaces a group's role rows, or changes nothing when the group or a role does not exist. |
| PermStore.PermStore.SetGroupRoles | backend/internal/api/admin_groups.go:89-112 | The whole request: the grant check on the added roles and the new rows. |
| PermStore.PermStore.AddRolePermission | backend/internal/api/admin_roles.go:65-91 | The whole request: unknown scope, missing grant, missing role, or one new row. |
| PermStore.PermStore.StoreRolePermissions | backend/internal/store/roles.go:111-137 | Replaces a role's rows, skipping blank and repeated scopes, or changes nothing when the role does not exist. |
| PermStore.PermStore.ReplaceRolePermissions | backend/internal/api/admin_roles.go:93-137 | The whole request: the first unknown scope refuses it, only new scopes are checked, the rows are replaced. |
| PermStore.PermStore.CreateApi | backend/internal/api/admin_apis.go:99-124 | The whole request as far as slug and owner are concerned. |
| PermStore.PermStore.UpdateApi | backend/internal/api/admin_apis.go:126-174 | The whole request as far as slug and owner are concerned. |
| PermStore.PermStore.DeleteApi | backend/internal/api/admin_apis.go:176-194 | The whole request: access rows and the API's scopes go with it. |
| PermStore.PermStore.StoreApiAccess | backend/internal/store/apis.go:131-143 | Replaces an API's rows, the last row for a group winning, or changes nothing when the API or a group does not exist or a level is unknown. |
| PermStore.PermStore.SetApiAccess | backend/internal/api/admin_apis.go:247-280 | The whole request: refusals and the new rows. |
| Accounts.ApplyIsSound | backend/internal/api/admin_users.go:149-165 | Every accepted account request keeps an active administrator, unique names, identities bound at most once, each account's source and its bound identity. |
| Accounts.BulkIsSound | backend/internal/api/admin_people.go:168-223 | The same for bulk status changes with arbitrary, repeating id lists. |
| Accounts.LeavingExact | backend/internal/api/admin_people.go:182-202 | The loop's count of leaving administrators is the number who leave plus the number of repetitions of administrators in the list. |
| Accounts.LeavingCoversAll | backend/internal/api/admin_people.go:182-208 | So it is at least the number who leave. |
| Accounts.NeedlessConflictExact | backend/internal/api/admin_people.go:202-208 | The count refuses a deactivation that would leave an active administrator if and only if the administrators left are no more than the repetitions. |
| Accounts.AdminConflictsAreNeedless | backend/internal/api/admin_people.go:194-208 | For an acting administrator, who is never on an accepted list, every refusal by the count is of that kind, and happens if and only if the administrators left are no more than the repetitions. |
| Accounts.ListedTwice | backend/internal/api/admin_people.go:182-208 | Of two administrators one deactivates the other: accepted when the other is listed once, refused when listed twice. |
| Accounts.ActorStaysAdmin | backend/internal/api/admin_users.go:149-156 | Whatever an acting administrator asks for, they stay an active administrator. |
| Accounts.OnlyAdminsChangeAdmins | backend/internal/api/admin_users.go:95-99 | Without administrator rights nobody makes an administrator or changes, deactivates or deletes one. |
| Portal.RunIsGood | backend/internal/api/session.go:140-186 | Every run of account, directory, sign-in and session events keeps accounts and sessions consistent. |
| Portal.AdminsAndSessions | backend/internal/api/admin_users.go:135-140 | In every reachable state an active administrator remains and no inactive account has an unrevoked session. |
| Portal.IdentityKeepsAccount | backend/internal/api/auth_handlers.go:330-369 | A bound Azure identity signs in to the same account, of the same source, in every later state until that account is deleted. |
| Portal.RefusedStaysRefused | backend/internal/api/session.go:158-163 | Under fixed timeouts a session refused once is refused at every later moment of every run. |
| Portal.ListingIsExact | backend/internal/api/sessions_handlers.go:15-32 | The session list shows exactly the sessions that would be accepted at that moment. |
| Portal.PurgingIsUnobservable | backend/internal/store/sessions.go:82-85 | Leaving out every purge of a run changes no answer of the session check. |
| Portal.IdleTimeoutIsAccurate | backend/internal/api/session.go:158-176 | An accepted request follows the last accepted one within the idle timeout; a refusal for idleness means a gap longer than the timeout less one minute. |
| Sessions.StepEndsExactly | backend/internal/api/admin_users.go:135-140 | One event ends an open session if and only if it is an accepted one against it: the account deactivated, demoted, deleted or given another password, or the session revoked; otherwise at most its recorded use moves. |
| Sessions.AcceptedExactly | backend/internal/api/session.go:140-186 | An open session is let through at any later moment of any run if and only if no event has ended it, its lifetime is not over and its recorded use is within the idle timeout. |
| Sessions.UpdateAndSessions | backend/internal/api/admin_users.go:68-144 | A deactivation, a demotion or a new password ends every session of the account for good; any other change, accepted or not, leaves all sessions as they were. |
| Sessions.ResetAndSessions | backend/internal/api/admin_users.go:276-313 | A password reset ends every session of the account for good and no other. |
| Sessions.SignInOpens | backend/internal/api/session.go:67-105 | A sign-in of an active account opens exactly one session, of the maximum lifetime; nothing else opens one. |
| Sessions.LifeOfASession | backend/internal/api/session.go:67-186 | From its sign-in on a session is let through while nothing has ended it, the maximum lifetime has not passed, and its recorded use is within the idle timeout, and no longer. |
| Sessions.StepAccounts | backend/internal/api/auth_handlers.go:114-157 | The accounts after every event are those of the account request, import, pre-registration or first sign-in, whose new accounts are active, not administrators and of their directory. |
| Sessions.UpdateUserDecided | backend/internal/api/admin_users.go:68-134 | A change that sets a password is accepted for local accounts only, and otherwise like any other. |
| Sessions.ResetDecided | backend/internal/api/admin_users.go:276-293 | A password is reset exactly for a local account, an administrator's by an administrator only. |
| PortalStore.PortalStore.ChangeProblem | backend/internal/api/admin_users.go:149-165 | Exactly the account-safety rules, counting administrators only when it matters. |
| PortalStore.PortalStore.UpdateUser | backend/internal/api/admin_users.go:68-144 | The whole request: its refusals in order, the new row and the sessions it ends. |
| PortalStore.PortalStore.DeleteUser | backend/internal/api/admin_users.go:167-191 | The whole request; the account's sessions go with it. |
| PortalStore.PortalStore.SetUsersActive | backend/internal/store/users.go:114-130 | The listed rows get the status; the result lists exactly the rows that changed. |
| PortalStore.PortalStore.BulkStatus | backend/internal/api/admin_people.go:168-223 | The whole request, with the reply to the first account it may not touch. |
| PortalStore.PortalStore.ImportLDAPUsers | backend/internal/store/users.go:197-216 | One upsert per entry: new accounts, refreshed LDAP accounts, others left alone; the skipped names are exactly those that belong to an account of another source. |
| PortalStore.PortalStore.UniqueUsername | backend/internal/api/auth_handlers.go:412-423 | The name, or its first free numbered form, or the form with the time. |
| PortalStore.PortalStore.UniqueUnbound | backend/internal/store/users.go:60-81 | The only match among the first 20 rows, none when several or no row match. |
| PortalStore.PortalStore.GetUnbound | backend/internal/store/users.go:37-56 | Exact name first, then the numbered form, then the e-mail. |
| PortalStore.PortalStore.UserForAzureLogin | backend/internal/api/auth_handlers.go:330-369 | Finds the bound account, binds the unbound one, or creates an account under a free name. |
| PortalStore.PortalStore.RequireSession | backend/internal/api/session.go:140-186 | Accepts exactly the live sessions of active accounts, asks for a new password where the account owes one and the route is not exempt, ends the sessions of dead accounts, and notes the use at most once a minute. |
| PortalStore.PortalStore.RevokeUserSessions | backend/internal/store/sessions.go:72-79 | Ends every open session of the user but one and counts them. |
| PortalStore.PortalStore.ActiveSessions | backend/internal/api/sessions_handlers.go:15-32 | Lists the open, unexpired sessions that are not idle. |
| Identity.LikeEscapedPrefix | backend/internal/store/audit.go:54-63 | Under SQLite's LIKE an escaped prefix followed by % matches exactly the texts that start with the prefix up to ASCII case. |
| SignInNames.SanitizeExact | backend/internal/api/auth_handlers.go:397-410 | The account name of a sign-in name is what stands before its first at sign, character by character in lower case with blanks as dots and what is not allowed left out, less the separators at its ends. |
| SignInNames.LocalPartIsTheName | backend/internal/api/auth_handlers.go:397-410 | A local part that is an allowed name in some case is the account name, in lower case and whatever the domain. |
| SignInNames.NamesDoNotMix | backend/internal/api/auth_handlers.go:397-410 | Two such sign-in names stand for one account name if and only if their local parts differ in case at most. |
| SignInNames.UniqueUsernameExact | backend/internal/api/auth_handlers.go:412-423 | A taken name gets its first free number from 2 to 999, and the time only when all of these are taken. |
| Identity.SanitizeIdempotent | backend/internal/api/auth_handlers.go:397-410 | Sanitizing a sanitized username changes nothing. |
| Identity.SuffixFilterIsExact | backend/internal/store/users.go:46-48 | For a sanitized name the LIKE filter and the check of the suffix together accept exactly its numbered forms. |
| Identity.UniqueUnboundExact | backend/internal/store/users.go:60-81 | An account is found if and only if it is the only match among the first 20 never-bound rows that pass the filter, whatever their number. |
| Identity.FindUnboundExact | backend/internal/store/users.go:37-56 | For every table of accounts: an account is bound if and only if it has the name itself, or no never-bound account has it and it is the only numbered form looked at, or there is not exactly one of these and only it has the e-mail. |
| Identity.PreregistrationRoundTrip | backend/internal/api/admin_directory.go:166-203 | Signing in with the UPN of a pre-registration, whenever and whatever other accounts there are, binds exactly that account if and only if it is the only candidate. |
| Identity.NumberedAloneIsCandidate | backend/internal/store/users.go:43-50 | A numbered pre-registration is the only candidate while no other never-bound account has the name or a numbered form of it and at most 20 rows pass the filter. |
| Identity.SecondPreregistrationWins | backend/internal/api/admin_directory.go:177-186 | Once the account that held the plain name is gone, a second pre-registration takes that name, and signing in with the UPN of the first binds the second. |
| Identity.BobGetsTheOtherAccount | backend/internal/store/users.go:37-56 | A table of two accounts where this happens. |
| DirectoryAccounts.AzureAccountExact | backend/internal/api/auth_handlers.go:330-369 | A known identity keeps its account; a new one takes over the never-bound account the search finds; without one it gets a fresh account, active and no administrator, and nothing else changes. |
| DirectoryAccounts.NewAccountBaseExact | backend/internal/api/auth_handlers.go:349-355 | The fresh account is named after the sign-in name, else after the e-mail address, else azure-user. |
| DirectoryAccounts.PreregisteredNameExact | backend/internal/api/admin_directory.go:139-186 | A pre-registration is taken if and only if e-mail address and sign-in name are usable and no Azure AD account has the address, up to case, or the name. |
| DirectoryAccounts.ImportExact | backend/internal/store/users.go:197-216 | An import adds an active LDAP account, no administrator, for every listed name nobody has, gives listed LDAP accounts their last listed address, and changes nothing else. |
| LoginGate.Gatekeeper.Locked | backend/internal/api/security.go:154-163 | How long the key stays locked. |
| LoginGate.Gatekeeper.Failed | backend/internal/api/security.go:166-184 | The new map after a failure, and whether it locks. |
| LoginGate.Gatekeeper.Prune | backend/internal/api/security.go:193-202 | Once there are 1024 entries, exactly the stale ones are dropped. |
| LoginGate.PrunedExactly | backend/internal/api/security.go:193-202 | What is left of 1024 entries or more is locked or began within the last 15 minutes. |
| LoginGate.Gatekeeper.SignIn | backend/internal/api/auth_handlers.go:30-48 | A locked key never reaches the password check; otherwise its verdict is recorded. |
| LoginGate.PruningIsUnobservable | backend/internal/api/security.go:186-202 | After any sequence of `fail` and `succeed` calls on any keys, locked ones included, a gate that prunes gives every `locked` and `fail` call the answer of a gate that never prunes. |
| LoginGate.SignInsDoNotSeePruning | backend/internal/api/auth_handlers.go:30-48 | So pruning decides no sign-in. |
| LoginGate.OtherKeysDoNotMatter | backend/internal/api/security.go:149-191 | What a key is told depends on the attempts under that key alone. |
| LoginGate.SuccessStartsAfresh | backend/internal/api/security.go:186-191 | After a sign-in that succeeds, every later attempt under the key is answered as by a gate that saw only what came after. |
| LoginGate.FourFailuresAreFree | backend/internal/api/security.go:166-191 | So fewer than five attempts after a success leave the key free, whatever failures came before it. |
| LoginBound.AdmittedWithinLimit | backend/internal/api/security.go:124-184 | In any closed interval of length T at most Limit(T), and so at most 9 + 5·⌊T / 5 min⌋, failures of a key that never succeeds reach the password check, however attempts under other keys interleave. |
| LoginBound.LimitIsAttained | backend/internal/api/security.go:124-184 | For every T some run reaches Limit(T): the bound cannot be improved. |
| SpecHistory.IndexStaysFaithful | backend/internal/store/catalog.go:52-121 | In every reachable state the stored operations, version and count are those of the spec whose hash is stored, whatever failed on the way. |
| SpecHistory.StepIsFaithful | backend/internal/openapi/service.go:82-100 | A failed refresh changes neither the cached spec nor the index; a successful one leaves the index at the fetched spec, or only the cache when indexing failed; the start-up backfill indexes a cached spec that was never counted, and nothing else. |
| SpecHistory.SkippingIsReplacing | backend/internal/store/catalog.go:59-61 | Skipping an unchanged spec leaves the index as replacing would; the history too, if and only if not (same hash and no entry but failures left). |
| SpecHistory.RunsAlike | backend/internal/store/catalog.go:52-121 | After every run, an index that skips unchanged specs and one that always replaces agree on everything but the history. |
| SpecHistory.RunsSameExactly | backend/internal/store/catalog.go:59-82 | Their histories agree after every event of a run if and only if nothing is skipped while only failures are left. |
| SpecHistory.EntryTellsDelta | backend/internal/store/catalog.go:115-119 | A `changed` entry holds the exact counts of added, removed and changed operations, and lists that are complete up to 200. |
| SpecHistory.NothingToTellExact | backend/internal/store/catalog.go:108-111 | Nothing is recorded if and only if no key and no fingerprint changed. |
| SpecReplay.DifferencesReplay | backend/internal/store/catalog.go:84-121 | Over any stretch without a first index the recorded lists the code computes are exactly the differences between the states before and after; in order they turn the earlier keys into the later ones, and an operation on no list keeps its fingerprint. |
| SpecReplay.StoredHistoryReplays | backend/internal/store/catalog.go:109-155 | The same of the lists in the rows left in the history, as long as at most 50 rows were written, failures included, none an `initial` one and none with more than 200 keys of a kind. |
| SpecReplay.HistoryIsWritten | backend/internal/store/catalog.go:130-155 | The history is always the newest 50 of the rows it started with and all those written since. |
| SpecHistory.InsertKeepsNewest | backend/internal/store/catalog.go:138-139 | With a clock that does not run backwards the delete by rank keeps exactly the 50 newest rows. |
| SpecHistory.HistoryStaysGood | backend/internal/store/catalog.go:130-155 | In every reachable state at most 50 rows remain, in order, and no failure follows the same failure. |
| SpecReplay.EntryKinds | backend/internal/store/catalog.go:76-119 | In every reachable state, indexing a spec adds an `initial` row if and only if no hash is stored or only failures are left; otherwise a `changed` row if and only if a key or fingerprint differs, and else none. The row carries the spec's hash, version and number of operations. |
| SpecReplay.FailureRow | backend/internal/store/catalog.go:145-155 | In every reachable state, a failed refresh adds a row with its message unless the newest row is the same failure. |
| SpecReplay.FirstIndexRecurs | backend/internal/store/catalog.go:76-82 | After 50 failures with changing messages the next different spec is recorded as `initial` again. |
| SpecStore.SpecStore.Differences | backend/internal/store/catalog.go:84-103 | The three lists, the removed keys in order although the map is walked in none. |
| SpecStore.SpecStore.InsertEntry | backend/internal/store/catalog.go:130-141 | The new row, less the rows ranked beyond 50. |
| SpecStore.SpecStore.ApplySpecIndex | backend/internal/store/catalog.go:52-121 | The whole transaction: skip, replace, and what it records. |
| SpecStore.SpecStore.MarkFailure | backend/internal/store/catalog.go:145-155 | A failure row unless the newest row is the same failure. |
| SpecStore.SpecStore.Refresh | backend/internal/openapi/service.go:82-100 | Cache first, index second; a failed fetch records only the failure. |
| SpecStore.SpecStore.IndexMissing | backend/internal/openapi/operations.go:107-123 | Indexes a cached spec whose operations were never counted, and nothing else. |
| Operations.ExtractOperations | backend/internal/openapi/operations.go:20-92 | Exactly the readable operations of the document, by path and then verb, and its version cut to 64 characters; neither for a malformed document. |
| SpecDiff.ExtractedExactly | backend/internal/openapi/operations.go:36-71 | An operation is listed for a path and verb if and only if the document has a readable one there, with what was read of it and the fingerprint of its path, shared parameters and text. |
| SpecDiff.VerbNames | backend/internal/openapi/operations.go:16 | The eight verbs and the names their operations are listed under. |
| SpecDiff.ExtractedInOrder | backend/internal/openapi/operations.go:72-77 | The list goes by path and, within a path, by verb, in the order of their bytes (`Ordering.LessExact`). |
| SpecDiff.FingerprintExact | backend/internal/openapi/operations.go:60-85 | Two fingerprints of one path and verb are equal if and only if shared parameters and operation text are. |
| SpecDiff.ListsOfDocuments | backend/internal/store/catalog.go:84-103 | For two documents: a path and verb is listed as added or removed if and only if only the later or only the earlier has a readable operation there, and as changed if and only if both have one and its text or the shared parameters differ. |
| SpecDiff.NoDifferenceExact | backend/internal/store/catalog.go:108-111 | The index sees no difference between two documents if and only if they have the same readable operations with the same text and shared parameters. |
| Operations.ExtractionIsDetermined | backend/internal/openapi/operations.go:37-77 | The order in which the document's maps are walked does not matter. |
| Operations.ExtractionIsKeyed | backend/internal/openapi/operations.go:60-69 | No two extracted operations share a key, and each has a fingerprint. |
| Operations.ReaderIsDependable | backend/internal/openapi/operations.go:98-104 | The extraction, with an injective spec hash, gives the index all it is assumed to read. |
| Operations.ExtractionIsRead | backend/internal/openapi/operations.go:98-104 | What `ExtractOperations` returns for a spec is what that reader reads, so the results on the index are results on it. |
| Keyring.Store.constructor | backend/internal/store/crypto.go:77-105 | The keyring of a starting process and the stored key, one created when there is none. |
| Keyring.Store.Rekey | backend/internal/store/crypto.go:219-260 | Success re-encrypts the listed columns, reports their number and drops the stored key under an external one; failure leaves database and keyring as they were. |
| Keyring.Store.Write | backend/internal/store/crypto.go:127-136 | A saved secret is stored under the current key; other columns stay. |
| KeyRotation.RekeyExact | backend/internal/store/crypto.go:221-245 | Rekey succeeds if and only if it can read every value it must rewrite, and rewrites exactly those. |
| KeyRotation.RewritesExact | backend/internal/store/crypto.go:221-245 | The reported number is that of the listed columns not under the current key id. |
| KeyRotation.RekeyKeepsPlaintext | backend/internal/store/crypto.go:219-260 | Afterwards every listed value reads as before, is under the current key id, and needs no other key. |
| KeyRotation.RotationKeepsSecrets | backend/internal/store/crypto.go:77-105 | Along any chain of restarts and saves in which each restart is still given the key used before, every listed secret stays sealed under a key that is handed over. |
| KeyRotation.SecretsAreReadable | backend/internal/store/crypto.go:138-158 | At the end of any such chain the running process reads every secret as it was last entered, if and only if its external key is not the one that was stored in the database when it started. |
| KeyRotation.LegacyModeKeepsSecrets | backend/internal/store/crypto.go:77-125 | Without an external key every listed secret is read as entered after any number of restarts, with no help from outside. |
| KeyRotation.DatabaseHoldsNoKey | backend/internal/store/crypto.go:216-260 | After a start with an external key that was handed the old one, the database holds no key and every listed secret is under the external one. |
| KeyRotation.FailedRekeyKeepsKeys | backend/internal/store/crypto.go:216-260 | A process whose Rekey failed still reads every value sealed under any key it was given, and every old-format value under the stored key. |
| KeyRotation.FailedRekeyIsMended | backend/cmd/server/main.go:194-200 | A restart without the key used before loses nothing when its Rekey fails: the next restart given that key again has every listed secret, sealed under its own key. |
| KeyRotation.HeldIsRead | backend/internal/store/crypto.go:138-158 | A process that can look up its current key reads every secret as it was entered. |
| KeyRotation.CurrentValueReadable | backend/internal/store/crypto.go:254-258 | The running process can read its own values after Rekey if and only if the dropped stored key is not the current one. |
| KeyRotation.OwnKeyLost | backend/internal/store/crypto.go:254-258 | A process started with the stored key as its external key reads its own value before Rekey and not after. |
| KeyRotation.UnlistedValueReadable | backend/internal/store/crypto.go:210-222 | At the end of any chain in which each restart is given the key used before it, a value Rekey does not list reads as its plaintext if the last process was given the key it is under and did not drop that key as the stored one; otherwise that key is unknown. |
| KeyRotation.SavedHeadersReadable | backend/internal/store/apis.go:73-110 | So injected headers saved at some moment of the chain and not since are readable at its end if and only if the last process was given the key used at that moment and did not drop it. |
| KeyRotation.UnlistedOldFormat | backend/internal/store/crypto.go:138-158 | An unlisted value of the older format, readable before Rekey, is readable after it if and only if no external key is configured. |
| KeyRotation.HeadersLostOnRotation | backend/internal/store/crypto.go:210-260 | The documented rotation, with no key ever stored: from k1 to k2 with previous k1, then to k2 alone. Every listed secret is read in the end, headers saved at the start are not. |
| KeyRotation.HeadersLostWithTheStoredKey | backend/internal/store/apis.go:73-88 | Injected headers saved while the key was in the database cannot be read once an external key has replaced it. |
| ProxyPath.AcceptedPathsAreNormal | backend/internal/proxy/service.go:154-183 | For every accepted path, removing dot segments (section 5.2.4 of RFC 3986) changes neither the escaped nor the decoded form. |
| ProxyPath.MatchesPrefixExact | backend/internal/proxy/service.go:319-330 | The allow-list admits a path if and only if the cleaned segments of some non-blank prefix are an initial run of the path's segments. |
| ProxyPath.ParentsGo | backend/internal/proxy/service.go:199-209 | Cleaning drops a parent segment together with the plain segment before it, wherever it stands. |
| ProxyPath.BlankSegmentsGo | backend/internal/proxy/service.go:199-209 | Cleaning drops empty segments and single dots. |
| ProxyPath.TopHasNoParent | backend/internal/proxy/service.go:199-209 | A parent segment at the start is dropped, and a path of plain segments stays as it is. |
| ProxyPath.JoinedPathDecodes | backend/internal/proxy/service.go:89-92 | `RawPath` decodes to `Path`, and so is what the URL sends, if and only if the base does not end in an encoded slash. |
| ProxyPath.EncodedSlashBase | backend/internal/proxy/service.go:89-92 | With the base /a%2F and the request /v1, `Path` is /a/v1 and `RawPath` decodes to /a//v1. |
| Metrics.EscapeRoundTrip | backend/internal/metrics/metrics.go:178-182 | Escaping a label value loses nothing. |
| Metrics.EscapeHasNoNewline | backend/internal/metrics/metrics.go:178-182 | An escaped value stays on its line. |
| Metrics.PaddingExact | backend/internal/metrics/metrics.go:155-168 | A missing value is an empty one, and values beyond the declared labels are ignored. |
| Metrics.SeriesNeverCollide | backend/internal/metrics/metrics.go:155-168 | Two label tuples render to the same key if and only if their values for the declared labels agree. |
| Metrics.WithLabelExtends | backend/internal/metrics/metrics.go:170-176 | The bucket key with its bound is the key of one more declared label. |
| Metrics.CounterVec.Add | backend/internal/metrics/metrics.go:65-70 | Adds to the total of the values' own tuple and to no other. |
| Metrics.CounterVec.Value | backend/internal/metrics/metrics.go:73-77 | Reads the tuple's total. |
| Metrics.HistogramVec.Observe | backend/internal/metrics/metrics.go:112-128 | Adds the value to what was observed for the values' own tuple and for no other, of which the series holds count, sum and bucket counts. |
| Metrics.AtMostCounts | backend/internal/metrics/metrics.go:121-125 | A bucket holds exactly the number of observed values at most its bound. |
| Metrics.BucketsAscend | backend/internal/metrics/metrics.go:121-127 | With ascending bounds the bucket counts ascend, up to the total. |
| Rbac.HasByTable | backend/internal/rbac/engine.go:22-80 | A user holds a scope if and only if one of the user's normalized scopes entails it by a fixed table of implications. |
| Decisions.SetUserGroupsDecided | backend/internal/api/admin_users.go:204-257 | A user's groups are set if and only if the user exists and, as an administrator, is changed by one, every group exists, and the actor holds every scope an added group grants. |
| Decisions.AddMembersDecided | backend/internal/api/admin_people.go:228-263 | Members are added if and only if the group exists, 1 to 500 existing users are listed, administrators by an administrator only, and the actor holds what the group grants. |
| Decisions.RemoveMemberDecided | backend/internal/api/admin_people.go:265-304 | A member is removed if and only if the group exists, the user is in it, and the actor may change that user. |
| Decisions.CreateGroupDecided | backend/internal/api/admin_groups.go:13-30 | A group is created if and only if its trimmed name is not blank and free. |
| Decisions.UpdateGroupDecided | backend/internal/api/admin_groups.go:32-66 | A group is changed if and only if its name stays free and, when a directory mapping changes, the actor holds what the group grants. |
| Decisions.SetGroupRolesDecided | backend/internal/api/admin_groups.go:89-112 | A group's roles are set if and only if group and roles exist and the actor holds every scope of an added role. |
| Decisions.CatalogExact | backend/internal/rbac/catalog.go:30-84 | The valid scopes are the 14 named ones and, for every number, the four of an API, in any spelling. |
| Decisions.AddPermissionDecided | backend/internal/api/admin_roles.go:65-91 | A scope is added to a role if and only if it is valid, the role exists and the actor holds it. |
| Decisions.ReplacePermissionsDecided | backend/internal/api/admin_roles.go:93-137 | A role's scopes are replaced if and only if all are valid, the role exists, and the actor holds every one the role does not have in some spelling. |
| Decisions.CreateApiDecided | backend/internal/api/admin_apis.go:99-124 | An API is created if and only if its slug is not blank and free, an owner group exists, and whoever names one holds `api.manage`. |
| Decisions.UpdateApiDecided | backend/internal/api/admin_apis.go:126-174 | An API is changed if and only if the actor holds its manage scope, the slug stays free, the owner exists, and whoever changes the owner holds `api.manage`. |
| Decisions.DeleteApiDecided | backend/internal/api/admin_apis.go:176-194 | An API is deleted if and only if the actor holds its delete scope. |
| Decisions.SetAccessDecided | backend/internal/api/admin_apis.go:247-280 | Access is set if and only if the actor holds the manage scope of the API and every row names an existing group and one of the two levels. |
| Decisions.PreregisterDecided | backend/internal/api/admin_directory.go:139-217 | A pre-registration under a name is accepted if and only if nobody has the name, the groups exist, and the actor holds what they grant. |
| Decisions.PreregisterEffect | backend/internal/api/admin_directory.go:199-217 | The new account is in exactly the listed groups; everybody else stays where they are. |
| Decisions.ImportDecided | backend/internal/api/admin_directory.go:48-132 | An import into groups is accepted if and only if the groups exist and the actor holds what they grant. |
| Decisions.ImportMembersEffect | backend/internal/api/admin_directory.go:90-132 | Exactly the LDAP accounts with a listed name join the groups, administrators only when one imports. |
| Decisions.NamesStayDifferent | backend/internal/db/db.go:60-140 | In every run no two groups or roles share a name and no two APIs a slug. |
| Frames.DeleteGroupFrame | backend/internal/store/groups.go:103-116 | Deleting a group keeps the roles and accesses of every other group, and every API with its slug; only the APIs it owned lose their owner. |
| Frames.PermissionsFrame | backend/internal/store/roles.go:106-137 | Changing one role's scopes keeps those of every other role and all other tables; refused, it changes nothing. |
| Frames.ReplacedOnce | backend/internal/store/roles.go:116-136 | After a replacement each scope is stored once, however often and in whatever spelling it was listed. |
| Frames.AccountFrame | backend/internal/db/db.go:483-517 | Account requests keep the memberships of everybody who stays and drop those of a deleted account. |
| Effects.SetUserGroupsEffect | backend/internal/store/groups.go:118-130 | Accepted, the target is in exactly the listed groups and everybody else where they were; refused, nothing moves. |
| Effects.MembersEffect | backend/internal/store/admin.go:67-82 | Accepted, exactly the listed users join exactly the group. |
| Effects.RemoveMemberEffect | backend/internal/store/admin.go:85-92 | Accepted, exactly the user leaves exactly the group. |
| Effects.SyncEffect | backend/internal/store/groups.go:61-101 | Afterwards the user is in a group mapped at this provider if and only if some membership equals the mapping up to case and surrounding space; all else stays, and everything when a missing user would have to join a group. |
| Effects.DeletedGroupEffect | backend/internal/store/groups.go:103-116 | A deleted group has no members and grants nothing, through no path; every other group grants what it did. |
| Effects.SetGroupRolesEffect | backend/internal/store/roles.go:58-70 | Accepted, the group has exactly the listed roles and other groups theirs. |
| Effects.DeletedRoleEffect | backend/internal/store/roles.go:43-56 | A deleted role grants nothing and no group has it; other roles are as before. |
| Effects.AddedPermissionEffect | backend/internal/store/roles.go:106-109 | Accepted, the role grants its old scopes and the normalized new one; other roles are as before. |
| Effects.SetAccessEffect | backend/internal/store/apis.go:131-143 | Exactly the listed groups have access, each at the level of its last row; other APIs are as before. |
| Effects.OwnerEffect | backend/internal/api/admin_apis.go:147-166 | The group asked for gains the API's manage scope, the former owner loses it, no other grant changes, and only a holder of every scope of every API changes the owner. |
| Effects.DeletedApiEffect | backend/internal/store/apis.go:155-171 | Deleting an API takes away the grants of the scopes with exactly its number, in any spelling and through every path, and no other grant; its id is not given out again. |
| Effects.OtherApisKeepScopes | backend/internal/store/apis.go:165 | Every other API keeps its scopes, also one whose number starts with the deleted one. |
| Effects.AccessGrants | backend/internal/store/apis.go:131-143 | The last row for a group grants it the scope of the API at the level the row names. |
| Accounts.BulkEffect | backend/internal/store/users.go:114-130 | Exactly the listed accounts get the status; a refused request changes nothing. |
| Accounts.BulkDecided | backend/internal/api/admin_people.go:168-208 | A bulk change is accepted if and only if it lists 1 to 500 accounts the actor may change, not their own when deactivating, and the count of administrators allows it. |
| Accounts.CreateDecided | backend/internal/api/admin_users.go:17-66 | A local account is created if and only if its trimmed name is not blank and free, an administrator's by an administrator only; it is active. |
| Accounts.UpdateDecided | backend/internal/api/admin_users.go:68-165 | A change is accepted if and only if the name stays free, administrators are made or changed by administrators only, nobody deactivates or demotes themselves, and an active administrator is left; the directory keeps name and address of its accounts. |
| Accounts.DeleteDecided | backend/internal/api/admin_users.go:149-191 | A deletion is accepted if and only if it is of another account, an administrator's by an administrator, and leaves an active administrator. |
| Accounts.DeleteEffect | backend/internal/api/admin_users.go:167-191 | An accepted deletion removes the account and no other; a refused one changes nothing. |
| ProxyPath.AcceptedExactly | backend/internal/proxy/service.go:154-183 | A path is accepted if and only if it is not blank, has no query and no fragment, is well escaped, and decodes to segments without dot segments, empty segments inside, backslashes and control bytes; it is taken as sent, behind a slash. |
| ProxyPath.DecodableExact | backend/internal/proxy/service.go:165 | A text decodes if and only if every percent sign is followed by two hexadecimal digits. |
| ProxyPath.AcceptedSegments | backend/internal/proxy/service.go:165-181 | An accepted path has no dot segment, no empty segment but possibly its last, no backslash and no control byte. |
| Identity.WriteEscaped | backend/internal/store/audit.go:54-63 | The loop writes the escaped form. |
| ProxyPath.IsAllowed | backend/internal/proxy/service.go:319-330 | The loop over the prefixes admits exactly the paths the allow-list matches. |
| Metrics.RenderLabels | backend/internal/metrics/metrics.go:155-168 | The loop renders the key of the padded values. |
| ProxyPath.EncodedDecodes | backend/internal/proxy/service.go:165 | Percent-decoding undoes percent-encoding, for every byte string. |

## Left out

- Interleavings of two requests: each request is atomic, although its checks and its write are in different transactions.
- Route guards (`backend/internal/api/server.go`): they only refuse requests, so every result above holds with them too.
- HTTP, JSON decoding, cookies, CSRF, audit entries, logging, migrations, backups, full-text search, the frontend.
- LDAP and OpenID Connect exchanges: directory membership is a fixed relation, an accepted password an event.
- Identity provider settings and passwords as sources of authority: who may change them is not part of the no-escalation result.
- AES-GCM, SHA-256, Argon2 and random numbers: function parameters. Opening undoes sealing; ids and base64 text contain no colon; key ids are distinct for the keys given to a restart; spec hashes are injective.
- Unicode: lower-casing and trimming are modelled for ASCII; proxy paths and metric labels are byte strings.
- Go's `time.Time` saturation and 64-bit wrap-around of counters; only `strconv.Atoi`'s clamping of API ids is modelled.
- Floating-point rounding, NaN and infinity in metrics: values are reals.
- `Granting.ImportLDAP`, `Granting.Preregister`, `Granting.RenameRole`, `Granting.DeletePermission` and the account requests of `Granting` have no method in `PermStore`; their account part is in `PortalStore`.
- Permission descriptions, group and role descriptions, display names and the other API fields that no check reads.
- Validation of API URLs, headers, limits, e-mail addresses and password policy: such refusals change nothing.
- `Engine.ManagedAPIs`, the overview counts, favourites and recent views: easy list functions.
- SpecReplay.StoredHistoryReplays: says nothing once a list was cut at 200 keys or a row written since was evicted, because then the history no longer tells the difference.
- PortalStore.PortalStore.RequireSession: whether the account owes a new password and whether the route is exempt are parameters; passwords are not part of this model.
- Database failures other than broken constraints. Where the code only logs one (the session touch of `backend/internal/api/session.go:172-176`, revoking a session), the model takes the write to succeed; the idle timeout is as accurate as stated only then.
- KeyRotation.RotationKeepsSecrets: covers the columns Rekey lists; for `inject_headers_enc` see KeyRotation.UnlistedValueReadable.
- PermStore.PermStore.SyncDirectoryGroups: reports the joined and left groups as ids in some order, while the code walks the groups by name and reports names.
- `golang.org/x/time/rate` and outbound-connection checks: library behaviour.
