# Manga: access control, catalog helpers, scraper and client rules in Dafny

This project models the decision logic of the Manga repository: a Django
API for a manga catalogue, the scraper worker that feeds it, and the Vue
client that reads it. Every part is written as immutable data plus pure
functions, and its promises are proved as contracts and lemmas.

- **Discretionary access control.** The grant store, with its owners, the
  permission registry, and user and group grants on an object or on the
  wildcard `*`. Also the `has_permission` precedence chain, the grant
  upserts, `create_profile`, the `require_permission` decorator and the
  REST permission class (`AccessControl`, `DacModels`). Database failures
  are an explicit `Faults` value, and the code turns each one into a deny.
- **Profiles and roles.** The profile table and its groups, nested
  permission sets and group setup (`Profiles`). The profile's
  `save`/`sync_groups`, the profile gates and the user-creation signal
  (`UserProfiles`, `Accounts`), plus the REST checkers (`Checkers`).
- **Views.** The permission listing and user search (`AuthView`), the
  profile admin actions (`DacView`) and the catalog queryset, random pick
  and view counter (`MangaView`). Also the request counters and audit
  recorder (`Middleware`), the statistics endpoint (`StatsView`), error
  reshaping (`Exceptions`) and field restriction (`DynamicFields`).
- **URL helpers.** B2 object keys and URL normalisation (`B2Service`),
  and the serializers' CDN and absolute-URL rules (`CatalogSerializers`).
- **Scraper worker.** Slugs and code names, image selection, download
  naming, renumbering and the update list (`Worker`, `WorkerFiles`). The
  worker server's API-key gate and image selection (`WorkerServer`).
- **Null-byte cleaner.** `clean_null_bytes` over a file tree (`NullBytes`).
- **Client.** The TTL cache and its keys (`ClientCache`), the CDN
  rewrite (`Cdn`), the type and origin classifiers (`MangaUI`), the list
  filters (`MangaFilters`) and the cover choice (`MangaService`). JavaScript
  values are a small datatype with JavaScript's truthiness and string
  conversion (`JsValues`).

Shared helpers are `Wrappers` (`Option`), `Text` (strings, ASCII case,
splitting, decimal padding) and `Ordering` (lexicographic order, stable
sorting, de-duplication, filtering).

Several things are inputs to the model rather than part of it:

- the clock;
- the SHA-1 digest;
- Unicode mark stripping and `isalnum`;
- `urljoin`, the regular-expression scan and `build_absolute_uri`;
- the random shuffle;
- the success or failure of `localStorage.setItem`.

Files are maps from names to contents.

## Model

| member | source | states |
|---|---|---|
| AccessControl.NoUserDenied | MangaApi/ApiCore/access_control.py:27-28 | with no user `has_permission` refuses, whatever the store and the faults |
| AccessControl.AnonymousDenied | MangaApi/ApiCore/access_control.py:33-68 | an unauthenticated user is refused: each of its lookups fails and the failure is swallowed into the default deny |
| AccessControl.SuperuserAllowed | MangaApi/ApiCore/access_control.py:29-30 | a superuser is allowed on every target and codename, even when every query fails |
| AccessControl.OwnerAllowed | MangaApi/ApiCore/access_control.py:33-37 | an Owner row for the user and target grants every permission |
| AccessControl.UnregisteredDenied | MangaApi/ApiCore/access_control.py:43-45 | a codename with no Permission row is refused for non-owners, before grants are read |
| AccessControl.UserDenyWins | MangaApi/ApiCore/access_control.py:48-51 | an explicit user deny on the object or on '*' refuses, even alongside a user allow or group grants |
| AccessControl.UserAllowBeatsGroupDeny | MangaApi/ApiCore/access_control.py:52-53 | a user allow with no user deny is allowed, so group denies never override it |
| AccessControl.GroupTier | MangaApi/ApiCore/access_control.py:54-62 | with no user-level row, the answer is exactly: some group allow and no group deny |
| AccessControl.AllowedOnlyFor | MangaApi/ApiCore/access_control.py:18-68 | an allow always has a reason: superuser, owner, a user allow or a group allow (default deny) |
| AccessControl.FaultsNeverGrant | MangaApi/ApiCore/access_control.py:38-39 | failing queries never turn a deny into an allow: whatever is allowed with faults is allowed without them |
| AccessControl.CheckPermission | MangaApi/ApiCore/access_control.py:18-68 | the step-by-step check with early returns and the two swallowing try blocks agrees with the declarative decision |
| AccessControl.FindPermission | MangaApi/ApiCore/access_control.py:43 | finds a row with the codename, or reports that no row has it |
| AccessControl.GetPermission | MangaApi/ApiCore/access_control.py:13-15 | get_or_create: an existing row is returned and the store is unchanged; otherwise exactly one row named after the codename is added; codenames stay unique |
| AccessControl.FindGrant | MangaApi/ApiCore/access_control.py:74-77 | finds the grant row with the key (user, group, content type, object id, permission), or reports there is none |
| AccessControl.UpsertGrant | MangaApi/ApiCore/access_control.py:74-80 | get_or_create followed by the allow update: the key's row ends with the requested allow, rows of other keys are kept, keys stay unique, and a new row is appended at the end |
| AccessControl.GetOrCreateGrant | MangaApi/ApiCore/access_control.py:116 | get_or_create with default allow: an existing row with the key is returned unchanged (even a deny); otherwise an allow row is appended |
| AccessControl.GetOrCreateIn | MangaApi/ApiCore/access_control.py:116-119 | the same get_or_create on the whole store: the store stays valid and only grows at the end |
| AccessControl.RegistryGrows | MangaApi/ApiCore/access_control.py:13-15 | codenames registered before an operation that only adds codenames stay registered, so grants keep naming registered permissions |
| AccessControl.GrantWith | MangaApi/ApiCore/access_control.py:71-81 | registers the codename and upserts the grant; the row for the key carries the requested allow and nothing else changes |
| AccessControl.GrantPermission | MangaApi/ApiCore/access_control.py:71-81 | grant_permission: the returned row is a user row (no group) on the target with the requested allow; rows of other keys are kept |
| AccessControl.GrantGroupPermission | MangaApi/ApiCore/access_control.py:84-94 | grant_group_permission: the same for a group row with no user |
| AccessControl.GrantIdempotent | MangaApi/ApiCore/access_control.py:71-81 | granting the same thing twice leaves the store as a single grant leaves it |
| AccessControl.GrantDenyThenCheck | MangaApi/ApiCore/access_control.py:48-51 | after a deny is granted to a non-owner, non-superuser, `has_permission` refuses |
| AccessControl.GrantAllowThenCheck | MangaApi/ApiCore/access_control.py:52-53 | after an allow is granted, `has_permission` admits the user unless another of the user's rows on '*' or on the object denies |
| AccessControl.AddProfileGrant | MangaApi/ApiCore/access_control.py:105-119 | one loop step of create_profile: the codename is registered and a wildcard row for the group exists; earlier rows are kept |
| AccessControl.AddProfileGrants | MangaApi/ApiCore/access_control.py:105-119 | after the loop, every listed permission has its wildcard group row and is registered |
| AccessControl.CreateProfile | MangaApi/ApiCore/access_control.py:97-121 | the group exists afterwards; existing rows are an unchanged prefix; every new row is a wildcard allow; every listed permission is covered |
| AccessControl.CreateProfileKeepsDeny | MangaApi/ApiCore/access_control.py:116-119 | an existing deny row survives create_profile untouched: get_or_create never overwrites the allow flag |
| AccessControl.RequirePermission | MangaApi/ApiCore/access_control.py:124-146 | the decorator: no target and no pk/id gives 'Missing target…'; a pk/id without a target gives 'Cannot resolve…'; with a target the view runs exactly when has_permission holds, otherwise 'Permission denied' |
| AccessControl.ViewPermission | MangaApi/ApiCore/access_control.py:157-165 | safe methods pass, POST passes exactly for authenticated users, every other method passes to the object check |
| AccessControl.ObjectPermission | MangaApi/ApiCore/access_control.py:167-172 | safe methods pass; any other method needs the 'write' permission on the object |
| AccessControl.AuthorizeCases | MangaApi/ApiCore/access_control.py:149-172 | both DRF checks together: reads are open, anonymous POST is refused, and PUT/PATCH/DELETE succeed exactly with 'write' |
| Accounts.HasPerm | MangaApi/ApiCore/Models/user_models.py:78 | Django's `has_perm` as the profile check uses it: an inactive user has nothing; an active superuser has everything; otherwise the codename must be a direct permission or belong to one of the user's groups |
| DacModels.NewGrant | MangaApi/ApiCore/Models/dac_models.py:21-37 | a new AccessGrant row has the requested key and the field default allow=True |
| DacModels.NewAuditLog | MangaApi/ApiCore/Models/dac_models.py:58-69 | a new AuditLog row has the model defaults: allowed=False, no user, content type, object id or status, empty view name and detail |
| DacModels.GrantLabel | MangaApi/ApiCore/Models/dac_models.py:39-41 | the grant's text names its verdict (' ALLOW ' or ' DENY ') and ends with '#' and the object id |
| DacModels.OwnerLabel | MangaApi/ApiCore/Models/dac_models.py:54-55 | the owner's text starts with 'Owner: ' and ends with '#' and the object id |
| DacModels.AuditLabel | MangaApi/ApiCore/Models/dac_models.py:74-76 | the audit text ends with '-> ALLOWED' or '-> DENIED' as recorded, and shows 'anon' for a row without a user |
| DacModels.LabelParts | MangaApi/ApiCore/Models/dac_models.py:74-76 | a text assembled from parts ends with its last part and contains each middle part |
| DacModels.AuditListing | MangaApi/ApiCore/Models/dac_models.py:71-72 | the default ordering '-created' lists the same rows, newest first |
| UserProfiles.ProfileChoicesTable | MangaApi/ApiCore/Models/user_models.py:12-30 | four profile choices, the default 'home_only' among them, and exactly the choices have a profile group |
| UserProfiles.SyncGroupsAsWritten | MangaApi/ApiCore/Models/user_models.py:61-72 | as written: the user keeps only the profile's group; every other group, profile or not, is removed; nothing else about the user changes |
| UserProfiles.SyncGroupsAsWrittenDropsOtherGroups | MangaApi/ApiCore/Models/user_models.py:65-66 | a user in a non-profile group 'Editors' loses it on sync |
| UserProfiles.SyncGroups | MangaApi/ApiCore/Models/user_models.py:61-72 | corrected: groups outside the four profile groups are kept; among the profile groups the user ends in exactly the one of their profile |
| UserProfiles.SyncGroupsAgree | MangaApi/ApiCore/Models/user_models.py:61-72 | the two agree for a user with only profile groups, and both are idempotent |
| UserProfiles.SaveProfile | MangaApi/ApiCore/Models/user_models.py:56-72 | saving a profile keeps it and leaves the user in exactly the profile's group: every other group is removed, only the groups change, and a second save changes nothing |
| UserProfiles.SaveProfileCorrected | MangaApi/ApiCore/Models/user_models.py:56-72 | the save over the corrected sync keeps the profile, puts the user in its group and leaves membership of every group outside the profile table unchanged |
| UserProfiles.UserPostSave | MangaApi/ApiCore/Models/user_models.py:96-107 | the post_save receivers: a new user gets the 'home_only' profile and ends in exactly the 'home_only' group; an existing profile keeps its value and leaves the user in exactly its group, every other group removed; a user without a profile is left alone; identity and flags are never touched |
| UserProfiles.UserPostSaveCorrected | MangaApi/ApiCore/Models/user_models.py:96-107 | the receivers over the corrected sync: a new user gets the 'home_only' profile and its group; membership of every group outside the profile table is unchanged; identity and flags are never touched |
| UserProfiles.HasProfilePermission | MangaApi/ApiCore/Models/user_models.py:74-78 | true exactly when an active user is a superuser, holds the codename directly, or gets it from a group |
| UserProfiles.IsModeratorOrHigher | MangaApi/ApiCore/Models/user_models.py:88-90 | true exactly for the 'moderator' and 'admin' profiles |
| UserProfiles.NsfwByProfile | MangaApi/ApiCore/Models/user_models.py:80-82 | after setup and a profile save, premium, moderator and admin users can view NSFW content, and a home_only user without a direct grant cannot, whatever groups they were in before the save |
| UserProfiles.NsfwGranted | MangaApi/ApiCore/permissions/definitions.py:18-45 | premium, moderator and admin users can view NSFW content once the groups are set up |
| UserProfiles.NsfwDenied | MangaApi/ApiCore/permissions/definitions.py:14-16 | a home_only user with no direct grant cannot, because the save has removed every other group |
| Profiles.ProfileGroupTable | MangaApi/ApiCore/permissions/definitions.py:5-10 | exactly the four profile keys map to a group, each to its own group, and the mapping is injective |
| Profiles.ProfilePermissionsNested | MangaApi/ApiCore/permissions/definitions.py:13-46 | HomeOnly has no permissions; Premium's are Moderator's, Moderator's are Admin's; only Admin may manage users, manga and chapters |
| Profiles.AttachExisting | MangaApi/ApiCore/permissions/definitions.py:72-81 | the codenames that exist are attached; the missing ones are reported, in list order |
| Profiles.SetupGroups | MangaApi/ApiCore/permissions/definitions.py:61-81 | every listed group exists and holds exactly its existing profile permissions (the old ones are cleared); other groups are untouched |
| Profiles.SetupGroupsAndPermissions | MangaApi/ApiCore/permissions/definitions.py:49-83 | the four profile groups exist with exactly their defined permissions that exist; other groups and their permissions are unchanged; every missing codename is reported |
| Checkers.HasProfilePermissionCheck | MangaApi/ApiCore/permissions/checkers.py:12-28 | unauthenticated users or users without a profile are refused; no required permission admits; otherwise the profile permission decides |
| Checkers.CanViewNsfwCheck | MangaApi/ApiCore/permissions/checkers.py:34-48 | a non-erotic object is open; an erotic one needs an authenticated user with a profile that can view NSFW |
| Checkers.IsModeratorOrAdminCheck | MangaApi/ApiCore/permissions/checkers.py:54-59 | true exactly for authenticated users whose profile is moderator or admin |
| Checkers.CanAccessAdminPanelCheck | MangaApi/ApiCore/permissions/checkers.py:65-70 | true exactly for authenticated users with a profile that holds 'access_admin_panel'; such users are active |
| Checkers.AnonymousGates | MangaApi/ApiCore/permissions/checkers.py:12-70 | the anonymous user passes only the NSFW gate, and only on non-erotic objects |
| DacView.StaffGate | MangaApi/ApiCore/View/dac_view.py:25-44 | create, update, partial update and destroy of a profile pass exactly for staff users; everyone else gets a 403 |
| DacView.ActionGateAsWrittenAdmitsNonStaff | MangaApi/ApiCore/View/dac_view.py:46-48 | as written, the inner `permission_classes` decorator has no effect under `@action`, so the ViewSet's IsAuthenticatedOrReadOnly admits an authenticated non-staff POST |
| DacView.ActionGate | MangaApi/ApiCore/View/dac_view.py:46-47 | corrected: the admin-only actions pass exactly for staff users |
| DacView.LookupUser | MangaApi/ApiCore/View/dac_view.py:50-59 | a falsy user_id (missing, null, false, 0, empty text, empty list or dict) gives 400 'user_id required'; a value the id field cannot turn into an integer gives a 500 with the field's error; an integer naming no stored user gives 404 'user not found'; otherwise the stored user with that id is found |
| DacView.LookupUserFormText | MangaApi/ApiCore/View/dac_view.py:50-54 | the decimal text of an id finds what the JSON number finds, except 0: the number is falsy (400) while the text is looked up (404 when no user 0) |
| DacView.LookupUserOddValues | MangaApi/ApiCore/View/dac_view.py:50-54 | JSON true finds user 1, and text without a digit gives the 500 conversion error rather than 404 |
| Text.PyIntText | MangaApi/ApiCore/View/dac_view.py:54 | the id conversion `int(v)` reads the text of any integer back as that integer |
| Text.PyIntNeedsDigit | MangaApi/ApiCore/View/dac_view.py:54 | text without a decimal digit has no integer value |
| DacView.SaveUser | MangaApi/ApiCore/View/dac_view.py:56 | user.save() keeps the id and the profile; a user with a profile ends in exactly the profile's group; a user without one is unchanged |
| DacView.SaveUserCorrected | MangaApi/ApiCore/View/dac_view.py:56 | the save over the corrected sync keeps the profile and every non-profile group |
| DacView.AddUserAsWritten | MangaApi/ApiCore/View/dac_view.py:48-59 | as written: success exactly when the user is found and a failure changes nothing; on success a user with a profile ends in exactly the profile's group (the added group is gone unless it is that group), and a user without a profile gains the group |
| DacView.AddUserAsWrittenLosesGroup | MangaApi/ApiCore/View/dac_view.py:55-57 | as written, adding a home_only user to 'Editors' replies 'user added', yet the save's group sync has already removed the group |
| DacView.AddUser | MangaApi/ApiCore/View/dac_view.py:48-59 | corrected: success exactly when the user is found; a failure changes nothing; on success the user keeps every non-profile group and is in the added one |
| DacView.RemoveUser | MangaApi/ApiCore/View/dac_view.py:63-74 | success exactly when the user is found and a failure changes nothing; on success a user with a profile ends in exactly the profile's group, every other group removed, and a user without a profile loses just the named group |
| DacView.RemoveUserCorrected | MangaApi/ApiCore/View/dac_view.py:63-74 | over the corrected sync: on success the named group is gone and every other non-profile group is kept |
| DacView.Grant | MangaApi/ApiCore/View/dac_view.py:84-104 | a missing codename or model gives 400; an unknown model gives 400 'unknown model …'; valid arguments always grant and register the codename; an allow row on the unsaved object id 'None' exists; the returned row has the requested key, is the existing row for that key when there is one (even a deny), and allows when the key is new or is 'None'; every other row is kept, no row appears besides those two, and owners are unchanged |
| DacView.GrantThenMemberAllowed | MangaApi/ApiCore/View/dac_view.py:84-104 | after a grant, a signed-in member of the profile with no user-tier row on the object or on '*' and no denying group row there passes has_permission on that object |
| DacView.MemberAllowedAfter | MangaApi/ApiCore/access_control.py:48-62 | the group tier allows a member when the table gained only allow rows without a user, among them one of the member's group on the target |
| DacView.GrantRows | MangaApi/ApiCore/View/dac_view.py:97-102 | the row bookkeeping of grant: what the unsaved-object upsert and get_or_create keep, add and return |
| DacView.ProfileGrants | MangaApi/ApiCore/View/dac_view.py:108-112 | exactly the group's rows, in table order |
| DacView.GuardedGrant | MangaApi/ApiCore/View/dac_view.py:76-104 | corrected gate around grant: non-staff users get a 403 and the store is unchanged; staff get the grant action |
| Middleware.CounterKeysDistinct | MangaApi/ApiCore/middleware.py:22-33 | the total, per-endpoint and daily counter keys never collide, so one request's three bumps are independent |
| Middleware.CountRequest | MangaApi/ApiCore/middleware.py:15-33 | a path outside '/api/' changes no counter; an '/api/' path adds one to the total, to its endpoint-and-method counter and to today's counter; no other key changes |
| Middleware.ProcessView | MangaApi/ApiCore/middleware.py:66-87 | the audit metadata records path, method and view name; an object is resolved exactly when get_object returns, and a raising get_object leaves it unresolved |
| Middleware.Allowed | MangaApi/ApiCore/middleware.py:112 | a response counts as allowed exactly when its status is below 400 (the extra 403 test is subsumed) |
| Middleware.AuditRow | MangaApi/ApiCore/middleware.py:100-125 | the audit row: allowed as above, the status recorded, the user only when authenticated, content type and object id together and only for a resolved object, and path and method falling back to the request's |
| Middleware.ProcessResponse | MangaApi/ApiCore/middleware.py:89-130 | the response is always returned unchanged; without metadata, or when the insert fails, the log is unchanged; otherwise exactly one row is appended, and it is the `AuditRow` of the metadata, the user, the request and the response status, so an anonymous request is logged without a user and an unresolved object without content type or id |
| Middleware.DeniedResponsesLoggedDenied | MangaApi/ApiCore/middleware.py:112-116 | a 403 or any error status is logged as denied, and an anonymous request is logged without a user |
| StatsView.ParseKeyAsWrittenMisreadsPath | MangaApi/ApiCore/View/stats_view.py:39 | as written: the counter of any request whose path itself contains 'api_endpoint_' is read back under another path, because every occurrence of the prefix is removed |
| StatsView.ParseKeyAsWrittenAgrees | MangaApi/ApiCore/View/stats_view.py:39 | the as-written parse recovers (path, method) when the method has no underscore and the path, with the separator after it, holds no copy of the prefix |
| StatsView.NoPrefixAcrossSeparator | MangaApi/ApiCore/View/stats_view.py:39 | since the prefix ends with '_', a copy of it cannot reach into a method without '_' |
| StatsView.MisreadExample | MangaApi/ApiCore/View/stats_view.py:39 | the concrete case: a request to '/api/api_endpoint_/' is misreported |
| StatsView.ParseKeyIff | MangaApi/ApiCore/View/stats_view.py:39-41 | corrected parser, both directions: a listed key parses to (path, method) exactly when it is that pair's counter key and the method has no underscore |
| StatsView.ParseEndpointKey | MangaApi/ApiCore/View/stats_view.py:39-41 | the corrected parser inverts the key the middleware writes (middleware.py:26) |
| StatsView.ParsedKeyShape | MangaApi/ApiCore/View/stats_view.py:39-41 | whatever the corrected parser returns rebuilds the key it was read from |
| StatsView.LastSplitUnique | MangaApi/ApiCore/View/stats_view.py:39 | splitting at the last separator has one answer |
| StatsView.SetMethod | MangaApi/ApiCore/View/stats_view.py:47 | setting one method's count changes that method only |
| StatsView.LookupPathBound | MangaApi/ApiCore/View/stats_view.py:44-45 | the path lookup finds the row with that path, or reports that none has it |
| StatsView.Record | MangaApi/ApiCore/View/stats_view.py:44-47 | recording one (path, method, count) sets exactly that entry, creating the path when it is new, and leaves every other entry as it was |
| StatsView.SkipKeyCorrected | MangaApi/ApiCore/View/stats_view.py:40 | with the corrected parser, a key that does not split in two adds nothing |
| StatsView.RecordKeyCorrected | MangaApi/ApiCore/View/stats_view.py:40-47 | the corrected loop invariant: after a parsed key is recorded, the table shows exactly the listed keys read so far, with their counts |
| StatsView.Collect | MangaApi/ApiCore/View/stats_view.py:32-47 | the endpoint table has an entry for (path, method) exactly when the as-written parse of some listed key gives that pair, and it holds the counter of the last such key |
| StatsView.LastParsedAs | MangaApi/ApiCore/View/stats_view.py:34-47 | the key found is the last listed key the as-written parse reads as the pair, and none is found exactly when no listed key reads so |
| StatsView.CollectCorrected | MangaApi/ApiCore/View/stats_view.py:32-47 | with the corrected parser the table holds an entry for (path, method) exactly when that counter key is listed (and the method has no underscore), with the counter's value |
| StatsView.CollectAgrees | MangaApi/ApiCore/View/stats_view.py:32-47 | where every listed key parses alike under both parsers, the two tables show the same counters |
| StatsView.Totals | MangaApi/ApiCore/View/stats_view.py:50-56 | each path's total is the sum of its method counts |
| StatsView.Rank | MangaApi/ApiCore/View/stats_view.py:59-61 | the ranking is a permutation of the totals, in non-increasing order of total |
| StatsView.UsageRecommendation | MangaApi/ApiCore/View/stats_view.py:115-127 | more than 10000 daily calls gives a warning, more than 5000 an info, otherwise nothing, with the source's messages |
| StatsView.TopRecommendation | MangaApi/ApiCore/View/stats_view.py:130-140 | the top-endpoint advice is an 'optimization' info naming the path |
| StatsView.Recommendations | MangaApi/ApiCore/View/stats_view.py:93-142 | the usage advice (when any) comes first; the top-endpoint advice comes last and only when some endpoint was called, and it names the first ranked path |
| StatsView.GetStats | MangaApi/ApiCore/View/stats_view.py:20-66 | the statistics carry the total, daily and response counters; the endpoint table shows, for each pair, the counter of the last listed key whose as-written parse gives it; then its ranking and the recommendations |
| StatsView.GetStatsCorrected | MangaApi/ApiCore/View/stats_view.py:20-66 | with the corrected parser the endpoint table shows exactly the listed counter keys, each with its value; the counters, ranking and recommendations are as in GetStats |
| StatsView.CountedRequestShown | MangaApi/ApiCore/View/stats_view.py:20-47 | after the middleware counts an '/api/' request whose path holds no copy of the prefix, the statistics list that endpoint and method, with the count one higher unless another listed key reads the same, and the total and daily calls are one higher |
| StatsView.ListedEndpointShown | MangaApi/ApiCore/View/stats_view.py:32-47 | a listed key that parses as (path, method) puts that pair in the table, with its own counter when no other listed key parses the same |
| StatsView.CountedRequestShownCorrected | MangaApi/ApiCore/View/stats_view.py:20-47 | with the corrected parser every counted '/api/' request shows with its endpoint count one higher, and the total and daily calls are one higher |
| StatsView.Reset | MangaApi/ApiCore/View/stats_view.py:75-90 | the reset deletes exactly the total, average, response-count, today's and the listed endpoint keys and leaves every other key's value |
| StatsView.ResetClearsStats | MangaApi/ApiCore/View/stats_view.py:75-90 | after a reset no endpoint key is left and the statistics read back are all zero and empty |
| MangaView.Queryset | MangaApi/ApiCore/View/manga_view.py:26-33 | an authenticated user sees every manga; an anonymous user sees exactly the non-erotic ones, in catalogue order |
| MangaView.ShuffleOrder | MangaApi/ApiCore/View/manga_view.py:66 | ordering by the random key is a total preorder, so the random order is well defined |
| MangaView.Random | MangaApi/ApiCore/View/manga_view.py:55-68 | at most five items, exactly five when the queryset has that many (otherwise all of them), drawn without repetition from the visible queryset |
| MangaView.RandomHidesErotic | MangaApi/ApiCore/View/manga_view.py:59-62 | an anonymous user never gets an erotic manga from random |
| MangaView.FindVisible | MangaApi/ApiCore/View/manga_view.py:21-33 | get_object looks in the user's queryset as the request's filters leave it: it finds the first manga with that key that the user may see and the filters keep, or reports there is none |
| MangaView.IncrementView | MangaApi/ApiCore/View/manga_view.py:45-53 | every failure is a 400 that changes nothing: malformed filter parameters give the filterset's error, a key that does not convert to a number gives an empty detail, and a key with no visible, kept manga gives the not-found detail; otherwise exactly that manga's views go up by one and the new count is returned |
| MangaView.IncrementKey | MangaApi/ApiCore/View/manga_view.py:48-51 | with the key converted, the count goes up exactly when a visible, kept manga has that id, and a miss is the not-found 400 |
| MangaView.IncrementViewKeys | MangaApi/ApiCore/View/manga_view.py:47-53 | the key 'abc' gives a 400 with an empty detail, while a negative number is looked up and gives the not-found detail |
| MangaView.IncrementTwice | MangaApi/ApiCore/View/manga_view.py:49-51 | two increments of the same manga add two views and report the count after both, as long as the filters still keep the row |
| MangaView.IncrementAt | MangaApi/ApiCore/View/manga_view.py:48-51 | a kept, visible manga whose id no other row carries is the one counted |
| MangaView.CatalogGate | MangaApi/ApiCore/View/manga_view.py:20-104 | every catalogue ViewSet uses the DAC permission class; increment-view is open to anyone |
| MangaView.CatalogGateCases | MangaApi/ApiCore/View/manga_view.py:45-104 | list, retrieve, random and increment-view are open; create needs an authenticated user; update and delete need 'write' on the object; an anonymous user can only read and count views |
| B2Service.FolderKeys | MangaApi/ApiCore/services/b2_service.py:42-58 | two placeholder keys: the chapters folder and then the covers folder of the series, each ending in '/.keep' |
| B2Service.FoldersOnCreate | MangaApi/ApiCore/View/manga_view.py:35-41 | a created manga gets its folders exactly when it has a non-empty code |
| B2Service.MarkedPath | MangaApi/ApiCore/services/b2_service.py:117-121 | the path is the piece after the first '/file/MangaApi/' (up to any second one), otherwise after the first '/MangaApi/', otherwise there is none |
| B2Service.NormalizeImageUrl | MangaApi/ApiCore/services/b2_service.py:106-134 | an empty url gives None; a worker-host url is kept; otherwise a marked 'covers/' path is rewritten to the image worker, a marked 'chapters/' path to the chapter worker, and a url with no marked path or another folder is returned unchanged |
| B2Service.CoverBaseOnHost | MangaApi/ApiCore/services/b2_service.py:129 | a rewritten cover url names the image worker host |
| B2Service.ChapterBaseOnHost | MangaApi/ApiCore/services/b2_service.py:132 | a rewritten chapter url names the chapter worker host |
| B2Service.NormalizeIdempotent | MangaApi/ApiCore/services/b2_service.py:106-134 | normalising twice gives what normalising once gives |
| B2Service.UploadUrlsNormalized | MangaApi/ApiCore/services/b2_service.py:79-100 | the urls the two uploads return are already normalised |
| B2Service.NormalizeRawUpload | MangaApi/ApiCore/services/b2_service.py:118-132 | a raw bucket download url of a cover or chapter key normalises to the worker url of that key |
| B2Service.NormalizePathStyle | MangaApi/ApiCore/services/b2_service.py:120-132 | a raw path-style bucket url ('/MangaApi/' without '/file/') of a cover or chapter key normalises the same way |
| B2Service.RawUploadRoundTrip | MangaApi/ApiCore/services/b2_service.py:64-134 | normalising the raw bucket url of an uploaded file gives the url the upload itself returns |
| CatalogSerializers.CdnPage | MangaApi/ApiCore/Serializer/chapter_serializer.py:22-26 | a page url without 'backblazeb2.com' is kept; otherwise the result starts with 'https://' and the CDN domain and continues with a prefix of what follows the first 'backblazeb2.com' |
| CatalogSerializers.GetPages | MangaApi/ApiCore/Serializer/chapter_serializer.py:11-28 | no pages or no 'images' entry gives an empty list; otherwise one url per image, unchanged without the CDN setting and rewritten one by one with it |
| CatalogSerializers.CdnPageMovesHost | MangaApi/ApiCore/Serializer/chapter_serializer.py:22-24 | a bucket url whose path does not repeat the domain moves to the CDN domain with the same path |
| CatalogSerializers.GetPagesPointwise | MangaApi/ApiCore/Serializer/chapter_serializer.py:18-27 | with the CDN setting, each bucket image moves to the CDN domain and every other image is kept, in place |
| CatalogSerializers.Absolutize | MangaApi/ApiCore/Serializer/manga_serializer.py:21-31 | an http(s) url or a missing request keeps the url; otherwise the request builds the absolute url, and the url is kept when that raises |
| CatalogSerializers.UrlAbsoluta | MangaApi/ApiCore/Serializer/manga_serializer.py:17-31 | an empty url gives None; every other url is made absolute as above |
| CatalogSerializers.UrlAbsolutaStable | MangaApi/ApiCore/Serializer/manga_serializer.py:22-23 | an absolute url_absoluta is a fixed point |
| CatalogSerializers.LowestVigente | MangaApi/ApiCore/Serializer/manga_serializer.py:62 | the first current cover by id: None exactly when no cover is current, otherwise a current cover whose id is the smallest among current covers |
| CatalogSerializers.CoverUrl | MangaApi/ApiCore/Serializer/manga_serializer.py:59-77 | a failing query gives None; otherwise None exactly when no cover is current, else the lowest-id current cover's url made absolute |
| CatalogSerializers.CoverUrlIgnoresTipo | MangaApi/ApiCore/Serializer/manga_serializer.py:62 | the cover type plays no part: covers differing only in tipo_cover give the same cover_url |
| CatalogSerializers.CoverUrlMatchesUrlAbsoluta | MangaApi/ApiCore/Serializer/manga_serializer.py:17-31 | the manga's cover_url equals its main cover's url_absoluta, except for an empty url, where url_absoluta is None but cover_url is still made absolute |
| DynamicFields.Keep | MangaApi/ApiCore/utils/serializers.py:16-19 | popping every existing field outside the allowed set leaves exactly the fields in both |
| DynamicFields.Restrict | MangaApi/ApiCore/utils/serializers.py:9-29 | the shown fields are the existing ones that pass the 'fields' argument (when given) and the comma-separated 'fields' query parameter (when non-empty); with neither, every field is shown |
| DynamicFields.RestrictOrderFree | MangaApi/ApiCore/utils/serializers.py:15-29 | the two restrictions commute and applying them again changes nothing |
| DynamicFields.CommaFieldUnreachable | MangaApi/ApiCore/utils/serializers.py:26 | a field whose name contains a comma can never be selected through the query parameter |
| Exceptions.CustomExceptionHandler | MangaApi/ApiCore/exceptions.py:7-43 | an unhandled exception becomes a 500 with status 'error', the fixed message, its text as detail and code 500; a handled one keeps its status and gets status 'error' and its code; a 'detail' becomes the message, otherwise the message is the validation text and the data moves under 'errors'; a list that contains 'detail' makes the handler itself raise |
| Exceptions.ReshapeRecoversData | MangaApi/ApiCore/exceptions.py:29-43 | the original body can be read back from the reshaped one: under 'errors', or as the message when it was a detail |
| Exceptions.EveryReplyIsAnError | MangaApi/ApiCore/exceptions.py:17-43 | every reply says status 'error' with its own status code, and only unhandled exceptions expose a 'detail' |
| AuthView.CurrentUserInfo | MangaApi/ApiCore/View/auth_view.py:15-29 | an unauthenticated user gets the unauthenticated reply; otherwise the reply carries the user's id, name, email, staff and superuser flags and groups |
| AuthView.GlobalCodenames | MangaApi/ApiCore/View/auth_view.py:73-79 | the codenames listed are exactly those of allow rows on '*' held by the user or by one of the user's groups |
| AuthView.CurrentUserPermissions | MangaApi/ApiCore/View/auth_view.py:53-84 | anonymous users get nothing; superusers get ['*']; a failing query gives an empty list; otherwise the list is strictly sorted (no duplicates) and holds exactly the globally allowed codenames |
| AuthView.PermissionsListingCanonical | MangaApi/ApiCore/View/auth_view.py:79 | the listing depends only on which codenames are allowed, not on row order or duplicates |
| AuthView.DenyDoesNotSubtract | MangaApi/ApiCore/View/auth_view.py:73-77 | adding a deny row never removes a codename from the listing: only allow rows are read |
| AuthView.UsernameOrder | MangaApi/ApiCore/View/auth_view.py:38 | ordering users by username is a total preorder |
| AuthView.MatchingUsers | MangaApi/ApiCore/View/auth_view.py:39-40 | the users kept are exactly those whose username contains the query, ignoring case (all of them for an empty query) |
| AuthView.ByUsername | MangaApi/ApiCore/View/auth_view.py:38 | the ordered users are the same users, sorted by username |
| AuthView.Rows | MangaApi/ApiCore/View/auth_view.py:41 | each row holds the id, username and email of the user at its position |
| AuthView.UsersList | MangaApi/ApiCore/View/auth_view.py:36-42 | the count is the number of rows and at most 200; rows are in username order, match the trimmed query and come from stored users; a page under 200 holds every matching user, and a full page holds the smallest usernames: every matching user left out sorts at or after the last row |
| AuthView.AdminUsersList | MangaApi/ApiCore/View/auth_view.py:32-42 | `IsAdminUser` lets exactly staff users through to the listing; everyone else, anonymous included, is refused |
| AuthView.PageSmallest | MangaApi/ApiCore/View/auth_view.py:38-41 | a full page of 200 rows leaves out only users whose usernames sort at or after its last row |
| AuthView.PageSize | MangaApi/ApiCore/View/auth_view.py:41 | a page has at most 200 rows |
| AuthView.PageSorted | MangaApi/ApiCore/View/auth_view.py:38-41 | a page is in username order |
| AuthView.PageMatches | MangaApi/ApiCore/View/auth_view.py:39-41 | every row of a page matches the query and comes from a stored user |
| AuthView.PageComplete | MangaApi/ApiCore/View/auth_view.py:41 | a page shorter than 200 rows holds every matching user |
| AuthView.PageRows | MangaApi/ApiCore/View/auth_view.py:41 | cutting the ordered users at n keeps their order, and a cut shorter than n keeps them all |
| MangaUI.NovelaIsNovel | MangaClient/src/composables/useMangaUI.js:20 | the test for 'novel' or 'novela' is the test for 'novel' |
| MangaUI.TypeClassOf | MangaClient/src/composables/useMangaUI.js:18-26 | one of nine classes; the first matching keyword wins (manhwa before manhua before novel …); the default exactly when no keyword occurs |
| MangaUI.TypeClass | MangaClient/src/composables/useMangaUI.js:12-27 | a falsy item gets the default class; a non-empty demography string is classified in lower case |
| MangaUI.TypeClassIgnoresCase | MangaClient/src/composables/useMangaUI.js:16 | an upper-case demography is classified like its lower-case form |
| MangaUI.DisplayType | MangaClient/src/composables/useMangaUI.js:32-46 | the label never has a lower-case letter; a falsy item shows 'MANGA'; a plain demography string is shown upper-cased |
| MangaUI.DisplaySource | MangaClient/src/composables/useMangaUI.js:33 | the first truthy field in the fallback chain, demography first |
| MangaUI.MaybeParsed | MangaClient/src/composables/useMangaUI.js:35-41 | only a string whose trimmed text starts with '{' or '[' is parsed; anything else is kept |
| MangaUI.Flattened | MangaClient/src/composables/useMangaUI.js:43-44 | a string is kept as it is |
| MangaUI.TagNames | MangaClient/src/composables/useMangaUI.js:58 | one name per tag, each `nombre`, else `name`, else the tag itself; a null or undefined tag makes the mapping throw |
| MangaUI.OriginOf | MangaClient/src/composables/useMangaUI.js:66-73 | one of six labels, tested in the source's order: comic, one-shot, manhwa, manhua, novel, else Manga |
| MangaUI.TagGuess | MangaClient/src/composables/useMangaUI.js:59-61 | the last matching tag test wins: novel over manhua over manhwa; no match keeps the old value |
| MangaUI.OriginLabel | MangaClient/src/composables/useMangaUI.js:51-74 | one of the six labels; a falsy item gives 'Manga'; a non-empty type field is classified in lower case without looking at tags |
| MangaUI.OriginGuess | MangaClient/src/composables/useMangaUI.js:52-63 | a truthy type field (or a falsy item) is used as it is; tags are consulted only otherwise |
| MangaUI.NovelaOrigin | MangaClient/src/composables/useMangaUI.js:61-72 | a 'novela' guess is labelled Novela |
| MangaUI.TagPrecedence | MangaClient/src/composables/useMangaUI.js:59-61 | tags naming both a novel and a manhwa give Novela: the later assignment overwrites |
| MangaUI.IsErotic | MangaClient/src/composables/useMangaUI.js:79-92 | a null tag throws unless the flag decided first; otherwise the item is erotic exactly when it is truthy and an explicit flag, its joined lowercased tag names or its demography words name adult content |
| MangaUI.EroticByTag | MangaClient/src/composables/useMangaUI.js:83-86 | a tag containing 'ecchi' in any case marks the item erotic |
| MangaUI.SafeCover | MangaClient/src/composables/useMangaUI.js:97-102 | the url is kept exactly when its lower-cased text starts with 'http'; otherwise the blank placeholder |
| MangaUI.SafeCoverIdempotent | MangaClient/src/composables/useMangaUI.js:97-102 | applying it twice is applying it once (the placeholder is itself kept) |
| MangaService.IsValidCdn | MangaClient/src/services/mangaService.js:78-86 | true exactly for a string whose trimmed, lower-cased text starts with 'http://' or 'https://' and does not contain the legacy 'miswebtoons.uk/assets/covers' location; such a string is never empty |
| MangaService.ValidCdnIsSafeCover | MangaClient/src/services/mangaService.js:78-86 | a trimmed url the service accepts is shown unchanged by the UI's safe-cover check (useMangaUI.js:97-102) |
| MangaService.FindMain | MangaClient/src/services/mangaService.js:63 | `find` stops at the first cover with tipo_cover 'main'; it reports none only when every element is an object without that type; a null or undefined element before any match makes it throw |
| MangaService.PickMain | MangaClient/src/services/mangaService.js:63 | the first 'main' cover when there is one, else the first element (undefined for an empty list); it always succeeds on a list without null elements |
| MangaService.CoverUrlOf | MangaClient/src/services/mangaService.js:64-65 | url_absoluta when it is valid, else url_imagen when that is valid, else nothing; whatever is returned passes isValidCdn and is one of the two fields |
| MangaService.GetMainCover | MangaClient/src/services/mangaService.js:60-75 | whatever is returned passes isValidCdn; when the manga's own listing yields a valid url, that url is the answer and the full listing is not consulted |
| MangaService.FallbackBelongsToManga | MangaClient/src/services/mangaService.js:67-72 | the url found in the full listing is a field of a cover that belongs to the requested manga |
| MangaFilters.ApplyFilter | MangaClient/src/composables/useMangaFilters.js:20-39 | an unknown name returns the items unchanged; a known filter throws exactly when its callback meets an item it cannot read; otherwise the result is an order-preserving subsequence holding exactly the items that pass: 'shon'/'shounen', 'sein', or isErotic |
| MangaFilters.FilterTwice | MangaClient/src/composables/useMangaFilters.js:23-33 | filtering a filtered list by the same test changes nothing |
| MangaFilters.ApplyFilterIdempotent | MangaClient/src/composables/useMangaFilters.js:36-39 | applying a filter to its own result gives the same result |
| ClientCache.ExpiresFor | MangaClient/src/services/cache.js:29 | the expiry is null exactly for a zero (falsy) TTL |
| ClientCache.Get | MangaClient/src/services/cache.js:10-26 | a live localStorage entry answers and nothing changes; otherwise the answer is the live in-memory entry; a miss leaves no memory entry and no readable storage entry under the key (expired ones are removed); other keys are untouched |
| ClientCache.SetAsWritten | MangaClient/src/services/cache.js:28-35 | as written: the memory entry is replaced; the storage entry is replaced only when the write succeeds, and a failed write leaves the old one |
| ClientCache.SetAsWrittenShadowed | MangaClient/src/services/cache.js:12-15 | as written: after a failed storage write, a live older storage entry is returned instead of the value just set |
| ClientCache.Set | MangaClient/src/services/cache.js:28-35 | corrected: the memory entry is replaced, and the storage entry either holds the new entry or is gone; other keys are untouched |
| ClientCache.GetAfterSet | MangaClient/src/services/cache.js:10-35 | corrected: a get before expiry returns the value just set, whether or not storage accepted it |
| ClientCache.GetAfterSetAsWritten | MangaClient/src/services/cache.js:10-35 | as written, the same holds when the storage write succeeds or storage is unavailable |
| ClientCache.NoTtlNeverExpires | MangaClient/src/services/cache.js:15-29 | an entry set without TTL is returned at any later time |
| ClientCache.ExpiredAfterTtl | MangaClient/src/services/cache.js:15-25 | at or after its expiry an entry reads as null and is removed from both stores |
| ClientCache.Names | MangaClient/src/services/cache.js:38 | the parameter names, in insertion order |
| ClientCache.NumLeTotalPreorder | MangaClient/src/services/cache.js:38 | the numeric order of array-index property names is a total preorder |
| ClientCache.ParamsJson | MangaClient/src/services/cache.js:38-39 | the serialised parameters form a JSON object text |
| ClientCache.KeyFrom | MangaClient/src/services/cache.js:37-40 | a key reads 'api:', the endpoint, '?' and a JSON object |
| ClientCache.KeyFromOrderFree | MangaClient/src/services/cache.js:37-39 | two parameter lists with the same entries in any insertion order give the same key |
| ClientCache.KeyFromSeparatesEndpoints | MangaClient/src/services/cache.js:39 | endpoints without '?' never share a key |
| Cdn.Span | MangaClient/src/utils/cdn.js:16 | the index of the first stop character, with none before it |
| Cdn.ParseUrl | MangaClient/src/utils/cdn.js:16 | a parsed URL is http or https, has a valid host and a path that is empty or starts with '/' |
| Cdn.QueryRoundTrip | MangaClient/src/utils/cdn.js:24-27 | reading back the serialised query of plain pairs gives the pairs |
| Cdn.SetParam | MangaClient/src/utils/cdn.js:24-25 | `searchParams.set`: afterwards the pair is present, the name occurs once and only with that value, and pairs with other names are exactly kept |
| Cdn.ToCdnUrl | MangaClient/src/utils/cdn.js:8-34 | a falsy or non-string url is returned as it is; an unparseable url or a host outside the two B2 hosts is returned unchanged |
| Cdn.B2Rewrite | MangaClient/src/utils/cdn.js:19-27 | a B2 url moves to https on the image host with its path, query and fragment kept, and then takes the options |
| Cdn.ToCdnUrlIdempotent | MangaClient/src/utils/cdn.js:8-34 | rewriting a rewritten url changes nothing, whatever options the second call gets |
| Cdn.CdnNotB2 | MangaClient/src/utils/cdn.js:12-13 | the image host is not a B2 host |
| Cdn.OptionsInQuery | MangaClient/src/utils/cdn.js:24-25 | each truthy option is in the query read back under its name, and every other parameter of the url is kept |
| NullBytes.StripNulls | MangaApi/clean_null_bytes.py:22 | the result has no 0x00 byte, keeps every other byte in order and in number, is shorter by exactly the number of null bytes, and is the content itself when there were none |
| NullBytes.CleanAllAppend | MangaApi/clean_null_bytes.py:13-25 | cleaning a list of files is cleaning each part of it |
| NullBytes.PrunedUnchanged | MangaApi/clean_null_bytes.py:8-11 | files below a '.git' or 'venv' directory are never changed |
| NullBytes.RunChangesOnlyNullFiles | MangaApi/clean_null_bytes.py:4-27 | after a run the tree has the same files at the same paths; a file's content changes exactly when it is a reached '.py' file that could be read and written and held a null byte, and then it is the content without null bytes |
| NullBytes.SecondRunRewritesNothing | MangaApi/clean_null_bytes.py:20-25 | after a run no file qualifies for a rewrite, and every reached, writable '.py' file is free of null bytes |
| NullBytes.CleanIdempotent | MangaApi/clean_null_bytes.py:4-27 | running twice leaves the tree as running once |
| Worker.SlugChars | MangaWorker/worker.py:171-180 | every character of the slug loop's output is `_` or an alphanumeric character of the input, and the output never holds two `_` in a row (nor starts with `_` after an underscore) |
| Worker.SlugBase | MangaWorker/worker.py:166-181 | `_slug_base` fails exactly on a blank title and otherwise yields a slug: lower-case alphanumerics and single underscores, with no `_` at either end |
| Worker.LoweredSlugChars | MangaWorker/worker.py:173-180 | running the slug loop over lower-cased text leaves no upper-case letter in its output |
| Worker.LowerHasNoUpper | MangaWorker/worker.py:173 | lower-casing leaves no upper-case ASCII letter |
| Worker.StripSlug | MangaWorker/worker.py:181 | stripping `_` from both ends of the loop's output gives a slug |
| Worker.SlugIdempotent | MangaWorker/worker.py:166-181 | a non-empty slug is its own slug: `_slug_base` is idempotent |
| Worker.Initials | MangaWorker/worker.py:186 | the initials are the first letters of the first two parts, or `x` when there are no parts |
| Worker.SlugParts | MangaWorker/worker.py:185 | the parts of the slug split at `_` are non-empty and hold no `_` |
| Worker.SlugPartsHead | MangaWorker/worker.py:185-186 | a slug that does not start with `_` has a first part starting with the slug's first character |
| Worker.Codename | MangaWorker/worker.py:183-189 | `codename_from_title` fails exactly on a blank title; otherwise it is the initials, a dash and the first six hex digits of the title's digest, the initials starting with the slug's first character or being `x` for an empty slug |
| Worker.CodenameSplits | MangaWorker/worker.py:186-189 | a code name is 8 or 9 characters long, with the dash seventh from the end followed by the six digest characters |
| Worker.WorkerImageUrls | MangaWorker/worker.py:397-413 | the chapter's image URLs are free of duplicates; when an `<img>` source passes the filter they are exactly the joined passing sources, otherwise exactly the regex matches that pass the fallback filter; either way they follow the order of first occurrence in that kept list |
| Worker.ChapterFolder | MangaWorker/worker.py:423 | the chapter folder `{n:03d}` is at least three characters and reads back as the chapter number, its sign included |
| Worker.DownloadPlan | MangaWorker/worker.py:417-432 | no URLs means no chapter (`None, 0`); otherwise the folder is the chapter's `ChapterFolder`, for any integer chapter, and image `i` is saved as page `i + 1` |
| Worker.PageNamesDistinct | MangaWorker/worker.py:423-432 | two different images of a chapter get different file names, each naming its own page number, eight characters long below a thousand pages |
| Worker.PageNamesApart | MangaWorker/worker.py:146 | two different page numbers give different `NNN.webp` names, each reading back as its number |
| WorkerFiles.Rename | MangaWorker/worker.py:209 | under POSIX `os.rename`, renaming fails exactly when the source name is missing from the folder, and an existing target is replaced |
| WorkerFiles.RenameAllMoves | MangaWorker/worker.py:205-210 | renaming distinct present names to distinct fresh names succeeds, moves every content to its new name, removes the old names and leaves every other entry as it was |
| WorkerFiles.ImageFiles | MangaWorker/worker.py:196-197 | the listing's images are the names ending in an image extension (ignoring case), each once |
| WorkerFiles.TempNames | MangaWorker/worker.py:207 | the i-th temporary name is `temp_` with i padded to six digits and `.tmp` |
| WorkerFiles.FinalNames | MangaWorker/worker.py:220 | the i-th final name is page `i + 1` |
| WorkerFiles.TempNotImage | MangaWorker/worker.py:196-207 | a temporary name is never taken for an image |
| WorkerFiles.PageNameShape | MangaWorker/worker.py:196-220 | a final page name is taken for an image |
| WorkerFiles.TempNamesDistinct | MangaWorker/worker.py:207 | different indexes give different temporary names |
| WorkerFiles.PageNamesDistinctAt | MangaWorker/worker.py:220 | different page numbers give different page names |
| WorkerFiles.NamesDistinct | MangaWorker/worker.py:204-226 | neither pass renames two files to the same name |
| WorkerFiles.TempNamesKind | MangaWorker/worker.py:207 | every temporary name ends in `.tmp` and is no image |
| WorkerFiles.FinalNamesKind | MangaWorker/worker.py:220 | every final name is an image name |
| WorkerFiles.TempFinalApart | MangaWorker/worker.py:204-220 | no temporary name is a final name, so the second pass never overwrites a file still waiting to move |
| WorkerFiles.TwoPassMoves | MangaWorker/worker.py:204-226 | the two rename passes move the i-th file's content to the i-th final name and keep every unrelated entry |
| WorkerFiles.RenumberPasses | MangaWorker/worker.py:191-228 | `renumber_images` succeeds on a folder with images; the i-th image in sorted order ends up as page `i + 1`, unrelated entries are kept, and the only images left are the new pages |
| WorkerFiles.RenumberSpec | MangaWorker/worker.py:191-228 | with POSIX renames `renumber_images` succeeds on every folder, numbers the sorted images from page 1 and leaves no other image |
| WorkerFiles.RenumberNoImages | MangaWorker/worker.py:199-201 | a folder without images is left unchanged |
| WorkerFiles.RenumberKeepsOthers | MangaWorker/worker.py:196-226 | a file that is neither an image nor a `.tmp` file keeps its content |
| WorkerFiles.LeftoverTempReplaced | MangaWorker/worker.py:205-210 | with POSIX renames a `temp_000000.tmp` left from an interrupted run does not survive a renumbering: the first rename of the first pass replaces it |
| WorkerFiles.LastClosing | MangaWorker/worker.py:304-308 | the search finds the last line holding `]`, or nothing when no line does |
| WorkerFiles.AppendToUpdateList | MangaWorker/worker.py:294-314 | the URL's line is inserted before the last line holding `]`, or appended when there is none; a missing or empty file starts from the generated skeleton; nothing else changes |
| WorkerFiles.AppendRemovable | MangaWorker/worker.py:310-314 | removing the inserted line gives the old file back |
| WorkerFiles.AppendTwiceFromEmpty | MangaWorker/worker.py:299-311 | two appends to a missing file list both URLs in order inside the skeleton's brackets |
| WorkerServer.GetApiKey | MangaWorker/server.py:17-29 | a missing or empty configured key is a 500; otherwise the request passes exactly when its header equals the key, and is a 403 when not |
| WorkerServer.ApiKeyGate | MangaWorker/server.py:17-29 | no request passes without a configured key, and one passes exactly when its header equals that key |
| WorkerServer.ServerImageUrls | MangaWorker/server.py:84-95 | the server's image URLs are free of duplicates; when an `<img>` source passes its filter they are exactly those sources, otherwise the regex matches that pass the fallback filter; either way they follow the order of first occurrence in that kept list |
| WorkerServer.SameSelectionWithoutIkigai | MangaWorker/server.py:84-95 | when no source mentions `ikigai` and joining leaves a source as it is, the server and the worker select the same URLs |
| Ordering.Dedup | MangaWorker/worker.py:413 | `list(dict.fromkeys(...))` keeps every element exactly once, in the order of first occurrence |
| Ordering.SortedSet | MangaApi/ApiCore/View/auth_view.py:79 | `sorted(set(...))` holds each element of its input once, in strictly ascending order |
| Ordering.SortBy | MangaApi/ApiCore/View/stats_view.py:59-61 | sorting by a key returns a permutation of its input ordered by that key |
| Text.ZeroPadValue | MangaWorker/worker.py:220 | a zero-padded number (`{n:03d}`) reads back as the number |
| Text.ZeroPadInjective | MangaWorker/worker.py:423 | different numbers get different zero-padded names |
| Text.ZeroPad3Length | MangaWorker/worker.py:220 | below 1000 a three-digit padding is exactly three characters |
| Text.PadIntValue | MangaWorker/worker.py:423 | a number formatted `{n:0Kd}` (or `str(n).zfill(K)`, worker.py:690) reads back as the number, negative numbers included |
| Text.PadIntNegative | MangaWorker/worker.py:423 | the sign counts towards the width: chapter -1 is folder `-01`, chapter 7 is `007` |

## Left out

- Network and storage I/O is not modelled: scraping, login, presigned uploads, boto3 calls and file writes. The B2 model keeps only the object keys and URLs it builds.
- Printing, logging and progress messages are not modelled. They do not change any result.
- The running-average response time and the recommendations built from it are left out, because they are floating-point arithmetic. The statistics record therefore has no average field.
- Image optimisation with PIL is left out, because it is image processing outside the decision logic.
- SHA-1, Unicode NFD and mark stripping, `isalnum`, `urljoin`, the regular-expression scan, `build_absolute_uri`, `JSON.parse`/`JSON.stringify` and the random shuffle are parameters. They are library internals.
- Text helpers map case for ASCII letters only. `strip()` and `trim()` treat only ASCII whitespace as blank, and so does the `\s` of the one-shot pattern `/one[\s_\-]?shot/` in `MangaUI.OneShot`, which in JavaScript also matches Unicode spaces.
- `ClientCache.KeyFrom` does not escape JSON strings. Parameter names and text values are written between quotes as they are.
- JavaScript values leave out `NaN`, fractional numbers, symbols, functions and prototype property names.
- URLs in `Cdn` are canonical serialised http(s) URLs: a lower-case host with no port and no user information. Percent-encoding, `+` for spaces and dot segments are not handled.
- AccessControl.GrantPermission, AccessControl.GrantGroupPermission, AccessControl.GetOrCreateIn, AccessControl.GrantWith and AccessControl.CreateProfile require a store with at most one grant per key. The database does not enforce that key, because one of user and group is always NULL. Duplicate rows written through the grants endpoint or the admin make `get_or_create` raise `MultipleObjectsReturned`, and that path is not modelled.
- `get_or_create` races, signal wiring, `ContentType` resolution and the `AccessGrantViewSet` plumbing are left out. A target is a (type, id) pair.
- Sort stability among equal keys is not stated for the statistics ranking or the user list.
- The cache's JSON round trip is the identity. A storage slot that does not parse is `Unreadable`.
- `clean_null_bytes` does not model partial writes, symbolic links or the walk order of `os.walk`.
- Management commands, `manual_upload.py`, the interactive prompts and `__main__` drivers are not modelled. They are one-off scripts and console flows.
- `listMangas`, `getManga`, `incrementMangaView`, `listMangaCovers` and `fetchCoverById` in `mangaService.js` are not modelled. They are HTTP wrappers; only `isValidCdn` and the main-cover rule are.
- `WorkerFiles.AppendToUpdateList` writes the URL between quotes without escaping, as the source does. A URL holding `"` yields a line that is not valid Python; this is not stated as a property.
- `Cdn.SetParam` does not state where the set pair lands: at the first pair with that name, or at the end.
- `MangaService.GetMainCover` fixes the result only when the first listing yields a cover. For the fallback listing, `FallbackBelongsToManga` states that the URL comes from a cover of the requested manga, but not which cover.
- `MangaUI.DisplayType` fixes the result only for a falsy item and for a plain text `demography` field. For JSON-like and structured values it states only that the result has no lower-case letter, because those depend on the JSON parser taken as a parameter.
- `MangaUI.OriginLabel` fixes the label only for a falsy item and for a non-empty text origin field. The tag heuristic's precedence is stated separately by `MangaUI.TagPrecedence` and `MangaUI.NovelaOrigin`.
- MangaView.IncrementView: the request's filter, search and ordering parameters are a parameter: either a test on the row or the filterset's validation error text. The filterset's fields and the search matching themselves are not modelled.
- DacView.LookupUser: the 500 reply carries only the start of the id field's error message, not the `but got <value>` part nor the handler's full body. JSON fractions (`int(1.5) == 1`) are not modelled, because numbers are integers. Python's `int()` also accepts non-ASCII digits and whitespace, which `Text.PyInt` does not.
- MangaView.IncrementView: the URL key goes through the same `Text.PyInt`, so a key in non-ASCII digits or with non-ASCII whitespace (such as Arabic-Indic `١٢`) that Django converts to id 12 is a 400 with the empty detail in the model.
- AuthView.UsersList: username order is Python's code-point order (`LexLe`). The database collation behind `order_by('username')` may order some names differently.
- WorkerFiles.Rename follows POSIX `os.rename`, where an existing target is replaced. On Windows, which the worker's paths and console set-up point to, `os.rename` raises `FileExistsError` instead, so there a folder still holding a `temp_…tmp` name from an interrupted run makes `renumber_images` stop during the first pass. The model does not state that failure. Under POSIX the leftover file is silently overwritten, as `WorkerFiles.LeftoverTempReplaced` states.
- AuthView.AdminUsersList: a refused request is None. Whether DRF answers it with 401 or 403 depends on the authentication classes, which are not modelled.
- `Middleware.Allowed` drops the `status != 403` test, which `status < 400` already implies.

## Findings

| source | as written | input that shows it | evidently intended | confidence | as-written member | corrected member |
|---|---|---|---|---|---|---|
| MangaApi/ApiCore/View/stats_view.py:39 | the key parser removes every occurrence of `api_endpoint_`, not only the leading prefix | a request to `/api/api_endpoint_/` with any method is listed under the path `/api//` | strip the leading `api_endpoint_` only, so every counted path is listed as requested | high, not executed | StatsView.ParseKeyAsWritten (shown by StatsView.MisreadExample) | StatsView.ParseKey (proved by StatsView.ParseKeyIff and StatsView.ParseEndpointKey; used by StatsView.CollectCorrected and StatsView.GetStatsCorrected) |
| MangaApi/ApiCore/Models/user_models.py:65-66 | `sync_groups` clears all of the user's groups, although its comment says only the profile groups are left | a `home_only` user in group `Editors` loses `Editors` on the next profile save | leave the profile groups only, then join the profile's group | medium, not executed | UserProfiles.SyncGroupsAsWritten (shown by UserProfiles.SyncGroupsAsWrittenDropsOtherGroups) | UserProfiles.SyncGroups (proved by UserProfiles.SyncGroupsAgree; used by UserProfiles.SaveProfileCorrected and DacView.AddUser) |
| MangaApi/ApiCore/View/dac_view.py:53-56 | `add_user` adds the group and then saves the user; the save signal re-syncs the profile and removes the group just added | adding user 1 (`home_only`) to `Editors` answers "user added", yet the user is not in `Editors` | the added user stays in the group | medium, not executed | DacView.AddUserAsWritten (shown by DacView.AddUserAsWrittenLosesGroup) | DacView.AddUser |
| MangaApi/ApiCore/View/dac_view.py:45-47 | `drf_permission_classes([IsAdminUser])` sits under `@action`, so it only sets an attribute on the function; the route keeps the viewset's permission classes | an authenticated non-staff user posting to `add-user` passes the gate | only staff users may call the profile actions | medium, not executed | DacView.ActionGateAsWritten (shown by DacView.ActionGateAsWrittenAdmitsNonStaff) | DacView.ActionGate (used by DacView.GuardedGrant) |
| MangaClient/src/services/cache.js:28-35 | when `localStorage.setItem` throws, the old stored entry stays, and `get` reads storage before memory | a live stored entry for the key, then a `set` whose storage write throws: the next `get` returns the old value | the value just set is the one read back | high, not executed | ClientCache.SetAsWritten (shown by ClientCache.SetAsWrittenShadowed) | ClientCache.Set (proved by ClientCache.GetAfterSet) |
