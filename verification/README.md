# Taiga back end: verified models

A Dafny model of the parts of the Taiga back end that hold real state machines, window
arithmetic, a text scanner or a question decided in several places. The database is modelled by
maps, sets and sequences of rows; each request is one atomic step. Code that changes state is a
class whose methods are proved against a specification function (`Step`, `Decide`, `Apply`,
`Rebuilt`, ...); the properties are lemmas about that function over every input and every run.

Run `dafny verify dfyconfig.toml` in this directory.

| files | what they model |
|---|---|
| `Common.dfy` | `Option`, `Result` and two small helpers |
| `Rates.dfy`, `Throttling.dfy`, `ThrottleRuns.dfy` | the multi-rate sliding-window throttle: rate texts, one request against the cache, whole runs against a full log |
| `Tokens.dfy`, `TokenRuns.dfy` | JSON web tokens with a denylist: expiry stamps (section 4.1.4 of RFC 7519), token ids (section 4.1.7 of RFC 7519), refresh rotation over whole runs |
| `CommitScanner.dfy`, `PushHook.dfy`, `CommitText.dfy` | the two regular expressions over a commit message, what a push does to a project, and what both read off the message as written |
| `RolePoints.dfy`, `Swimlanes.dfy`, `Memberships.dfy` | state kept by signal handlers: role points, the swimlane and status matrix, the order of a user's projects |
| `Templates.dfy`, `TemplateRoundTrip.dfy` | saving a project as a template and applying a template |
| `Queries.dfy`, `Permissions.dfy`, `TimelineFilter.dfy` | one question decided three times: the permission check, the queryset filters, the timeline filter; filters are expressions with SQL's three truth values |
| `Rebuild.dfy`, `RebuildLaws.dfy` | the timeline rebuild: fan-out of replayed events into a batching writer |
| `AppTokens.dfy`, `AppTokenRuns.dfy` | authorization codes and access tokens of external applications |

## Findings

Points where the code does less than one would hope. Each is proved with an exact condition.

- A rate whose count is zero or negative denies every request, and waiting as long as it reports
  does not help (`ThrottleRuns.NeverAdmitted`).
- `update_role_points` does nothing when no role is computable, so stale rows stay
  (`RolePoints.NormalisedIff`).
- A template does not carry the `extra` data of custom attributes
  (`TemplateRoundTrip.AttributesSurviveIff`), and applying a loaded template raises when some
  non-empty collection has no default (`TemplateRoundTrip.ApplySucceedsIff`).
- The queryset filter refuses to logged-in strangers what the object check grants them through
  anonymous permissions alone (`Permissions.SelectedIff`, `Permissions.StrangerIsRefused`); base
  permissions remove the difference for the view permissions.
- Building the timeline filter raises for a user with a plain membership whose role has null
  permissions, whichever timeline is read (`TimelineFilter.RaisesIff`).
- The exclusion of epic entries hides them from administrators whose own role lacks the permission
  (`TimelineFilter.AdministratorIsKeptOut`); for projects without null permission arrays that is the
  only difference from the object check (`TimelineFilter.ExclusionOnSavedProjects`). Null arrays
  would let entries through (`TimelineFilter.ExclusionDisagreesIff`), but saving a project replaces
  them by empty ones (taiga-back/taiga/projects/models.py:320-324), so that half needs rows written
  without saving.
- Rebuilding the timeline of a project for some dates repeats the rows of memberships created
  outside those dates on every call, and a call without arguments repeats everything
  (`RebuildLaws.IdempotentIff`); a rebuild that raises leaves pending rows for the next one
  (`RebuildLaws.Conservation`).
- Single use of authorization codes holds for requests that carry a code. A request to validate
  without one is compared with null and answered with the token of the one row of the application
  with that state whose code has been redeemed; it raises when several users have such a row
  (`AppTokenRuns.ValidateSucceedsIff`, `AppTokenRuns.AccessConsumesIff`,
  `AppTokenRuns.AnsweredWithoutCode`).

## Model

| member | source | states |
|---|---|---|
| Rates.ParseRateRoundTrip | taiga-back/taiga/base/throttling.py:142-152 | every count and every period word starting with s, m, h or d is accepted and read back as configured |
| Rates.TextRate | taiga-back/taiga/base/throttling.py:142-152 | a setting "n/c..." gives one rate of n requests per 1, 60, 3600 or 86400 seconds for c = s, m, h or d |
| Rates.SettingRates | taiga-back/taiga/base/throttling.py:125-140 | what null, list, missing and other settings give, item by item |
| Rates.ParsedByName | taiga-back/taiga/base/throttling.py:125-152 | every rate of a scope is what its own text parses to, so one text never stands for two rates |
| Rates.GetScope | taiga-back/taiga/base/throttling.py:154-158 | the scope separates users from anonymous clients and writes from reads, and has no underscore |
| Throttling.PopExpired | taiga-back/taiga/base/throttling.py:100-101 | popping from the old end leaves the newest part, whose last time is after the cutoff |
| Throttling.CommonThrottle.CheckRates | taiga-back/taiga/base/throttling.py:89-110 | the loop over the rates collects the waits of the full windows and one pruned history per rate, and fails on an unparsed rate |
| Throttling.CommonThrottle.StoreHistories | taiga-back/taiga/base/throttling.py:116-122 | every queued history is stored with the admission in front and the rate's duration to live |
| Throttling.CommonThrottle.AllowRequest | taiga-back/taiga/base/throttling.py:76-123 | whitelisting, missing rates, denial and admission answer as the specification, a denial stores nothing and sets the wait |
| ThrottleRuns.KeyInjective | taiga-back/taiga/base/throttling.py:56-56 | a cache key determines scope, rate and identifier, for scopes and identifiers without underscores |
| ThrottleRuns.KeyCollision | taiga-back/taiga/base/throttling.py:166-167 | why underscores are excluded: with one in the identifier two triples format to one key |
| ThrottleRuns.WindowIsRecent | taiga-back/taiga/base/throttling.py:98-101 | a pruned or expired history holds exactly the admissions younger than the rate's duration |
| ThrottleRuns.ExecInv | taiga-back/taiga/base/throttling.py:92-123 | on every run each stored history is the newest part of the log of admissions, which are spaced as the rate demands |
| ThrottleRuns.CacheRefinesFullLog | taiga-back/taiga/base/throttling.py:76-123 | refinement: pruned histories in an expiring cache decide every run as counting in a full log of admissions does |
| ThrottleRuns.WindowBound | taiga-back/taiga/base/throttling.py:92-123 | for every rate of n per d at once, admissions n apart are at least d apart and no window of length d holds more than n |
| ThrottleRuns.ConfiguredBound | taiga-back/taiga/base/throttling.py:142-152 | the window bound read off the configured text, with the literal length of the period |
| ThrottleRuns.UnlimitedIff | taiga-back/taiga/base/throttling.py:77-85 | a request passes unrecorded exactly when its setting can be read and it is whitelisted or held to no rate |
| ThrottleRuns.WaitIsLastRelease | taiga-back/taiga/base/throttling.py:103-114 | the wait of a denial ends when the last blocking rate is released |
| ThrottleRuns.ExactWait | taiga-back/taiga/base/throttling.py:169-182 | after a denial a retry is denied before now + wait and admitted from then on, whatever other clients did |
| ThrottleRuns.NeverAdmitted | taiga-back/taiga/base/throttling.py:103-114 | on every run a count of zero or less denies every request, and the wait reported is the longest duration of such a rate |
| ThrottleRuns.Isolation | taiga-back/taiga/base/throttling.py:97-122 | a client gets the same decision, wait included, as if no other scope or identifier had ever sent a request |
| Tokens.Token.New | taiga-back/taiga/auth/tokens.py:79-87 | a new token has its type, an expiry stamp and an id and nothing else |
| Tokens.Token.CopyClaims | taiga-back/taiga/auth/tokens.py:297-301 | the copying loop adds every claim but the excluded ones, in whatever order the claims come |
| Tokens.Token.AccessToken | taiga-back/taiga/auth/tokens.py:282-303 | the access token is derived as specified and the refresh token is left alone |
| Tokens.AccessCarriesClaims | taiga-back/taiga/auth/tokens.py:282-303 | the access token has its own type and id, carries every other claim unchanged and no further one, and is no refresh token |
| Tokens.StampedUntil | taiga-back/taiga/auth/tokens.py:154-182 | a stamp is honoured exactly while the clock's whole second is before the stamp's: rejected from s + L on, accepted before s + L minus one second |
| Tokens.AccessNeverOutlivesRefresh | taiga-back/taiga/auth/tokens.py:291-295 | with the access lifetime no longer than the refresh lifetime, no access token outlives the refresh token returned with it |
| Tokens.LoginPairIs | taiga-back/taiga/auth/services.py:53-65 | a login hands out two tokens of its user under new ids, each accepted exactly while the lifetime of its own class lasts |
| Tokens.RefreshPairIs | taiga-back/taiga/auth/services.py:87-102 | a successful refresh hands out two such tokens of the same user |
| Tokens.LoginRecords | taiga-back/taiga/auth/tokens.py:246-264 | a login adds one outstanding row of the user, created now, expiring with the stamp |
| Tokens.RefreshRecords | taiga-back/taiga/auth/tokens.py:227-244 | a refresh denylists the presented id and keeps the outstanding row it has or makes one without a user |
| Tokens.FlushedExactly | taiga-back/taiga/auth/token_denylist/management/commands/flushexpiredtokens.py:42-43 | a flush removes exactly the rows that have expired, with their denylisting |
| Tokens.AuthService.Denylist | taiga-back/taiga/auth/tokens.py:227-244 | the id is outstanding and denylisted afterwards, and nothing else changes |
| Tokens.AuthService.MakeAuthResponseData | taiga-back/taiga/auth/services.py:53-65 | a login returns a pair of the user and records the refresh token as outstanding |
| Tokens.AuthService.RefreshToken | taiga-back/taiga/auth/services.py:81-104 | a refresh verifies, mints the access token, denylists the presented id and returns the token re-stamped, in that order; a rejected one changes nothing |
| TokenRuns.ExecInv | taiga-back/taiga/auth/services.py:81-104 | on every run with flushes every spent token is denylisted or expired and every login has one newest token |
| TokenRuns.RefreshSucceedsIff | taiga-back/taiga/auth/services.py:81-104 | in every reachable state a token is refreshed exactly when it is the newest of some login and has not expired |
| TokenRuns.SingleUse | taiga-back/taiga/auth/services.py:87-102 | once refreshed, a token fails in every later state of every run, whenever expired rows are removed |
| TokenRuns.ExchangeKeepsUser | taiga-back/taiga/auth/tokens.py:184-197 | an exchange passes the login on and both new tokens name its user |
| TokenRuns.NewestIsUsable | taiga-back/taiga/auth/services.py:87-102 | in every reachable state the newest token of each login is signed, names its user and is not denylisted |
| TokenRuns.RotationChains | taiga-back/taiga/auth/tokens.py:227-264 | without removals each login has exactly one signed refresh token that is not denylisted, ids never repeat and denylisted ids are outstanding |
| TokenRuns.SpentIsDenylisted | taiga-back/taiga/auth/token_denylist/models.py:62-66 | without removals every spent id is on the denylist |
| CommitScanner.MentionAtIsGreedy | taiga-back/taiga/hooks/event_hooks.py:396-397 | the mention matcher matches exactly where the expression has a match, and the longest one |
| CommitScanner.CommandAtIsGreedy | taiga-back/taiga/hooks/event_hooks.py:382-385 | greedy matching of a status command finds the one ref and slug start any match at that position has |
| CommitScanner.MentionsExactly | taiga-back/taiga/hooks/event_hooks.py:396-398 | the mention scan yields, in order, exactly the positions where a mention starts |
| CommitScanner.CommandsLeftmost | taiga-back/taiga/hooks/event_hooks.py:382-385 | the command scan yields matches from left to right without overlap, and every match lies inside one of them |
| CommitScanner.CommandRefsAreMentioned | taiga-back/taiga/hooks/event_hooks.py:382-398 | the refs of the status commands are among the mentioned refs, for every text |
| CommitScanner.MentionRefsAreDigits | taiga-back/taiga/hooks/event_hooks.py:396-398 | a mentioned ref is a maximal non-empty run of digits after the prefix |
| CommitText.MentionsOfText | taiga-back/taiga/hooks/event_hooks.py:396-398 | on the message as written: one mention per position with "tg-" in either case before a digit, with the longest digit run, in order |
| CommitText.CommandsOfText | taiga-back/taiga/hooks/event_hooks.py:382-385 | on the message as written: the commands are exactly the leftmost ones, in order, with their digits and the longest slug in lower case |
| CommitText.CommandsExist | taiga-back/taiga/hooks/event_hooks.py:382-385 | every message has its leftmost commands |
| CommitText.LeftmostIsUnique | taiga-back/taiga/hooks/event_hooks.py:382-385 | there is only one way to find commands leftmost first |
| PushHook.FoundFirst | taiga-back/taiga/hooks/event_hooks.py:334-355 | a number finds an item exactly when it is the first of the four kinds that has the number |
| PushHook.LeadingZero | taiga-back/taiga/hooks/event_hooks.py:334-359 | a ref with leading zeros is another text for the same item |
| PushHook.RefNumberOfDecimal | taiga-back/taiga/hooks/event_hooks.py:334-359 | the number of an item, written out, names that item |
| PushHook.CommandedIsMentioned | taiga-back/taiga/hooks/event_hooks.py:381-400 | every ref a commit commands is among those it mentions, after lower-casing |
| PushHook.EventHook.SetItemStatus | taiga-back/taiga/hooks/event_hooks.py:357-371 | the item found gets the named status of its kind, or the first missing thing is reported and nothing changes |
| PushHook.EventHook.ChangeStatuses | taiga-back/taiga/hooks/event_hooks.py:381-393 | the first loop applies the commands in order and lists the refs it handled |
| PushHook.EventHook.MentionItems | taiga-back/taiga/hooks/event_hooks.py:395-408 | the second loop adds one entry per ref text not yet consumed |
| PushHook.EventHook.ProcessEvent | taiga-back/taiga/hooks/event_hooks.py:373-408 | a push is the fold of its commits, up to the first error |
| PushHook.CommandAnswers | taiga-back/taiga/hooks/event_hooks.py:334-371 | in which order a command is found wanting, that it then changes nothing, and that it else changes only its item |
| PushHook.LastCommandWins | taiga-back/taiga/hooks/event_hooks.py:373-393 | after a push without error each item has the status of the last command addressing its number, or its old one |
| PushHook.CommitSnapshots | taiga-back/taiga/hooks/event_hooks.py:378-408 | a commit adds one entry per command, then exactly one per distinct mentioned ref text without a command in it |
| PushHook.CommitSucceedsIff | taiga-back/taiga/hooks/event_hooks.py:334-371 | a commit applies without error exactly when every command applies to the items before it and every mention finds an item |
| RolePoints.ProjectStore.EnsureNullPoint | taiga-back/taiga/projects/models.py:442-451 | the first null-valued point is used, and one is created only when there is none |
| RolePoints.ProjectStore.AddMissing | taiga-back/taiga/projects/models.py:453-458 | every visited story gets rows for the roles it lacks |
| RolePoints.ProjectStore.UpdateRolePoints | taiga-back/taiga/projects/models.py:426-463 | the update is the specified one, for all stories or the given ones |
| RolePoints.ComputableAre | taiga-back/taiga/projects/models.py:430-431 | the roles taken are exactly the computable ones |
| RolePoints.RowAfter | taiga-back/taiga/projects/models.py:453-463 | which rows exist after an update and with which points, for any visited stories |
| RolePoints.Normalised | taiga-back/taiga/projects/models.py:426-463 | a story has a row for a role exactly when the role is computable; kept rows keep their points, new ones get a null-valued point |
| RolePoints.Idempotent | taiga-back/taiga/projects/models.py:426-463 | a second update changes nothing |
| RolePoints.NormalisedIff | taiga-back/taiga/projects/models.py:430-433 | the rows are the wanted ones exactly when a role is computable or there was no row |
| Swimlanes.KanbanBoard.PopulateSwimlane | taiga-back/taiga/projects/signals.py:79-99 | a created swimlane gets one row per status |
| Swimlanes.KanbanBoard.PopulateStatus | taiga-back/taiga/projects/signals.py:117-134 | a created status gets one row per swimlane |
| Swimlanes.KanbanBoard.CreateSwimlane | taiga-back/taiga/projects/api.py:672-683 | saving, the two handlers and the view's own step together make the specified board |
| Swimlanes.KanbanBoard.DestroySwimlane | taiga-back/taiga/projects/mixins/on_destroy.py:73-97 | a deletion is refused or moves the stories and cascades, as specified |
| Swimlanes.ExecInv | taiga-back/taiga/projects/signals.py:79-134 | on every run ids stay fresh, the matrix holds and the default is sound |
| Swimlanes.MatrixIsProduct | taiga-back/taiga/projects/models.py:944-972 | on every run each live swimlane and status have exactly one row and nothing else has any, and the default is set and live exactly when a swimlane exists |
| Swimlanes.FirstSwimlaneTakesAll | taiga-back/taiga/projects/api.py:672-683 | on every run the first swimlane becomes the default and takes in every story; a further one changes neither |
| Swimlanes.RefusedIff | taiga-back/taiga/projects/mixins/on_destroy.py:73-97 | when a deletion is refused, and what that leaves for the last swimlane and for one of several |
| Swimlanes.DeletedStoriesMove | taiga-back/taiga/projects/api.py:685-687 | a deletion that goes through sends the swimlane's stories to the target, or to none for the last swimlane |
| Swimlanes.OthersStay | taiga-back/taiga/projects/api.py:685-687 | a deletion takes away only its swimlane; the default goes only with the last one |
| Swimlanes.CopiedLimits | taiga-back/taiga/projects/signals.py:90-99 | new rows copy the status limit exactly when the board has a single swimlane |
| Memberships.RowAfterSave | taiga-back/taiga/projects/signals.py:31-37 | the saved row has order 0, the user's other rows move back by one, other users' rows stay |
| Memberships.MoveToFront | taiga-back/taiga/projects/signals.py:26-37 | on every run the orders of a user's memberships are distinct, non-negative and sort them most recently saved first |
| Memberships.StaleOrderIgnored | taiga-back/taiga/projects/signals.py:33-37 | the order the saved instance carried does not matter |
| Templates.TemplateRecord.LoadList | taiga-back/taiga/projects/models.py:1087-1095 | a loading loop appends one entry per row in queryset order |
| Templates.TemplateRecord.LoadOwnerRole | taiga-back/taiga/projects/models.py:1237-1241 | the role of the owner's membership, else of the first role; no role and no membership raises |
| Templates.TemplateRecord.LoadDataFromProject | taiga-back/taiga/projects/models.py:1066-1246 | loading fills the template as specified, or reports why not with the owner role and the last fields untouched |
| Templates.CreateEntries | taiga-back/taiga/projects/models.py:1264-1272 | a creation loop makes the entries' rows one by one up to the first that fails |
| Templates.ProjectRecord.SetDefaults | taiga-back/taiga/projects/models.py:1378-1402 | each default is looked up by name when the template has entries of the kind |
| Templates.ProjectRecord.ApplyTemplate | taiga-back/taiga/projects/models.py:1248-1445 | an unsaved project is refused; the template link and the first eight fields come before the choices, then defaults, custom attributes and the last four fields |
| TemplateRoundTrip.AllSorted | taiga-back/taiga/projects/models.py:630-631 | a queryset is sorted by order and key |
| TemplateRoundTrip.KeysAgree | taiga-back/taiga/projects/models.py:1087-1235 | the keys saved are the keys read back, and all columns but the extra data of custom attributes |
| TemplateRoundTrip.ColumnsCarried | taiga-back/taiga/projects/models.py:1087-1235 | column by column, which collections carry it |
| TemplateRoundTrip.CreateAnswers | taiga-back/taiga/projects/models.py:1264-1272 | when creating a row from an entry fails, and the row it makes otherwise |
| TemplateRoundTrip.DefaultAnswers | taiga-back/taiga/projects/models.py:1378-1402 | what looking a default up by name answers for any project and template |
| TemplateRoundTrip.DefaultKindsAre | taiga-back/taiga/projects/models.py:1378-1402 | epic, story, task and issue statuses, points, issue types, priorities and severities have a default; the other kinds have none |
| TemplateRoundTrip.RoundTrip | taiga-back/taiga/projects/models.py:1066-1445 | saving and applying gives back every collection, in queryset order, column by column |
| TemplateRoundTrip.AttributesSurviveIff | taiga-back/taiga/projects/custom_attributes/models.py:39-39 | a custom attribute collection survives exactly when no row of it has extra data |
| TemplateRoundTrip.ApplySucceedsIff | taiga-back/taiga/projects/models.py:1378-1402 | applying a loaded template to a bare project succeeds exactly when it is saved and each of the eight collections with a default is empty or has it set |
| TemplateRoundTrip.Applied | taiga-back/taiga/projects/models.py:1378-1443 | each of the eight defaults resolves to the copy of the original default row and no other default changes; the plain fields are the original ones, and the template is linked |
| TemplateRoundTrip.LoadSucceedsIff | taiga-back/taiga/projects/models.py:1237-1241 | when loading succeeds and with what error it fails; the owner role is that of the single membership found, else of a role of least order |
| Permissions.ReservedIff | taiga-back/taiga/permissions/services.py:63-129 | a listed permission that no array gives away belongs to the project's administrators and superusers only |
| Permissions.PermissionsGrow | taiga-back/taiga/permissions/services.py:81-110 | permissions grow from anonymous to registered users to members to administrators; when superusers have all an administrator has |
| Permissions.SelectedIff | taiga-back/taiga/base/filters.py:151-170 | the filter selects an item exactly when the object check allows it, save for permissions given to anonymous users alone |
| Permissions.FilterIsSound | taiga-back/taiga/base/filters.py:136-172 | every item a view returns is one the object check allows, with any project parameter |
| Permissions.FilterIsExact | taiga-back/taiga/permissions/services.py:63-129 | filter and check agree row by row for anonymous users, superusers, and wherever public permissions include the anonymous one |
| Permissions.ViewIsExact | taiga-back/taiga/base/filters.py:136-172 | a view answers exactly the allowed items, of the requested project when one is requested, and refuses a parameter that is no integer |
| Permissions.NarrowingAgrees | taiga-back/taiga/base/filters.py:140-172 | reading only the requested project's memberships gives the same rows as filtering by project afterwards, also for project 0 |
| Permissions.StrangerIsRefused | taiga-back/taiga/base/filters.py:166-170 | a concrete item the filter refuses and the check allows |
| Permissions.ProjectListIff | taiga-back/taiga/base/filters.py:24-46 | the same agreement for the list of visible projects |
| Permissions.BaseKeepsInclusion | taiga-back/taiga/permissions/services.py:132-142 | base permissions keep anonymous within public ones and establish it exactly when stated; they are idempotent |
| Permissions.ViewsAgreeOnBase | taiga-back/taiga/permissions/services.py:81-142 | with base permissions the view filters return exactly what the check allows, for every user |
| Permissions.ListsAre | taiga-back/taiga/permissions/choices.py:10-72 | the three permission lists, member by member |
| TimelineFilter.AddTypes | taiga-back/taiga/timeline/service.py:167-170 | the first loop adds one disjunct per content type |
| TimelineFilter.AddMemberships | taiga-back/taiga/timeline/service.py:179-188 | the second loop adds one disjunct per membership or raises at the first null role |
| TimelineFilter.BuildFilter | taiga-back/taiga/timeline/service.py:147-188 | the accumulated disjunction is the specified one |
| TimelineFilter.RaisesIff | taiga-back/taiga/timeline/service.py:179-187 | when building the filter raises |
| TimelineFilter.VisibleIff | taiga-back/taiga/timeline/service.py:147-190 | who sees an entry, in terms of the permissions of the object check |
| TimelineFilter.TimelineIsSound | taiga-back/taiga/timeline/service.py:147-195 | a private project's entry reaches a user only if the object check grants the permission of its type |
| TimelineFilter.TimelineAgreesIff | taiga-back/taiga/timeline/service.py:147-190 | the timeline is stricter only for permissions given to registered users in general; never with base permissions |
| TimelineFilter.TimelineIs | taiga-back/taiga/timeline/service.py:147-195 | the whole filter for every user and namespace: the entries seen and not excluded, in order; everything for superusers |
| TimelineFilter.ExclusionDisagreesIff | taiga-back/taiga/timeline/service.py:198-226 | where the exclusion and the object check disagree, exactly |
| TimelineFilter.ExclusionOnSavedProjects | taiga-back/taiga/timeline/service.py:198-226 | for projects without null arrays the exclusion and the object check differ only for administrators whose role lacks the permission |
| TimelineFilter.AdministratorIsKeptOut | taiga-back/taiga/timeline/service.py:214-220 | a concrete administrator the check lets see the story and the exclusion does not |
| TimelineFilter.TimelineGrows | taiga-back/taiga/timeline/service.py:147-195 | the timeline grows from anonymous to registered users to superusers, with or without a namespace |
| Rebuild.BulkCreator.PushToTimelines | taiga-back/taiga/timeline/service.py:75-128 | an event adds its fan-out in order, nothing when object, user or project is gone |
| Rebuild.BulkCreator.ReplayMembers | taiga-back/taiga/timeline/rebuilder.py:100-102 | every membership with a user other than the owner is replayed |
| Rebuild.BulkCreator.ReplayProjects | taiga-back/taiga/timeline/rebuilder.py:104-113 | the selected projects are replayed up to one without an owner |
| Rebuild.BulkCreator.ReplayHistory | taiga-back/taiga/timeline/rebuilder.py:115-121 | the selected history is replayed; entries whose object or user is gone add nothing |
| Rebuild.BulkCreator.RebuildTimeline | taiga-back/taiga/timeline/rebuilder.py:60-126 | the rebuild deletes, replays and flushes as specified |
| RebuildLaws.AddAllCarries | taiga-back/taiga/timeline/rebuilder.py:24-38 | while rows are added the buffer stays under a thousand and every batch has exactly a thousand rows |
| RebuildLaws.Conservation | taiga-back/taiga/timeline/rebuilder.py:60-126 | the table is the kept rows, the rows pending from before and the fan-out of every replayed event in order; every batch but the last is full |
| RebuildLaws.KeptRows | taiga-back/taiga/timeline/rebuilder.py:62-72 | the deletion takes exactly the rows in the dates and project asked for |
| RebuildLaws.ClearedRows | taiga-back/taiga/timeline/rebuilder.py:62-72 | without arguments nothing is deleted, else exactly the rows asked for, the others in order |
| RebuildLaws.MembersReplayed | taiga-back/taiga/timeline/rebuilder.py:100-102 | which memberships are replayed, and as what event |
| RebuildLaws.ProjectsReplayed | taiga-back/taiga/timeline/rebuilder.py:74-113 | which projects are replayed, and as what event |
| RebuildLaws.HistoryReplayed | taiga-back/taiga/timeline/signals.py:57-101 | which history entries are replayed, and as what event |
| RebuildLaws.FanOutRows | taiga-back/taiga/timeline/service.py:93-122 | an event gives one project row and one row per related person, each pinned column by column, and none exactly when something is gone |
| RebuildLaws.FanOutWithoutProject | taiga-back/taiga/timeline/service.py:123-128 | an event of no project gives one row for the acting user |
| RebuildLaws.RaisesIff | taiga-back/taiga/timeline/rebuilder.py:84-113 | when a rebuild raises |
| RebuildLaws.IdempotentIff | taiga-back/taiga/timeline/rebuilder.py:62-121 | a second rebuild with the same arguments, starting with no pending rows, gives the same table exactly when no replayed membership lies outside the dates asked for, or, without arguments, when nothing is replayed |
| RebuildLaws.RepeatedWithoutArguments | taiga-back/taiga/timeline/rebuilder.py:62-72 | the call without arguments adds every replayed row again |
| AppTokens.ApplicationTokens.AuthorizeToken | taiga-back/taiga/external_apps/services.py:25-33 | the pair's row, made when missing, gets the new code and state |
| AppTokens.ApplicationTokens.ShowToken | taiga-back/taiga/external_apps/api.py:29-49 | an existing row gets a new code, a missing one is shown unsaved |
| AppTokens.ApplicationTokens.GenerateToken | taiga-back/taiga/external_apps/models.py:81-85 | the code is cleared and a token made only when there is none |
| AppTokens.ApplicationTokens.Validate | taiga-back/taiga/external_apps/api.py:80-94 | one matching row is redeemed, none is not found, several raise |
| AppTokenRuns.ExecSound | taiga-back/taiga/external_apps/models.py:45-69 | on every run there is one row per user and application, codes are distinct and drawn, tokens sign their own row |
| AppTokenRuns.AuthorizeAnswers | taiga-back/taiga/external_apps/api.py:68-78 | whom authorizing answers a new code |
| AppTokenRuns.ShowAnswers | taiga-back/taiga/external_apps/api.py:29-49 | when showing answers a new code, a row not stored, or a refusal |
| AppTokenRuns.IssuedRow | taiga-back/taiga/external_apps/services.py:29-33 | issuing changes or adds only the row of the pair, whose token stays |
| AppTokenRuns.DestroyAnswers | taiga-back/taiga/external_apps/api.py:57-66 | destroying takes exactly the user's own row with the id |
| AppTokenRuns.RedeemedOnce | taiga-back/taiga/external_apps/api.py:80-94 | each issued code is redeemed at most once in any run |
| AppTokenRuns.ReissueVoids | taiga-back/taiga/external_apps/services.py:25-33 | a new code for a pair voids the earlier one for good |
| AppTokenRuns.TokenNeverChanges | taiga-back/taiga/external_apps/models.py:81-85 | an access token, its user and its application stay the same as long as the row exists |
| AppTokenRuns.TokenNamesItsUser | taiga-back/taiga/external_apps/services.py:15-22 | a token authenticates its row's user while the row exists and nobody afterwards |
| AppTokenRuns.ValidateSucceedsIff | taiga-back/taiga/external_apps/api.py:80-94 | after any run a request, with or without a code, is answered with a token exactly when one user alone is entitled to it, raises exactly when several are, and is not found when nobody is |
| AppTokenRuns.ExecSpentHaveTokens | taiga-back/taiga/external_apps/models.py:81-85 | on every run a row without a code has its access token |
| AppTokenRuns.SpentIff | taiga-back/taiga/external_apps/models.py:78-85 | a row is without a code exactly when its code was redeemed since the last one was issued |
| AppTokenRuns.AccessConsumesIff | taiga-back/taiga/external_apps/api.py:80-94 | an answer with a token uses up a live issued code if and only if the request carries a code |
| AppTokenRuns.NoCodeChangesNothing | taiga-back/taiga/external_apps/api.py:82-91 | an answer to a request without a code repeats the token of a redeemed row and changes nothing |
| AppTokenRuns.AnsweredWithoutCode | taiga-back/taiga/external_apps/api.py:82-88 | a concrete run after which a request that names only the application is answered |

## Left out

- ThrottleRuns.CacheRefinesFullLog: time is a real number read once per request and never going backwards; the cache uses the same reading, keeps every entry until it expires and is never cleared.
- ThrottleRuns.WindowBound: requests handled concurrently between reading and writing one history are not modelled, since each request is one step.
- Throttling.CommonThrottle.AllowRequest: the whitelist decision and the client address are parameters of the request, because both come from libraries.
- TokenRuns.RotationChains: signing is an injection that only this server can perform, and the deletion of a user with its outstanding tokens is not a step.
- TokenRuns.SingleUse: two refreshes of one token at the same time are not modelled, since each request is one step.
- CommitScanner.MentionsExactly: letters and digits are the ASCII ones.
- PushHook.LastCommandWins: comment texts, users and notifications are not modelled; numbers are unbounded.
- RolePoints.Normalised: the generated name of a new null point is taken to be unused.
- Swimlanes.MatrixIsProduct: imports, direct edits of the default swimlane and the order of stories within a swimlane are not steps.
- Memberships.MoveToFront: bulk edits of the order by the user are not steps; notification policies are not modelled.
- RebuildLaws.IdempotentIff: starts with an empty buffer, as it is unless an earlier rebuild raised.
- TemplateRoundTrip.RoundTrip: status slugs, which every save recomputes, generated role slugs and the timestamps of custom attributes are not columns, and text is ordered by character code.
- Templates.ProjectRecord.ApplyTemplate: says nothing about the rows made before a failing step, which the request's transaction takes back.
- Permissions.FilterIsExact: the cache of a user's memberships is fresh, and query parameters other than the project are not modelled.
- TimelineFilter.VisibleIff: content types of other models are one case each, without further permissions.
- Rebuild.BulkCreator.RebuildTimeline: the data of an entry and the project totals are not columns, and an exception other than the two named is not modelled.
- AppTokenRuns.RedeemedOnce: uuid4 never repeats a value, and the deletion of a user or an application is not a step.
- The member list filter, attachment filters and webhook filters: variations of the permission filter.
- Throttles built on the base class of taiga.base.api: the pruning is in a base class that is not part of this model.
- Issue event hooks, serializers, full-text search, mail, storage and scheduled tasks: dispatch and input or output without state of their own.
