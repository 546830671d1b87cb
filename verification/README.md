# pwrap: models and proofs

pwrap gives every project a Postgres schema, a tenant role and short-lived login roles, streams
row changes to subscribers, and lets projects branch. These modules model the parts of it whose
correctness is a statement about whole runs, and prove that statement.

| module | what it models |
|---|---|
| `Postgres` | the roles, memberships, schemas, objects, privileges and control-plane rows that the credential code touches; each SQL statement with the condition under which Postgres refuses it; a connection that loses statements or acknowledgements |
| `Ephemeral`, `Sweeper`, `SweepTrips` | minting, `Sweep`, `DropForProject`, `retireRole`, statement by statement over a failing connection, and that a sweep is, trip by trip, the sweeper of `Lifecycle` |
| `ProjectDelete` | the one-transaction teardown of a project |
| `Lifecycle` | all of these interleaved with client sessions, any number of sweepers and crashes |
| `Conservation`, `SecondGrant`, `SweeperRaces` | what sweepers do to whom, and grant themselves, over such runs, what that asks of reused names, and runs in which it goes wrong |
| `Confinement`, `ProjectDrop` | projects that keep to their schemas, and `DropForProject`, interleaved with all that |
| `Refresh` | the timed credential refresh of the Go, Python and TypeScript SDKs |
| `PoolOwnership` | which Go pool is open, and who will close it |
| `Hub` | filtered fan-out into bounded buffers |
| `ChangeReplay`, `Transactions` | the capture trigger, transactions that fire it, and the consumer's fold |
| `TsSubscription`, `PySubscription` | the SDK queues between the socket and the iterator |
| `Realtime` | trigger, hub, queue and fold composed end to end |
| `BranchSync` | table-by-table copying from parent to branch |
| `Reencrypt` | the password envelope and the startup upgrade of plaintext rows |
| `MigrationLog` | Apply statement by statement, crash, stale sweep, and the two readers of the log |
| `RateLimit` | the token buckets with eviction |
| `Wrappers`, `Base64`, `Hasher`, `Text` | what all share, encoded key hashes, slugs, SQL quoting |

How to read the credential proofs. `Ephemeral.Swept(db, e)` is what retiring the names `e`
undisturbed leaves behind, written without reference to any statement order. `OnCourse(start, db, e)`
says that `db` has lost no data since `start` and that `Swept` of both is the same. Every statement
keeps it, wherever the pass is cut off; that is crash resumption.

Where a promise turned out to hold only under a condition, the code is modelled as it is and the
exact condition is proved:

- An object created as a login role between its REASSIGN OWNED and its DROP OWNED is destroyed;
  a sweeper destroys nothing else (`ObjectGoesIff`, `SweeperLosesOnlyLateObjects`, `LateObjectIsLost`).
- A mint keeps roles recorded if and only if no sweeper is about to forget a row of its name
  (`RecordedIffNameFree`), and keeps sweepers off unexpired roles if and only if every sweeper still
  listing the name would be right to retire the new role (`MeantIffNameHarmless`). One sweeper at a
  time guarantees both whatever the names (`OneSweeperIsSafe`); two do not
  (`TwoSweepersLoseReusedName`, `TwoSweepersRetireReusedName`).
- The bulk DELETE at the end of `DropForProject` is safe exactly when no login minted for the project
  since the list was read is there (`BulkRecordsIff`).
- A sweeper grants itself the tenant role only if the login went away between its two membership
  checks; one sweeper at a time never does, two can (`SecondGrantOnlyIfGone`,
  `OneSweeperNeverGrantsTenant`, `TwoSweepersGrantTenant`).
- A project delete goes through exactly when pwrapd's login has the tenant role's privileges and
  that role owns or holds nothing outside the project (`Delete`). DROP SCHEMA is sent before anything
  is granted, so an administrator that is no superuser and has been granted nothing, by a sweeper or
  otherwise, fails (`PlainLoginDeletesNothing`, `FirstProjectUndeletable`).
- The refresh margins hold up to 14.5 s (Go, Python) and 7.25 s (TypeScript) an attempt, less than
  the 15 s HTTP timeout of the Go SDK (`SlowAttempts`).
- Closing a derived Go client is harmless exactly when its user is not empty (`CloseOnDerived`).
- The example page loads its list before it connects, and does not filter by collection; when each
  matters is `GapConvergesIff`, `GapHarmlessIff` and `CollectionConvergesIff`.
- After a TypeScript `close` "done" is the last answer exactly when no call follows an event that
  still arrived (`DoneIsFinalIff`, `DoneIsNotAlwaysLast`).
- A truncating branch sync with an invalid name late in its list empties the tables before it
  (`BadNameLosesEarlierTables`); a key column that does not fit leaves all of them empty from there on
  (`MisfitEmptiesTheRest`).
- `ReencryptAll` counts empty values as updated, every time (`CountIsChangesIff`), and rewrites a
  row soft-deleted after the listing (`DeletedMeanwhileIsRewrittenIff`).
- A migration log that cannot be read counts as "not applied", after which `Status` and
  `LatestAppliedVersion` can disagree (`UnreadableLogHidesSuccess`, `ReadersAgreeIff`).

Where the code and its comments disagree the code is followed. The comment in `projects.Delete`
says that `ephemeral_roles` rows disappear by ON DELETE CASCADE, but the delete is soft and the
rows stay (`DeletedIsClean`). `ReencryptAll` says that it returns the rows updated,
but counts rows whose update matched nothing. `isApplied` has an error result that is always nil.
`Close` says that it does nothing on a derived client, which is so only for a non-empty user.
`parseEncoded` describes an empty text before the first dollar sign but accepts any (`ParseIff`).

## Model

| member | source | states |
|---|---|---|
| Ephemeral.NamesFitAndDiffer | internal/controlplane/tenancy/ephemeral.go:252-268 | a minted name fits the 63-byte limit and mints with different suffixes never collide, even across projects with long names |
| Ephemeral.NameKeepsTenant | internal/controlplane/tenancy/ephemeral.go:252-268 | the name is the whole tenant name, or as much as fits in 63 bytes, then "_e_" and the suffix |
| Ephemeral.MintRecords | internal/controlplane/tenancy/ephemeral.go:54-90 | a mint that commits keeps every minted role recorded, and only succeeds for a project that is still live |
| Ephemeral.MintCommitsIffFresh | internal/controlplane/tenancy/ephemeral.go:54-90 | in a consistent database a mint for a live project commits if and only if its name is fresh, and then adds exactly that login, in that tenant role, and its row with the given expiry |
| Ephemeral.MintNeedsProject | internal/controlplane/tenancy/ephemeral.go:64-84 | without the project's row or the tenant role it is refused |
| Ephemeral.TenantPrivsComeWithRole | internal/controlplane/tenancy/ephemeral.go:194-217 | while a login is there, having its privileges already gives the tenant role's |
| SecondGrant.PrivsStay | internal/controlplane/tenancy/ephemeral.go:233-250 | the privileges on a login last, over every step of anybody, for as long as the login does |
| SecondGrant.SecondGrantOnlyIfGone | internal/controlplane/tenancy/ephemeral.go:213-217 | whatever others do between a sweeper's two membership checks, the second leads to a grant only if the login was gone at some moment in between |
| SecondGrant.OneSweeperNeverGrantsTenant | internal/controlplane/tenancy/ephemeral.go:213-217 | over every run with one sweeper at a time, nobody is ever about to grant itself a tenant role |
| Ephemeral.GrantKeepsCourse | internal/controlplane/tenancy/ephemeral.go:233-250 | the grant is accepted, gives the privileges, and changes neither data nor the goal of the pass |
| Ephemeral.ReassignKeepsCourse | internal/controlplane/tenancy/ephemeral.go:219-220 | once granted, REASSIGN OWNED is accepted, moves every object of the login to the tenant role and nothing else, and keeps the goal |
| Ephemeral.DropOwnedKeepsCourse | internal/controlplane/tenancy/ephemeral.go:221-223 | after the reassign DROP OWNED destroys no object and clears exactly the login's privileges |
| Ephemeral.DropRoleKeepsCourse | internal/controlplane/tenancy/ephemeral.go:224-230 | after both, Postgres has no reason left to refuse DROP ROLE, and the row is still there |
| Ephemeral.DeleteRowKeepsCourse | internal/controlplane/tenancy/ephemeral.go:135-138 | forgetting the row of a role that is gone keeps every other role recorded and the goal unchanged |
| Ephemeral.NothingLeft | internal/controlplane/tenancy/ephemeral.go:98-146 | when no listed name has a row left, the database is exactly what an undisturbed pass leaves |
| Ephemeral.ResumedPassHasSameGoal | internal/controlplane/tenancy/ephemeral.go:98-146 | a pass cut off anywhere and listed afresh at the same clock reading heads for the same final state |
| Ephemeral.BulkDeleteSafeIffNoneLeft | internal/controlplane/tenancy/ephemeral.go:180-181 | deleting all rows of a project keeps roles recorded if and only if none of its logins exists at that moment |
| Sweeper.GrantSelfIfMissing | internal/controlplane/tenancy/ephemeral.go:237-250 | grants only where privileges are missing; success means the privileges are held; for a role that exists, failure means one of its own round trips was not delivered |
| Sweeper.RetireRole | internal/controlplane/tenancy/ephemeral.go:201-231 | on any connection no data is lost, the row stays, success means the role is gone, failure means one of its own round trips was not delivered, and trip by trip it is the sweeper of `Lifecycle` |
| Sweeper.GrantBoth | internal/controlplane/tenancy/ephemeral.go:213-217 | at most the login itself is ever granted, and success gives both privileges |
| Sweeper.HandOverAndDrop | internal/controlplane/tenancy/ephemeral.go:219-230 | each statement makes the next one permitted, so on a good connection all three succeed |
| Sweeper.RetireAndForget | internal/controlplane/tenancy/ephemeral.go:127-139 | only a role that is really gone loses its row; a failure has its own undelivered trip; either way the sweeper of `Lifecycle` stands at the next name |
| Sweeper.Sweep | internal/controlplane/tenancy/ephemeral.go:98-146 | dropped plus failures is the number of eligible rows; every eligible name not reported is gone; there are no more failures than undelivered round trips, so one failing name does not keep the others; no object disappears, owners change only from a retired role to its tenant role, no role within expiry plus five minutes is dropped; without failures the final state is exactly the undisturbed one |
| SweepTrips.TripsCompose | internal/controlplane/tenancy/ephemeral.go:98-146 | the round trips of a sweeper of `Lifecycle` compose, which is how `Sweep` on every connection is proved to be exactly such a sweeper |
| Sweeper.SweepAgain | internal/controlplane/tenancy/ephemeral.go:92-146 | a sweep over any failing or crashing connection followed by one over a good one ends where one undisturbed sweep would have, with nothing left past expiry plus grace |
| Sweeper.DropForProject | internal/controlplane/tenancy/ephemeral.go:148-182 | success means exactly this project's logins and rows are gone, others' stay, and their objects are handed over; failure loses nothing and has an undelivered round trip |
| ProjectDelete.MarksAndSchema | internal/controlplane/projects/service.go:207-239 | marking and revoking always run; DROP SCHEMA, sent before anything is granted, runs if and only if pwrapd's login already has the tenant role's privileges, and then removes exactly the project's schema contents |
| ProjectDelete.PlainLoginDeletesNothing | internal/controlplane/projects/service.go:239 | a login that is no superuser and was granted nothing can delete no project in any consistent database |
| ProjectDelete.OneLogin | internal/controlplane/projects/service.go:240-249 | after the schema, GRANT, DROP OWNED and DROP ROLE of one login are all accepted and take away exactly that login |
| ProjectDelete.TenantRole | internal/controlplane/projects/service.go:250-255 | the last DROP ROLE is refused if and only if the tenant role owns or holds something outside the project |
| ProjectDelete.NoMembersAtDrop | internal/controlplane/projects/service.go:225-250 | no DROP ROLE of a delete meets a role that still has members |
| ProjectDelete.ConfinedRefusedIffUnprivileged | internal/controlplane/projects/service.go:229-255 | while roles keep to their own schemas, that missing privilege is the only thing that can make a delete fail |
| ProjectDelete.DeletedIsClean | internal/controlplane/projects/service.go:195-263 | afterwards no role, schema or live key of the project exists, the invariant holds, and its rows remain, naming roles that are gone |
| ProjectDelete.OthersUntouched | internal/controlplane/projects/service.go:195-263 | no role, schema, object or key of another project changes |
| ProjectDelete.Delete | internal/controlplane/projects/service.go:195-263 | committed means exactly the deleted state; a failure leaves everything as it was unless the acknowledgement of the commit was lost, and has an undelivered round trip or a project that cannot be deleted; on a good connection it is not found if and only if the project is not live, and commits if and only if the login has the tenant role's privileges and that role holds nothing elsewhere |
| ProjectDelete.Teardown | internal/controlplane/projects/service.go:201-256 | the statements in their order build the deleted state without touching the published one, and all run exactly under that condition |
| Confinement.StepKeepsConfined | internal/controlplane/projects/service.go:229-238 | every statement of every sweeper, mint, create and delete keeps projects to their own schemas while clients do |
| Confinement.DeletesGoThroughIff | internal/controlplane/projects/service.go:195-263 | over every such run, a delete at any time goes through if and only if the login has the privileges for the schema, and otherwise changes nothing |
| Lifecycle.FreshClusterIsGood | internal/controlplane/tenancy/ephemeral.go:43-250 | the runs may start from an empty cluster, with or without superuser |
| Lifecycle.EveryStepKeepsGood | internal/controlplane/tenancy/ephemeral.go:43-250 | every single statement of every sweeper, and every mint of a free name, create, delete and client action between them, keeps the invariant |
| Lifecycle.EveryRunKeepsRolesRecorded | internal/controlplane/tenancy/ephemeral.go:54-250 | over every interleaving with crashes and lost statements whose mints draw names no sweeper is about to forget, every existing minted role has its row |
| Lifecycle.RecordedIffNameFree | internal/controlplane/tenancy/ephemeral.go:125-139 | for any mint in any good state: roles stay recorded over everything that may follow if and only if its name is free in that sense |
| Lifecycle.ForgottenAtOnce | internal/controlplane/tenancy/ephemeral.go:135-138 | otherwise one acknowledged statement leaves the new role unrecorded |
| Lifecycle.NoRoleEscapes | internal/controlplane/tenancy/ephemeral.go:98-123 | an expired role of any reachable state is on the next sweep's list |
| Lifecycle.SweeperLosesOnlyLateObjects | internal/controlplane/tenancy/ephemeral.go:219-229 | over every run, an object a sweeper destroys was created as the retired role after that sweeper's REASSIGN OWNED |
| Lifecycle.ObjectGoesIff | internal/controlplane/tenancy/ephemeral.go:219-229 | one round trip of a sweeper destroys an object if and only if it is a DROP OWNED that arrives, is permitted, and is about the object's owner |
| Lifecycle.LateObjectsAreLost | internal/controlplane/tenancy/ephemeral.go:221-223 | so every object created too late is destroyed, acknowledged or not |
| Lifecycle.FirstProjectUndeletable | internal/controlplane/projects/service.go:229-254 | a run of two steps from an empty cluster with an ordinary administrator: the project it creates cannot be deleted |
| Conservation.EveryRunConserves | internal/controlplane/tenancy/ephemeral.go:20-24 | over every interleaving with free and harmless names: a sweeper changes an owner only from the role it retires to that role's own tenant role, drops no role still within expiry plus grace at its reading, and moves nothing between schemas |
| Conservation.RunKeepsMeant | internal/controlplane/tenancy/ephemeral.go:98-123 | over such runs every listed role still belongs to the tenant it was listed with and had expired |
| Conservation.MeantIffNameHarmless | internal/controlplane/tenancy/ephemeral.go:54-90 | for any mint in any such state: sweepers keep to roles they are meant to retire, over everything that may follow, if and only if every sweeper still listing the name would be right to retire the new role |
| Conservation.SoloMintIsFreshOrRefused | internal/controlplane/tenancy/ephemeral.go:64-69 | with one sweeper, the primary key refuses a mint of any name the sweeper still holds |
| Conservation.SoloPersists | internal/controlplane/tenancy/ephemeral.go:98-146 | one sweeper stays one sweeper with distinct, recorded names |
| Conservation.OneSweeperIsSafe | internal/controlplane/tenancy/ephemeral.go:98-146 | over every run with one sweeper at a time, whatever names mints draw: all names are free and harmless, roles stay recorded and sweepers keep to the roles they are meant to retire |
| SweeperRaces.TwoSweepersLoseReusedName | internal/controlplane/tenancy/ephemeral.go:125-145 | a run from an empty cluster in which a mint's name is not free, and the role ends up recorded nowhere |
| SweeperRaces.TwoSweepersRetireReusedName | internal/controlplane/tenancy/ephemeral.go:201-231 | a run from an empty cluster in which a reused name is not harmless, and the sweeper drops the new role before its expiry |
| SweeperRaces.TwoSweepersGrantTenant | internal/controlplane/tenancy/ephemeral.go:213-217 | a run from an empty cluster without superuser in which a sweeper grants itself the tenant role, because another dropped the login between its two checks |
| SweeperRaces.LateObjectIsLost | internal/controlplane/tenancy/ephemeral.go:219-223 | a run from an empty cluster in which an object created as the login after the reassign is destroyed |
| ProjectDrop.BulkRecordsIff | internal/controlplane/tenancy/ephemeral.go:175-181 | in any reachable state: the DELETE that ends a drop keeps roles recorded if and only if no login minted for the project since its list was read is there |
| ProjectDrop.EveryRunKeepsRolesRecorded | internal/controlplane/tenancy/ephemeral.go:151-182 | over every interleaving of drops with sweepers, mints, deletes, clients and lost statements that meets this condition, every minted role has its row |
| ProjectDrop.QuietIsSafe | internal/controlplane/tenancy/ephemeral.go:148-182 | every run meets it in which nothing is minted for a project while its drop is active |
| Refresh.Loop.Turn | sdk/go/pwrap/client.go:220-286 | one sleep, attempt and retry sleep in imperative form is the step the timing results speak about |
| Refresh.EnoughKeepsValid | sdk/go/pwrap/client.go:220-254 | with enough margin the credential in use is never past its VALID UNTIL, over every run without k+1 failures in a row |
| Refresh.TooLittleShows | sdk/py/pwrap/client.py:178-217 | with less margin some such run uses an expired credential |
| Refresh.AlwaysValidIffEnough | sdk/ts/src/client.ts:292-331 | the exact margin, for any lead, floor, retry, TTL and attempt duration |
| Refresh.InstantAttempts | internal/controlplane/tenancy/ephemeral.go:52-76 | with TTL at least 150 s and instant attempts Go and Python survive one failure in a row and TypeScript three, and no more |
| Refresh.SlowAttempts | sdk/go/pwrap/client.go:26-40 | the same promises hold up to 14.5 s and 7.25 s an attempt, and not beyond |
| PoolOwnership.EveryRun | sdk/go/pwrap/client.go:220-286 | over every interleaving no pool leaks or has two owners, the current one is from the latest successful exchange, and it is open exactly if nothing closed it since |
| PoolOwnership.EveryRunSound | sdk/go/pwrap/client.go:147-187 | unless a derived client without a user is closed, the current pool is open until Close returns and everything awaiting its close is still open |
| PoolOwnership.NothingAfterClose | sdk/go/pwrap/client.go:147-160 | after Close nothing is opened again, and when the delayed closes have run every pool ever opened is closed |
| PoolOwnership.CloseOnDerived | sdk/go/pwrap/client.go:144-152 | closing a derived client changes nothing if and only if its user is not empty |
| PoolOwnership.Conn.Refresh | sdk/go/pwrap/client.go:256-286 | success makes the new pool current and leaves exactly the old one awaiting its close; failure leaves the current pool and no open new one |
| PoolOwnership.Client.WithUser | sdk/go/pwrap/client.go:176-187 | the clone shares the connection state and has no refresh handles |
| PoolOwnership.Client.Close | sdk/go/pwrap/client.go:144-160 | a no-op for a bound user; on the root, even with a refresh under way, the pool then in use is closed for good and no new one replaces it |
| Hub.Hub.Fanout | internal/controlplane/realtime/hub.go:244-259 | the loop over subscribers offers the event to each independently and counts exactly the full ones that wanted it |
| Hub.Hub.Receive | internal/controlplane/realtime/handler.go:112-133 | hands over the oldest buffered event |
| Hub.TableReflectsRegistrations | internal/controlplane/realtime/hub.go:146-155 | a subscriber is live exactly between its Subscribe and its deregistration, under its own filter |
| Hub.DeliveredInOrder | internal/controlplane/realtime/hub.go:54-65 | over every run received plus buffered is an in-order, duplicate-free part of the matching events published while registered, at most 64 are buffered, and without drops it is all of them |
| Hub.OwnSchemaOnly | internal/controlplane/realtime/hub.go:48-65 | nobody ever receives an event of another schema |
| Hub.OnlyWhatWasAsked | internal/controlplane/realtime/hub.go:48-65 | over every run each event received or waiting is of the subscriber's schema, of its table if it named one and of its user if it named one, and at most 64 wait |
| Hub.PublishReaches | internal/controlplane/realtime/hub.go:244-259 | and an event that meets these conditions is put last in the buffer of a registered subscriber, or counted as dropped if 64 wait; any other leaves it alone |
| Hub.DropsAccountedFor | internal/controlplane/realtime/hub.go:88-91 | enqueued events plus dropCount equal all matches, over every run |
| ChangeReplay.Page.OnMessage | examples/realtime-todos/web/index.html:140-148 | the handler's branches on the mutable map are the fold step |
| ChangeReplay.Page.Drain | examples/realtime-todos/web/index.html:140-148 | handling messages one by one is replaying them |
| ChangeReplay.TableAt | migrations/tenant/0001_init.up.sql:127-183 | the table at a key is what the key's last log row says, or its old value if there is none |
| ChangeReplay.CaptureIs | migrations/tenant/0001_init.up.sql:143-157 | a log row has the row's id, what the row was and what it has become, and its operation is INSERT, UPDATE or DELETE accordingly |
| ChangeReplay.ReplayAt | examples/realtime-todos/web/index.html:140-148 | the view at a key is what the key's last event says, or what the view began with |
| ChangeReplay.ReplayConverges | migrations/tenant/0001_init.up.sql:127-183 | replaying from any point up to a snapshot onto that snapshot ends exactly at the table |
| ChangeReplay.ConvergedViewShows | examples/realtime-todos/web/index.html:140-148 | the converged view has one entry for each row of the table, under its id, with its title and whether it is done |
| ChangeReplay.PublicationConverges | internal/controlplane/realtime/hub.go:180-242 | so does replaying events in any order that keeps each row's, with any gaps that keep each row's latest |
| Transactions.EveryRun | migrations/tenant/0001_init.up.sql:127-173 | over every interleaving of transactions, what each open one has written and logged fits the committed table, whatever others commit meanwhile |
| Transactions.PublishedIsTheLog | migrations/tenant/0001_init.up.sql:94-173 | although log ids are drawn out of order, the log rows in the order of their notifications are the changes that turn the table as it was into the committed one |
| ChangeReplay.GapConvergesIff | examples/realtime-todos/web/index.html:105-170 | with events missing between snapshot and connection the view ends right if and only if every row that changed in the gap is mentioned again |
| ChangeReplay.GapHarmlessIff | examples/realtime-todos/web/index.html:170 | known when connecting: the view ends right whatever still happens if and only if the gap changed nothing the view shows |
| ChangeReplay.MissedInsert | examples/realtime-todos/web/index.html:170 | one insert in the gap is enough to go wrong |
| ChangeReplay.CollectionConvergesIff | examples/realtime-todos/web/index.html:140-151 | without a collection filter the view ends right if and only if no replayed key is left in another collection |
| Realtime.OwedSinceJoining | internal/controlplane/realtime/handler.go:74-84 | who joins and stays is owed exactly the matching events from then on |
| Realtime.SentFromJoining | internal/controlplane/realtime/hub.go:205-259 | without drops it is sent the events published from its joining on, each once and in the order of publication |
| Realtime.ConsumerHasAll | sdk/ts/src/subscribe.ts:101-128 | an iterator asked often enough has handed out every event in order |
| Realtime.SeenIsPublished | internal/controlplane/realtime/handler.go:79-133 | a client that joined, stayed and lost nothing has been handed exactly what was published since, in order |
| Realtime.ConsumerConverges | internal/controlplane/realtime/handler.go:79-94 | join, snapshot at any later point, fold: the client's view ends at the table, for any order of publication that keeps each row's and any gaps that keep each row's latest |
| Realtime.CommitsConverge | internal/controlplane/realtime/hub.go:180-259 | from the transactions on: however they interleave, with notifications in commit order the client's view ends at the committed table |
| TsSubscription.Subscription.Deliver | sdk/ts/src/subscribe.ts:121-128 | hands the event to the oldest waiter, or queues it |
| TsSubscription.Subscription.Next | sdk/ts/src/subscribe.ts:103-111 | a new promise, answered at once or left waiting |
| TsSubscription.Subscription.Close | sdk/ts/src/subscribe.ts:89-99 | the loop answers exactly the waiting promises with done |
| TsSubscription.StepKeepsGood | sdk/ts/src/subscribe.ts:89-128 | queue and waiters are never both non-empty, the waiters are exactly the pending promises, and none waits after close |
| TsSubscription.ResolvedOnce | sdk/ts/src/subscribe.ts:89-128 | a promise once answered keeps its answer |
| TsSubscription.EveryRun | sdk/ts/src/subscribe.ts:89-128 | over every run the events handed out in call order followed by the queue are exactly the delivered ones |
| TsSubscription.WholeLife | sdk/ts/src/subscribe.ts:89-128 | the k-th call gets the k-th event, before or after close, and every call beyond them gets done |
| TsSubscription.DoneIsFinalIff | sdk/ts/src/subscribe.ts:103-128 | from a closed and drained subscription every further call gets done if and only if no call follows an event that still arrived |
| TsSubscription.DoneIsNotAlwaysLast | sdk/ts/src/subscribe.ts:121-128 | the shortest run in which one does |
| PySubscription.Subscription.Close | sdk/py/pwrap/subscribe.py:145-156 | stops the reader and leaves at least one end marker, however often it is called |
| PySubscription.Subscription.Next | sdk/py/pwrap/subscribe.py:169-178 | waits only on an empty queue; a marker is put back |
| PySubscription.EveryRun | sdk/py/pwrap/subscribe.py:145-202 | over every run events come out in arrival order, all before the first end, none is lost, and all ends are alike |
| PySubscription.EndedForGood | sdk/py/pwrap/subscribe.py:169-178 | once iteration has ended every later call ends at once and the same way, whatever happens |
| PySubscription.EndsAsClosed | sdk/py/pwrap/subscribe.py:175-202 | iteration ends with SubscriptionClosed if and only if the server turned the subscription away before it was closed |
| PySubscription.OverDeliversAll | sdk/py/pwrap/subscribe.py:182-202 | when the reader is over a consumer that keeps calling gets all that arrived and then the end |
| BranchSync.ClashIffKeyBroken | migrations/tenant/0001_init.up.sql:25-33 | the copy of a table is refused exactly when its result would break the second unique key |
| BranchSync.CopyMerges | internal/controlplane/branches/service.go:160-190 | a copy succeeds if and only if every name is valid and every shared table accepts its rows, and then each listed table is the merge |
| BranchSync.CopyIsUnion | internal/controlplane/branches/service.go:160-190 | row by row: after a successful copy a listed shared table has the child's rows as they were and the parent's under all other keys |
| BranchSync.DefaultSyncReplacesBuiltIns | internal/controlplane/branches/service.go:26-28 | with no tables listed a truncating sync of two projects with the baseline always goes through and makes exactly the four built-in tables the parent's |
| BranchSync.KeyColumns | internal/controlplane/branches/service.go:173-178 | only pwrap_matviews may be keyed by name, every other table by id |
| BranchSync.ValidIdentIff | internal/controlplane/branches/service.go:243-260 | the names that can be listed, by character codes and length |
| BranchSync.CopyOnlyAdds | internal/controlplane/branches/service.go:160-190 | however it ends, every child row is kept and a new row is the parent's under a key the child lacked |
| BranchSync.CopyResumes | internal/controlplane/branches/service.go:160-190 | stopped after any table and run again it ends as one run |
| BranchSync.WipeEmpties | internal/controlplane/branches/service.go:192-212 | truncation empties exactly the listed tables before the point where it stops |
| BranchSync.TruncatingSyncReplaces | internal/controlplane/branches/service.go:111-133 | with truncation it succeeds if and only if names and key columns fit, and then shared listed tables equal the parent's, listed tables the parent lacks are empty, and the rest is untouched |
| BranchSync.BadNameLosesEarlierTables | internal/controlplane/branches/service.go:192-196 | an invalid name leaves the tables before it emptied and nothing copied |
| BranchSync.MisfitEmptiesTheRest | internal/controlplane/branches/service.go:173-187 | a key column that does not fit leaves every listed table emptied and only those before it filled |
| BranchSync.SyncResumes | internal/controlplane/branches/service.go:111-133 | in either mode, cut off or refused anywhere and run again, it ends as one run |
| BranchSync.SyncTwice | internal/controlplane/branches/service.go:173-174 | a second sync changes nothing |
| BranchSync.Branches.CopyData | internal/controlplane/branches/service.go:160-190 | the loop over names has the effect of the specification and changes only the child's schema |
| BranchSync.Branches.Truncate | internal/controlplane/branches/service.go:192-212 | likewise for truncation |
| BranchSync.Branches.Sync | internal/controlplane/branches/service.go:111-133 | missing projects and non-branches are reported with nothing changed; otherwise the child is synced and the parent and all others stay as they are |
| Reencrypt.EncryptRoundTrip | internal/crypto/cipher.go:87-124 | every plaintext survives storage, and what is stored is an envelope exactly if it is not empty |
| Reencrypt.NoopRoundTripIff | internal/crypto/cipher.go:130-144 | without a key storage is transparent exactly for values that do not look like envelopes |
| Reencrypt.EnvelopePrefix | internal/crypto/cipher.go:50 | an envelope is told by "v1:" |
| Reencrypt.DecryptIff | internal/crypto/cipher.go:102-124 | a keyed cipher reads old plaintext as it stands, and an envelope only if it is base64 of a nonce and something that opens under it |
| Reencrypt.CredentialsAre | internal/controlplane/projects/service.go:288-303 | nobody gets credentials for a missing or deleted project; a live one's are its role, the stored password decrypted, and its schema |
| Reencrypt.Store.ReencryptAll | internal/controlplane/projects/service.go:310-355 | upgrades exactly the live plaintext rows and touches no other; the count is the number of rows upgraded, also when an update fails half-way |
| Reencrypt.UpgradeKeepsCredentials | internal/controlplane/projects/service.go:288-308 | GetCredentials returns the same for every project, live non-empty values are envelopes, and envelopes and deleted rows are unchanged |
| Reencrypt.SecondRunChangesNothing | internal/controlplane/projects/service.go:305-310 | a second run changes no row, and lists exactly the live empty values |
| Reencrypt.CountIsChangesIff | internal/controlplane/projects/service.go:337-353 | the returned count is the number of changed rows if and only if no live value is empty |
| Reencrypt.PassIsInvisible | internal/controlplane/projects/service.go:337-353 | however passes interleave with other writes, every row reads as if they had not run, so no newer value is overwritten |
| Reencrypt.AlikeReadAlike | internal/controlplane/projects/service.go:288-303 | and so the credentials handed out are the same |
| Reencrypt.DeletedMeanwhileIsRewrittenIff | internal/controlplane/projects/service.go:345-350 | a row deleted since the listing is rewritten exactly if its password is still the listed, non-empty one |
| MigrationLog.OrderSuffices | internal/controlplane/migrations/runner.go:114-160 | in the order of applyAll each statement finds what it needs because of the ones before it |
| MigrationLog.WholeApply | internal/controlplane/migrations/runner.go:114-160 | the seven statements, named: three extensions, two grants, the project's baseline and River |
| MigrationLog.EveryRunInOrder | internal/controlplane/migrations/runner.go:114-160 | over every run, however cut off, extensions are there before grants, grants before any baseline, and a project's baseline before River in it |
| MigrationLog.StepKeepsGood | internal/controlplane/migrations/runner.go:56-160 | every statement of every apply, crash and sweep keeps that an applied row stands for all seven statements and a running apply for those before its next, and never takes an applied row back |
| MigrationLog.EveryRun | internal/controlplane/migrations/runner.go:56-160 | over every interleaving of any number of applies with lost statements, crashes and sweeps: an applied row implies that all three extensions, both grants, its own baseline and River in its project are there |
| MigrationLog.AllDelivered | internal/controlplane/migrations/runner.go:114-160 | an apply whose remaining statements are acknowledged gets through, whatever else is under way |
| MigrationLog.SweptWhileWorking | internal/controlplane/migrations/sweep.go:11-31 | an apply marked failed by a sweep while it works still ends applied, with all its statements run |
| MigrationLog.AppliedStaysNoOpIffReadable | internal/controlplane/migrations/runner.go:72-77 | applying an applied migration again, at any later time, changes nothing if and only if the log could be read |
| MigrationLog.SweepClearsStale | internal/controlplane/migrations/sweep.go:18-31 | the sweep changes exactly pending rows past the limit, does not change the result of an apply it overtakes, and changes nothing when run again at the same time |
| MigrationLog.HistoryIsNewestFirst | internal/controlplane/migrations/runner.go:186-192 | the history the readers use is exactly the project's rows in strictly descending start order |
| MigrationLog.Runner.Apply | internal/controlplane/migrations/runner.go:56-112 | returns the newest earlier entry without inserting if it finds one, else appends just its own row, applied if and only if all seven statements were acknowledged; an applied result means all seven are there; dying anywhere leaves what the statements so far did |
| MigrationLog.Runner.SweepStale | internal/controlplane/migrations/sweep.go:18-31 | the count it returns is the number of rows that were pending past the limit, and none is left |
| MigrationLog.Runner.Status | internal/controlplane/migrations/runner.go:185-220 | the loop over the 50 newest rows reports the first applied one's version |
| MigrationLog.LatestIsNewestApplied | internal/controlplane/projects/service.go:266-279 | the version both readers look for is that of the newest applied row |
| MigrationLog.ReadersAgreeIff | internal/controlplane/projects/service.go:266-279 | Status and LatestAppliedVersion agree if and only if no row is applied or one of the newest 50 is |
| MigrationLog.OrderlyReadersAgree | internal/controlplane/migrations/runner.go:185-220 | over every run of one binary with a readable log and applies serial in each project they agree, however long the log |
| MigrationLog.UnreadableLogHidesSuccess | internal/controlplane/migrations/runner.go:162-182 | a success followed by 50 failing retries that could not read the log makes Status report no version |
| RateLimit.Limiter.Allow | internal/auth/ratelimit.go:42-55 | creating, refilling and taking in place agree with the specification, and other keys are untouched |
| RateLimit.Limiter.Cleanup | internal/auth/ratelimit.go:60-77 | the loop over the map evicts exactly the entries idle for longer than the TTL |
| RateLimit.EvictionInvisible | internal/auth/ratelimit.go:40-77 | if a bucket refills within the TTL, the evicting limiter answers every run like one that never evicts |
| RateLimit.InvisibleIffRefilledWithinTtl | internal/auth/ratelimit.go:31-38 | and only then |
| RateLimit.EvictionShows | internal/auth/ratelimit.go:60-77 | otherwise a run with ticks only at multiples of the TTL tells them apart |
| RateLimit.SpentWithinRefill | internal/auth/ratelimit.go:42-55 | what a key is granted never exceeds what it held plus what flowed in |
| RateLimit.WindowBound | internal/auth/ratelimit.go:42-77 | if a bucket refills within the TTL: in any window of any run, across evictions and other keys, a key gets at most burst plus rps times the window |
| RateLimit.WindowBoundIff | internal/auth/ratelimit.go:42-77 | and only then does that bound hold for all of them |
| RateLimit.BoundExceeded | internal/auth/ratelimit.go:60-77 | otherwise a run that is drained, evicted and drained again exceeds it |
| RateLimit.DeployedLimiter | internal/controlplane/server.go:80 | for the deployed limiter: 20 plus 10 a second |
| RateLimit.DeployedLimiterAdmits | internal/controlplane/server.go:80 | and exactly 20 at once, one more after each tenth of a second, forgotten after more than ten idle minutes |
| RateLimit.BurstExactly | internal/auth/ratelimit.go:47-54 | an unused key gets exactly its burst at once |
| RateLimit.AdmittedAgainIff | internal/auth/ratelimit.go:42-55 | a drained key is admitted again if and only if one token has flowed in |
| RateLimit.EmptyKeyIsFree | internal/auth/ratelimit.go:41-45 | the empty key is always admitted and never kept |
| Base64.Base64RoundTrip | internal/controlplane/keys/hasher.go:36-37 | unpadded base64 is undone by its decoder, for all bytes |
| Base64.PaddedRoundTrip | internal/crypto/cipher.go:99-113 | and so is the padded form |
| Base64.AlphabetIsStandard | internal/controlplane/keys/hasher.go:36-37 | the alphabet is that of table 1 of RFC 4648 |
| Base64.StandardExamples | internal/crypto/cipher.go:99 | the examples of section 10 of RFC 4648 |
| Hasher.ParamsRoundTrip | internal/controlplane/keys/hasher.go:74-76 | scanning the printed parameters returns them, for all 32-bit memory and time and 8-bit threads |
| Hasher.EncodedRoundTrip | internal/controlplane/keys/hasher.go:64-87 | parsing what was printed returns every parameter, salt and hash exactly |
| Hasher.VerifyHash | internal/controlplane/keys/hasher.go:26-52 | a stored hash always parses, its own password verifies, and another one exactly if it derives the same key |
| Hasher.VerifyIff | internal/controlplane/keys/hasher.go:42-52 | for every stored text, well formed or not: match if and only if it parses and the password derives the hash in it; bad encoding if and only if it does not parse |
| Hasher.ParseIff | internal/controlplane/keys/hasher.go:64-87 | exactly which texts parse, to what: six parts between dollar signs with "argon2id" and "v=19" in place, numbers that fit, two base64 texts; the text before the first dollar sign is ignored |
| Hasher.StoredText | internal/controlplane/keys/hasher.go:16-39 | the text stored for a new key: m=65536, t=2, p=4 and a 32-byte key |
| Hasher.ScanUintReads | internal/controlplane/keys/hasher.go:74 | a number is read as it stands after blanks, never wrapped |
| Hasher.BlanksAreSkipped | internal/controlplane/keys/hasher.go:74 | and blanks before it are skipped |
| Text.SlugIsWordsJoined | internal/controlplane/projects/service.go:357-360 | slugify is the maximal runs of [a-z0-9] joined by single underscores |
| Text.SlugifyCanonical | internal/controlplane/projects/service.go:38 | output is always canonical, canonical strings are exactly the fixed points, slugify is idempotent |
| Text.SlugsClashIffWordsAgree | internal/controlplane/projects/service.go:357-360 | two names clash exactly when their words agree |
| Text.QuoteRoundTrip | internal/controlplane/projects/service.go:370-379 | reading back a quoted text gives the original and stops at its end |
| Text.ReadIsQuoted | internal/controlplane/projects/service.go:370-379 | whatever reads as quoted is what quoting would have written |
| Text.PiecesUnambiguous | internal/controlplane/tenancy/ephemeral.go:277-278 | quoted pieces laid end to end come apart in only one way |
| Text.CreateRoleUnambiguous | internal/controlplane/tenancy/ephemeral.go:73-78 | equal statement texts name the same role, password, expiry and tenant, whatever characters they contain |
| Text.CreateRoleReads | internal/controlplane/tenancy/ephemeral.go:73-78 | and which value stands where, as a reader of SQL finds them |

## Left out

Assumptions about what lies outside:

- Postgres: only the statement effects and refusals in `Postgres.Exec`; in particular DROP ROLE is refused while members remain, as the comments in projects.Delete and DropForProject say; no statement sent meets such a role (`NoMembersAtDrop`, `LoginHasNoMembers`). Objects have no dependencies on each other, and role and schema names are compared only for equality, so they are numbers.
- pwrapd's login created every role and may grant them to itself, CREATE ROLE gives it no membership that it inherits, and CREATE SCHEMA with another owner is allowed to it; what its privileges otherwise allow is `HasPrivs`.
- A minted role name never equals a project's role name, and a new project's role name never equals a recorded or still listed login name; tenant names are short enough not to be truncated.
- `Mint` and `projects.Delete` are atomic in `Lifecycle`, the transaction being Postgres's business; `Delete` alone is also modelled statement by statement.
- `DropForProject` is interleaved with the rest in `ProjectDrop`, one drop at a time; nothing in the repository calls it.
- PostgREST's authenticator role (granting, revoking, rebuilding the schema list) is not modelled.
- What an apply's statements leave behind stays; a schema dropped with its project is not followed in `MigrationLog`. Opening the tenant pool and River's setup count with the statement they precede.
- One clock: client and server agree on the time in `Refresh`, and `started_at` strictly grows in `MigrationLog`.
- In `Transactions` a written row stays locked until its transaction ends, a transaction reads the committed table under its own writes, and notifications go out in commit order. Notifications that arrive while the hub is reconnecting are lost; that is not modelled.
- Row ids do not change and pwrap_documents is not truncated; the row trigger would not see it.
- `BranchSync`: no foreign keys, no triggers with effects, tables of the same name have the same columns; identity counters and the matview behind a registry row are not modelled. `budget` counts the names a loop gets through before it is cut off.
- Argon2id and AES-GCM are function parameters, of which only determinism, key length and open-after-seal are assumed; randomness is a parameter.
- Sscanf's blanks are the ASCII ones; Unicode lower-casing is a function of which only the values on [a-z0-9_] matter.
- Time and tokens in `RateLimit` are reals; the rounding of the library's floats and durations is not modelled.

Not modelled:

- Python and TypeScript pool swapping, and TypeScript `close` during a refresh in flight.
- Reconnect backoff, URL building and frame parsing of the subscriptions; the hub's Start, Stop and reconnect.
- `projects.Create`, project listing, the HTTP handlers, CLI, config, telemetry, Neon client, JWT signing, River, matviews and the monthly partitions of pwrap_partition_ensure.
- checkSchemaVersion, ParseScopes, validateIdent on its own and other single-branch checks.

Stated more weakly than they might be:

- Refresh.Loop.Turn: an attempt is its duration and outcome, not its HTTP exchange.
- MigrationLog.Runner.Apply: one call runs without another between its statements; interleavings are in the step relation, which `EveryRun` covers.
