# A model of Sydent's replicated identity store

Sydent is a Matrix identity server. Users prove that they hold an email address or a phone number and
bind it to a Matrix user id. Every server keeps a log of its own bindings, copies the log to a global
table, and pushes it to its peers so that each of them can answer lookups for the whole mesh.

The project models that core as Dafny and proves what holds in every run:

- **The log, its copies and the mesh** (`Common`, `Associations`, `BatchReplay`, `Cluster`,
  `ClusterInvariant`, `ClusterSteps`, `ClusterTheorems`, `BindingRuns`, `ClusterWitnesses`, `Stores`,
  `StoreRefinement`). `Cluster` is a step system over any number of servers:
  bind, unbind, local copy (which may be cut short after any row), start of a push, delivery with any set of
  failing items, acknowledgement, and loss. `ClusterInvariant` has the invariant that each step keeps,
  `ClusterTheorems` what follows for replication, lookups, the local copy and convergence, `BindingRuns` what a user
  gets from it, `ClusterWitnesses` the runs in which the code does less than it says. `Stores` has the same
  operations as objects whose tables are changed in place, and `StoreRefinement` shows that they do what the
  steps say.
- **Fast lookups and the hash index** (`Lookups`, `HashIndex`), compared with the newest-row lookup.
- **Validation sessions** (`ValidationSessions`, `SessionRuns`): two linked tables, expiry and clean-up, and
  what must have happened before a bind.
- **The case-fold migration of the local table** (`CasefoldMigration`) under arbitrary email failures.
- **Small stateful parts**: the TTL cache (`TtlCache`), the `.well-known` cache (`Text`, `WellKnown`,
  `WellKnownRuns`), the rate limiter (`Ratelimiter`), the SRV choice (`SrvResolver`) and the 6to4 networks
  (`SixToFour`).

## How the code is represented

- The log is a sequence of rows in id order with one row per identifier; ids come from AUTOINCREMENT, so every
  change has a fresh one. The global table is a set of rows whose unique index is (originServer, originId).
- Where SQL leaves the order of equal rows open, a query is a relation that admits every order, and theorems hold
  for each of them (`Answers`, `IsJoin`, `IsHashJoin`, `IsFetched`).
- SHA-256 with base64 and `str.casefold` are arbitrary functions in `Library`. Where needed, folding is assumed
  idempotent and to leave no upper-case ASCII letter (`ValidLibrary`). Phone numbers have no letters (`MayWrite`).
- Clocks, random ids and tokens, the SMTP outcome of each attempt, `int()` and date parsing, the SRV draw and the
  set of batch items that raise are parameters. The two clock readings within one lookup query are taken as one.
  Cache times are `real`, and cache keys are totally ordered, as Python's sorted list needs them to be.
- Each identifier is bound and unbound at one server (`World.owner`). `ForeignDeletion` shows why: a deletion
  removes rows of every origin (sydent/db/threepid_associations.py:385).
- One push per peer is in flight, because LoopingCall waits for the returned DeferredList
  (sydent/replication/pusher.py:40 and :72); `is_being_pushed_to` does not give this, as peers are rebuilt on every
  call (sydent/db/peers.py:91). A push that fails has had whatever effect it has before the next one starts.
- `history` and `copied` in `Node`, `record` and `meta` in `SessionRuns.State` and the ghost fields of the classes
  record the past for the theorems; no decision of the modelled code depends on them.

## Where the code does less than its comments say

- The servlet says that it adds "all of them or none" (sydent/http/servlets/replication.py:112-115). Deleting commits
  (sydent/db/threepid_associations.py:395), so a tombstone before a failing item keeps a prefix. `AllOrNothingIff`
  and, for every push of every run, `DeliveryAllOrNothingIff` say exactly when the table is the old or the complete one;
  `PartialDeliveryIsReachable` is a run in which it is neither, and `FailedPushThenResend` shows that sending the
  batch again repairs it.
- The hashed lookup says that the newest mxid wins (sydent/db/threepid_associations.py:440-442), but the query
  orders by mxid before ts. `HashedIsNewestIff` and `HashedAgreesWithLogIff` give the exact condition;
  `StaleTableIsReachable` is a two-bind run after which it answers with the old user.
- Two bindings of one identifier in the same millisecond leave the plain lookup ambiguous:
  `LookupCertainIff` gives the exact condition, `EqualTimestampsAreAmbiguous` the run.
- The migration never renames a group whose most recent row is a tombstone, as `mxid = NULL` matches nothing
  (scripts/casefold_db.py:252). `DoneGroupOutcome` states both cases.
- `TTLCache.__contains__` does not expire first, so it may report an entry that `get` refuses:
  `ContainsAgreesWithGetIff` gives the exact condition, `ContainsOutlivesGet` a run.

## Model

| member | source | states |
|---|---|---|
| `ClusterInvariant.StepInv` | sydent/replication/pusher.py:44-125 | Every bind, unbind, local copy, push start, delivery with any failures, acknowledgement or loss keeps the mesh invariant: logs are compacted histories, tables only hold rows of histories, everything up to each cursor is reflected, a batch in flight covers the log up to its last id |
| `ClusterInvariant.RunInv` | sydent/replication/pusher.py:39-125 | The invariant holds after every sequence of steps of any number of servers |
| `ClusterInvariant.DeliverInv` | sydent/http/servlets/replication.py:99-172 | A delivery in which any set of items fails keeps the invariant for all pairs of servers, not only the two involved |
| `ClusterInvariant.CopyRowsOk` | sydent/replication/peer.py:69-123 | A local copy, complete or cut short after any row, reflects everything up to the last row it handled, although the id it starts after can go backwards |
| `ClusterInvariant.ReplayKeepsReflected` | sydent/http/servlets/replication.py:103-158 | Replaying a batch of one server keeps every reflected row of every other server, and the rows of its own log that the batch does not replace |
| `ClusterInvariant.ReplayReflects` | sydent/http/servlets/replication.py:103-158 | Replaying a whole window reflects every current log row up to the window's last id, including rows that were replaced after the window was read |
| `ClusterTheorems.PeerShowsAcknowledgedRows` | sydent/replication/pusher.py:74-125 | In every run, each log row with id up to a peer's lastSentVersion is shown there: a binding is stored under (origin, id) with the highest originId of its identifier, a tombstone means no row for it |
| `ClusterTheorems.StoredRowsAreGenuine` | sydent/db/threepid_associations.py:308-349 | In every run, a stored row is filed under the owner of its identifier, repeats what that server logged under that id, and has the lookup hash of the storing server's pepper |
| `ClusterWitnesses.ForeignDeletion` | sydent/db/threepid_associations.py:373-395 | A tombstone from a second server removes a binding that the first one was told is stored |
| `ClusterTheorems.FailedPushThenResend` | sydent/http/servlets/replication.py:99-172 | In every run, for every batch in flight and every set of failures, replaying the whole batch after the kept part gives the table of one complete replay |
| `ClusterTheorems.DeliveryAllOrNothingIff` | sydent/http/servlets/replication.py:112-172 | In every run, for every push in flight and every set of failures, the peer's table is afterwards the old or the complete one if and only if the old one already says what the kept, or what the lost, items say |
| `ClusterWitnesses.PartialDeliveryIsReachable` | sydent/db/threepid_associations.py:373-395 | A run of a bind, a push, an unbind, a bind and a failing push after which the peer has neither the old nor the complete table |
| `ClusterTheorems.LookupAgreesWithLog` | sydent/db/threepid_associations.py:227-251 | In every reachable state, a lookup in any letter case, at the origin after its local push or at a peer whose cursor passed the row, has exactly one possible answer, the log's current mxid (none for a tombstone or after 100 years), whatever old rows remain |
| `ClusterTheorems.HistoryInOrder` | sydent/threepid/bind.py:60-90 | In every run in which the origin's clock advances between writes, ids and timestamps of its history increase together |
| `ClusterTheorems.LookupInEveryRun` | sydent/db/threepid_associations.py:227-251 | In every run with increasing write timestamps, every lookup made after the last write, for any case variant of the address, gives the log's current mxid wherever the row is delivered |
| `BindingRuns.BoundThenFound` | sydent/threepid/bind.py:42-90 | In every run, once a binding is copied locally or acknowledged by a peer, and until the identifier is written again, every lookup there within the next 100 years, in any letter case, finds exactly that user |
| `BindingRuns.UnboundThenGone` | sydent/threepid/bind.py:117-130 | In every run, once an unbinding by the bound user is copied locally or acknowledged by a peer, and until the identifier is written again, no lookup there finds anyone |
| `BindingRuns.UnbindNeedsItsUser` | sydent/db/threepid_associations.py:138-185 | In every run, an unbind by a user other than the log row's changes nothing on any server; by that user it replaces the row by a tombstone with a fresh id and touches nothing else |
| `ClusterTheorems.LookupCertainIff` | sydent/db/threepid_associations.py:227-251 | With timestamps that may repeat, the lookup is certain to give the log's mxid if and only if no stored row of that identifier and millisecond names another user |
| `ClusterWitnesses.RebindReaches` | sydent/threepid/bind.py:42-90 | Two binds of one identifier, to any users at any times, each with its local push, leave both rows in the global table and the second in the log |
| `ClusterWitnesses.EqualTimestampsAreAmbiguous` | sydent/db/threepid_associations.py:227-251 | After two binds in one millisecond both users are possible answers, for as long as the bindings are valid |
| `ClusterTheorems.HashedAgreesWithLogIff` | sydent/db/threepid_associations.py:397-458 | In every run without a hash collision, a client that sends the hash of address, medium and pepper gets the log's mxid if and only if no valid stored row of the identifier names a user that is greater in text order |
| `ClusterWitnesses.StaleTableIsReachable` | sydent/db/threepid_associations.py:431-446 | After binding to "@z" and then to "@a", each with its local push, the hashed lookup gives "@z" and the plain lookup only "@a" |
| `ClusterTheorems.ReplayIsNoOp` | sydent/replication/peer.py:88-120 | Replaying own rows that were already copied leaves the table unchanged |
| `ClusterTheorems.LocalReplayHarmless` | sydent/replication/peer.py:69-123 | In every run, a local push, cut short after any number of rows, does what the never copied rows among them do; a complete one replays exactly the log after the highest id ever copied, however far its cursor went back |
| `ClusterTheorems.LocalPushComplete` | sydent/replication/pusher.py:44-58 | In every run, including ones with crashes between log write and copy, a completed local push leaves the server showing its whole log |
| `ClusterTheorems.RoundShrinks` | sydent/replication/pusher.py:93-113 | A successful push takes exactly min(100, backlog) rows off a peer's backlog and leaves the log alone |
| `ClusterTheorems.BacklogAfter` | sydent/replication/pusher.py:93-113 | After k successful pushes the backlog is exactly max(0, n - 100k) |
| `ClusterTheorems.PushesConverge` | sydent/replication/pusher.py:93-113 | From every reachable state without new writes, once the push in flight is over, exactly ceil(n/100) successful pushes bring the peer up to date, n being the log rows above its cursor: fewer leave rows unsent, that many leave the whole log shown |
| `Associations.ReplaceKeepsOrder` | sydent/db/threepid_associations.py:33-58 | INSERT OR REPLACE with a fresh id keeps id order and one row per identifier, and changes no other identifier's row |
| `Associations.WindowComplete` | sydent/db/threepid_associations.py:60-110 | A windowed read returns exactly the first min(limit, n) rows above the cursor, in order, and leaves no row between the cursor and its last id; it is empty only at the end of the log |
| `Associations.BacklogShrinks` | sydent/db/threepid_associations.py:60-110 | What lies after a window's last id is the old backlog without the window |
| `Associations.ValidForIff` | sydent/db/threepid_associations.py:238-245 | A lookup sees exactly the rows with its medium, its address up to the case of ASCII letters, and a validity that covers the time, bounds excluded |
| `Associations.LookupIgnoresCase` | sydent/db/threepid_associations.py:238-245 | Case variants of an address have the same answers |
| `Common.LowerEqualIff` | sydent/db/threepid_associations.py:241 | lower() of two texts is equal exactly when they differ at most in the case of ASCII letters |
| `BatchReplay.ReplayClosedForm` | sydent/http/servlets/replication.py:103-158 | For a batch with one item per identifier the replay loop has an order-free meaning: a row is in the table afterwards exactly when the batch carries it, or it was there and the batch does not delete its identifier |
| `BatchReplay.ResendConverges` | sydent/http/servlets/replication.py:103-172 | Replaying a batch onto a table into which any prefix of it was already replayed gives the table of one complete replay |
| `BatchReplay.ReplayUnchangedIff` | sydent/http/servlets/replication.py:103-158 | Replaying a batch leaves the table as it is if and only if the table already holds every row the batch carries and none of an identifier it deletes |
| `BatchReplay.KeptPartIff` | sydent/http/servlets/replication.py:103-172 | For every prefix that is kept: the table is the old one if and only if that already said what the prefix says, and the complete one if and only if the old table already said what the rest says |
| `BatchReplay.AllOrNothingIff` | sydent/http/servlets/replication.py:112-172 | The table left by a request with any failures is the old one or the complete one if and only if the old table already says what the kept items say or what the lost items say |
| `BatchReplay.AllOrNothingWithoutTombstones` | sydent/http/servlets/replication.py:112-172 | Without tombstones, the table is the complete one when no item fails and the old one otherwise, whatever it holds |
| `BatchReplay.TombstoneBreaksAllOrNothing` | sydent/db/threepid_associations.py:373-395 | A deletion and a binding, one row per identifier, in a failing batch: the table is afterwards neither the old nor the complete one |
| `BatchReplay.SortByIdSorts` | sydent/http/servlets/replication.py:99-101 | Items are handled in origin id order, whatever order they arrive in, each exactly once |
| `BatchReplay.SortedAlready` | sydent/http/servlets/replication.py:99-101 | A window, read in id order, is replayed in the order it was read |
| `Stores.LocalAssociationStore.AddOrUpdateAssociation` | sydent/db/threepid_associations.py:33-58 | The identifier's old row is replaced by one with a fresh id; order and uniqueness are kept |
| `Stores.LocalAssociationStore.RemoveAssociation` | sydent/db/threepid_associations.py:138-185 | If the row of the identifier has that user, it is replaced by a tombstone with a fresh id and all other rows stay; with another user, a tombstone or no row, nothing changes |
| `Stores.LocalAssociationStore.GetAssociationsAfterId` | sydent/db/threepid_associations.py:60-110 | Returns, in id order, exactly the rows above the given id (all when there is none) up to the returned highest id, and as many as there are or as the limit allows |
| `Stores.FetchReads` | sydent/db/threepid_associations.py:73-86 | The same of the query itself |
| `Stores.GlobalAssociationStore.AddAssociation` | sydent/db/threepid_associations.py:308-349 | A row is added unless its (origin, id) is taken or a column, the mxid included, is missing; committed only when asked |
| `Stores.GlobalAssociationStore.RemoveAssociation` | sydent/db/threepid_associations.py:373-395 | All rows of the identifier go, whatever their origin, and the open transaction is committed |
| `Stores.GlobalAssociationStore.LastIdFromServer` | sydent/db/threepid_associations.py:351-371 | The largest origin id stored for a server, none if there is none |
| `Stores.FailedIdsReport` | sydent/http/servlets/replication.py:105-170 | Every wrong signature is reported, besides them at most the first failing item, and the report is empty exactly when no item fails |
| `Stores.RenderPost` | sydent/http/servlets/replication.py:92-172 | After handling a push, what is committed is exactly the prior table with the items replayed up to the last tombstone before the first failure, or all of them when none fails; the failed ids are reported |
| `Stores.PushUpdates` | sydent/replication/peer.py:78-123 | The local peer's loop leaves, committed, the replay of the rows above the last own id |
| `Stores.DoLocalPush` | sydent/replication/pusher.py:44-58 | The global table becomes the replay of the log after the largest own origin id |
| `Stores.PushToPeer` | sydent/replication/pusher.py:74-125 | The peer's table gets its part of the next window, and the cursor moves to the window's last id exactly when nothing failed and the answer arrived |
| `StoreRefinement.PushToPeerIsAPush` | sydent/replication/pusher.py:74-125 | What `PushToPeer` promises for table and cursor is what the mesh's steps of one push do, and these change nothing else |
| `Stores.AddBinding` | sydent/threepid/bind.py:42-90 | The log gets a row for the identifier, folded if it is an email and as given otherwise, with that user, valid from now for 100 years, under a fresh id, in place of the old one; the local push follows |
| `StoreRefinement.AddBindingIsItsSteps` | sydent/threepid/bind.py:42-90 | What `AddBinding` promises for log and table is what the bind and local copy steps of the mesh do |
| `Stores.RemoveBinding` | sydent/threepid/bind.py:117-130 | The folded identifier's row becomes a tombstone if and only if it is bound to that user; the local push follows either way |
| `StoreRefinement.RemoveBindingIsItsSteps` | sydent/threepid/bind.py:117-130 | What `RemoveBinding` promises for log and table is what the unbind and local copy steps of the mesh do |
| `Lookups.FillTemporaryTable` | sydent/db/threepid_associations.py:274-280 | The 500-row insert loop puts every request into the temporary table once, in order |
| `Lookups.GetMxids` | sydent/db/threepid_associations.py:253-306 | For any request list, one triple per stored identifier that has a valid row and of which some case variant is asked for, with the mxid of a newest valid row, and no other |
| `Lookups.BulkIsPointwiseSingle` | sydent/db/threepid_associations.py:253-306 | With lower-cased stored addresses and distinct timestamps, the bulk lookup gives for each request exactly what the single lookup gives |
| `Lookups.RetrieveMxidsForHashes` | sydent/db/threepid_associations.py:397-458 | Each requested hash with a valid row, and no other, is mapped to the greatest mxid of its valid rows |
| `Lookups.HashedIsNewestIff` | sydent/db/threepid_associations.py:428-446 | The hashed lookup gives the newest row's mxid if and only if no valid row of the identifier has a greater mxid |
| `Lookups.HashedAgreesForOneUser` | sydent/db/threepid_associations.py:397-458 | When all valid rows of an identifier name one user, the hashed and the plain lookup agree, including on no answer |
| `Lookups.HashedCanBeStale` | sydent/db/threepid_associations.py:428-446 | After rebinding from "@z" to "@a" the plain lookup gives only "@a" and the hashed lookup "@z" |
| `HashIndex.RehashThreepids` | sydent/db/hashing_metadata.py:92-152 | The LIMIT/OFFSET loop ends having read each row exactly once; every row with a nonempty medium and address has the hash of address, medium and new pepper, and every other is as it was |
| `HashIndex.HashingMetadataStore.GetLookupPepper` | sydent/db/hashing_metadata.py:26-57 | The cached pepper if there is one, else the stored one, which is then cached |
| `HashIndex.HashingMetadataStore.StoreLookupPepper` | sydent/db/hashing_metadata.py:59-90 | Pepper, both tables and the own cache change together |
| `HashIndex.StartIndexes` | sydent/sydent.py:103-115 | Starting on a database without a pepper makes every hash right, whatever was there before |
| `HashIndex.StepKeepsIndexed` | sydent/replication/peer.py:95-116 | Binds, copies, replicated additions, deletions, reads and restarts keep hashes and caches in agreement with the stored pepper |
| `HashIndex.IndexedThroughout` | sydent/http/servlets/replication.py:124-140 | In every state of every run after a start, on a database with no pepper, an empty one, or one left by a server: global rows have the hash of the stored pepper, log rows that hash or none, and all caches agree with the database |
| `HashIndex.PepperIsKept` | sydent/sydent.py:103-115 | In every run, restarts included, a stored pepper never changes |
| `HashIndex.NewRowsAreFindable` | sydent/threepid/bind.py:66-84 | The row of a new binding, and of a stored association, has the hash of its address, medium and the stored pepper |
| `HashIndex.StepRows` | sydent/replication/peer.py:95-116 | Which identifiers each step adds to, keeps in and removes from the two tables |
| `HashIndex.Process.Begin` | sydent/sydent.py:103-115 | The start-up code over the store objects does what the start step says |
| `HashIndex.Process.LookupPepper` | sydent/db/hashing_metadata.py:26-57 | A component's store object sees its cached pepper or the stored one, and only that component's cache changes |
| `HashIndex.Process.Perform` | sydent/replication/peer.py:95-116 | Every step, done with the database and the components' store objects, is the step of the run model |
| `HashIndex.Operate` | sydent/sydent.py:103-115 | A process started and put through any steps ends with hashes and caches in agreement with the stored pepper |
| `HashIndex.RotationNeedsRestart` | sydent/db/hashing_metadata.py:26-90 | Changing the pepper under a component with a cached one keeps the index right if and only if both peppers hash the next stored identifier alike |
| `ValidationSessions.FindUnique` | sydent/db/valsession.py:34-88 | In one-to-one tables the join for an identifier and secret finds that session and its one token |
| `ValidationSessions.NewSessionOneToOne` | sydent/db/valsession.py:68-124 | Creating a session when none is found keeps the one-to-one correspondence and every other session's token |
| `ValidationSessions.DeleteOldOneToOne` | sydent/db/valsession.py:256-277 | Clean-up keeps the one-to-one correspondence |
| `ValidationSessions.ThreePidValSessionStore.GetOrCreateTokenSession` | sydent/db/valsession.py:34-124 | The existing session and token, or a new unvalidated pair; a taken random id writes nothing |
| `ValidationSessions.SubmitOutcomeMeans` | sydent/validators/common.py:41-68 | Each outcome of a submission holds exactly when the session and its token row, the secret, the 24 hours and the token, checked in that order, call for it |
| `ValidationSessions.UseOutcomeMeans` | sydent/db/valsession.py:222-254 | Likewise for a use of the session |
| `ValidationSessions.ThreePidValSessionStore.ValidateSessionWithToken` | sydent/validators/common.py:41-68 | Succeeds if and only if the session exists, its first token row has that token, the secret is equal and it is within 24 hours of the mtime; then exactly the validated flag of that session is set |
| `ValidationSessions.ThreePidValSessionStore.GetValidatedSession` | sydent/db/valsession.py:222-254 | Succeeds if and only if the session exists, the secret is equal, it is validated and within 24 hours of its mtime |
| `ValidationSessions.ThreePidValSessionStore.DeleteOldSessions` | sydent/db/valsession.py:256-277 | On any tables, removes exactly the sessions untouched for five lifetimes and every token row without a session; linked tables stay linked |
| `SessionRuns.RunInv` | sydent/validators/common.py:41-68 | Every run of requests, submissions, binds and clean-ups keeps the tables linked and each validated flag backed by a recorded submission |
| `SessionRuns.EveryBindWasProved` | sydent/http/servlets/threepidbindservlet.py:71-97 | In every run, each public bind was preceded, within the life of that session row, by a submission of the token issued for its identifier with the same sid and secret, within 24 hours of the then latest request; the bind is within 24 hours of the latest request |
| `SessionRuns.RightWaySucceeds` | sydent/http/servlets/threepidbindservlet.py:71-97 | After every run, a token request followed within 24 hours, with anything in between, by the submission of its token and a bind with its sid and secret: both succeed, and the bind is for that identifier |
| `SessionRuns.TablesStayLinked` | sydent/db/valsession.py:34-124 | In every run, sessions and token rows correspond one to one, with one session per identifier and secret |
| `SessionRuns.SessionKept` | sydent/validators/emailvalidator.py:54-58 | A session keeps its identifier, secret and token through every run in which no clean-up finds it stale |
| `SessionRuns.RequestsRepeat` | sydent/db/valsession.py:34-88 | In every run, repeated requests find the same sid and token until a clean-up removes the session |
| `SessionRuns.CleanupRemovesOnlyDead` | sydent/db/valsession.py:256-277 | From any state, a session that a clean-up removes is refused by submission and by use after every further run that records no token request for it, and no step of the run validates it or binds with it |
| `CasefoldMigration.SendEmailWithBackoff` | scripts/casefold_db.py:82-126 | Succeeds exactly when one of five attempts does; a failure has slept 1 + 2 + 4 + 8 + 16 seconds |
| `CasefoldMigration.BuildAssociations` | scripts/casefold_db.py:150-171 | The dictionary has exactly the nonempty groups of addresses that fold together, newest first |
| `CasefoldMigration.GroupIsComplete` | scripts/casefold_db.py:150-171 | A group is exactly the table's rows that fold to its address, once each |
| `CasefoldMigration.SurvivorIsNewest` | scripts/casefold_db.py:150-189 | The row a group keeps is a most recent one |
| `CasefoldMigration.DoneGroupOutcome` | scripts/casefold_db.py:173-270 | A group for which mails are off, or each duplicate of another user has a mail delivered within five attempts, ends as one row, a most recent one: under the folded address with the matching hash if it is a binding, unrenamed if it is a tombstone |
| `CasefoldMigration.BlockedGroupKeepsSurvivor` | scripts/casefold_db.py:215-270 | Any other group keeps its survivor and all rows from the first one whose five mails fail unchanged; the duplicates before it are gone |
| `CasefoldMigration.ApplyGroupLocal` | scripts/casefold_db.py:205-270 | What happens to a group depends on, and changes, addresses that fold to its address only |
| `CasefoldMigration.LocalTable.Email` | scripts/casefold_db.py:217-227 | A mail goes out exactly when one of the attempts succeeds, and is then in the history |
| `CasefoldMigration.LocalTable.Update` | scripts/casefold_db.py:240-260 | The row is renamed and rehashed unless that violates the unique index; the history says so |
| `CasefoldMigration.ApplyDelta` | scripts/casefold_db.py:205-270 | One group's loop gives the group's outcome, never violates the unique index, and adds to the table's history only mails that went out, deletions of duplicates with the mail to another user before them, and the folding of the survivor |
| `CasefoldMigration.NobodyVanishesUnwarned` | scripts/casefold_db.py:215-238 | Whatever a justified history removed although its user is not the survivor's was deleted after that user was emailed |
| `CasefoldMigration.UpdateLocalAssociations` | scripts/casefold_db.py:129-270 | For every table and every email outcome, each group ends as the two rows above say, in terms of its rows and of the mail server's answers alone, the unique index holds throughout, the table is what its history makes of the initial one, every event of it is justified, every user who loses a row was emailed before its deletion, and a dry run changes nothing |
| `CasefoldMigration.FoldedNeedsNothing` | scripts/casefold_db.py:173-201 | Over folded addresses a migration changes nothing, whatever the mail server does |
| `CasefoldMigration.SecondRunChangesNothing` | scripts/casefold_db.py:129-270 | After full success all addresses are folded and a second migration changes nothing |
| `TtlCache.AddedOk` | sydent/util/ttlcache.py:53-58 | Adding an entry keeps the list sorted by expiry and key with one entry per key |
| `TtlCache.ValuesNeverCompared` | sydent/util/ttlcache.py:146-153 | In every state of the cache, both adding an entry and removing one give the same list whatever order the values have |
| `TtlCache.RemovedOk` | sydent/util/ttlcache.py:51-53 | The bisecting removal finds the entry it is asked for, never fails, takes out that one only and keeps the order |
| `TtlCache.TTLCache.Expire` | sydent/util/ttlcache.py:133-143 | Afterwards the dictionary is exactly the unexpired last writes, and the list holds the same entries |
| `TtlCache.TTLCache.Set` | sydent/util/ttlcache.py:40-58 | The key's last write becomes the new one with expiry from the first clock reading; expired entries go; dictionary and list stay in step |
| `TtlCache.TTLCache.Get` | sydent/util/ttlcache.py:60-77 | Succeeds exactly when the key's last write has not expired, and gives its value |
| `TtlCache.TTLCache.GetWithExpiry` | sydent/util/ttlcache.py:79-95 | As `Get`, with the expiry time |
| `TtlCache.TTLCache.Pop` | sydent/util/ttlcache.py:97-118 | Gives and removes a live entry; otherwise changes no live entry |
| `TtlCache.TTLCache.Len` | sydent/util/ttlcache.py:129-131 | The number of unexpired last writes |
| `TtlCache.TTLCache.Contains` | sydent/util/ttlcache.py:126-127 | True exactly of the keys whose last write was not due at the last expiring operation, or was made by it |
| `TtlCache.ContainsAgreesWithGetIff` | sydent/util/ttlcache.py:126-127 | After any run, `in` and `get` agree about a key if and only if its last write did not fall due since the last expiring operation and was not set already due by it |
| `TtlCache.ContainsOutlivesGet` | sydent/util/ttlcache.py:126-127 | A run in which `in` reports an entry that `get` then refuses |
| `TtlCache.Simulate` | sydent/util/ttlcache.py:29-143 | Over every sequence of set (with two clock readings), get, get_with_expiry, pop, len and in, with a clock that never goes back, the cache answers each operation as a plain map from key to value and expiry |
| `TtlCache.LastSetDecides` | sydent/util/ttlcache.py:40-95 | After any run, a key's last set, if it was not popped since, decides what `get` gives: its value until its lifetime is over, then nothing |
| `TtlCache.NeverSetNeverFound` | sydent/util/ttlcache.py:60-77 | A key that was never set is never found |
| `TtlCache.PoppedIsGone` | sydent/util/ttlcache.py:97-118 | A key that was popped and not set since is not found again |
| `WellKnown.ParseCacheControl` | sydent/http/matrixfederationagent.py:437-445 | The dictionary has every directive name of every header value, with the value of its last occurrence |
| `WellKnown.NameAndValue` | sydent/http/matrixfederationagent.py:441-445 | A directive with blanks around name and value gives the name in lower case and the value as written |
| `WellKnown.NameAlone` | sydent/http/matrixfederationagent.py:441-445 | A directive without an equals sign gives the name in lower case and no value |
| `WellKnown.HeaderExample` | sydent/http/matrixfederationagent.py:437-445 | What "No-Store, Max-Age = 3600" parses to |
| `WellKnown.MaxAgeDecides` | sydent/http/matrixfederationagent.py:416-421 | Without no-store, the last max-age, if readable, is the period, up to 48 hours |
| `WellKnown.ExpiresDecides` | sydent/http/matrixfederationagent.py:423-427 | Without no-store and max-age, a readable Expires gives the time until it, up to 48 hours |
| `WellKnown.DefaultPeriods` | sydent/http/matrixfederationagent.py:363-386 | Without all three a day, and for a failed fetch an hour, plus jitter |
| `WellKnown.PeriodBounds` | sydent/http/matrixfederationagent.py:408-434 | For every response, header set and jitter: at most 48 hours, nothing for no-store, nothing for an Expires that cannot be read unless a readable max-age takes precedence |
| `WellKnown.DoGetWellKnown` | sydent/http/matrixfederationagent.py:333-386 | The result and its period; at most 48 hours for every response, the failure default with jitter for a failed one, and not positive for no-store or an invalid Expires |
| `WellKnown.WellKnownResolver.LookUp` | sydent/http/matrixfederationagent.py:313-323 | A cached answer is the last one stored, less than 48 hours ago |
| `WellKnown.WellKnownResolver.Store` | sydent/http/matrixfederationagent.py:323-331 | A result is stored, and dated, exactly when its period is positive, which is then at most 48 hours; no-store and invalid Expires are never stored; the clock does not pass the present |
| `WellKnownRuns.Serve` | sydent/http/matrixfederationagent.py:313-331 | Over every run of lookups and stores, a lookup hits exactly when the last cached answer of its server has not run out, gives that answer, and does so less than 48 hours after it was stored |
| `WellKnownRuns.NamesAreOrdered` | sydent/http/matrixfederationagent.py:58 | Server names, compared as byte strings, are ordered as the cache's list needs its keys to be |
| `Ratelimiter.Ratelimiter.PeriodicCall` | sydent/util/ratelimiter.py:59-64 | A tick takes one off every bucket |
| `Ratelimiter.Ratelimiter.Ratelimit` | sydent/util/ratelimiter.py:66-81 | A request is refused exactly when the key's counter over the whole past is at the burst limit |
| `Ratelimiter.CounterIsLargestSurplus` | sydent/util/ratelimiter.py:59-81 | A key's counter is the maximum, over all stretches that end now, of accepted requests minus ticks, and at least 0 |
| `Ratelimiter.StretchBounded` | sydent/util/ratelimiter.py:59-81 | Any stretch with n ticks accepts at most burst + n requests of a key |
| `Ratelimiter.AcceptedIff` | sydent/util/ratelimiter.py:66-81 | A request is accepted if and only if in every stretch that ends just before it the accepted requests of its key exceed the ticks by less than the burst |
| `Ratelimiter.BurstIsAccepted` | sydent/util/ratelimiter.py:66-81 | The first burst requests of a key are all accepted |
| `Ratelimiter.KeysAreIndependent` | sydent/util/ratelimiter.py:59-81 | A key's counter and its next decision are the same when all other keys' requests are left out |
| `Ratelimiter.BucketsPositive` | sydent/util/ratelimiter.py:59-81 | Every bucket kept is between 1 and the burst limit |
| `SrvResolver.PickServer` | sydent/http/srvresolver.py:46-73 | For every draw from 0 to the total weight the loop returns before its "impossible" error, with a listed server of the least priority value, the first of these whose running weight sum reaches the draw; only an empty list is refused |
| `SrvResolver.CandidatesInOrder` | sydent/http/srvresolver.py:59-60 | The eligible servers are exactly those of the least priority value, each as often as it is listed, in list order |
| `SrvResolver.MinPriority` | sydent/http/srvresolver.py:59-60 | The least priority value of the list |
| `SrvResolver.DrawsMatchWeights` | sydent/http/srvresolver.py:59-68 | Of the total + 1 draws the first eligible server gets its weight + 1 and every other server exactly its weight |
| `SixToFour.NumeralReadsBack` | sydent/util/ip_range.py:97-113 | Digits of a number, in base 10 and 16, read back as the number |
| `SixToFour.TextReadsBack` | sydent/util/ip_range.py:97-113 | The zero-padded text reads back as the network with base 0x2002 * 2^112 + first * 2^80 and length 16 + prefix |
| `SixToFour.MembersAreEmbedded` | sydent/util/ip_range.py:97-113 | An IPv6 address lies in that network exactly when its top 16 bits are 0x2002 and its next 32 bits lie in the IPv4 network |
| `SixToFour.TextDenotesEmbedding` | sydent/util/ip_range.py:97-113 | The built text denotes, for every IPv4 network, exactly its 6to4 addresses (section 2 of RFC 3056) |
| `SixToFour.PrivateNetwork` | sydent/util/ip_range.py:97-113 | The text for 10.0.0.0/8 |

## Left out

- Deletions of one identifier issued by several servers: the replay rules do not converge there.
- The global-table half of the migration: it deletes by address alone, so with repeated addresses it also deletes the
  row it means to keep.
- Pending invites, the notification of homeservers after a bind and its retries.
- Send-attempt de-duplication of token requests: the update filters on the token row's own id
  (sydent/db/valsession.py:136), so the code promises nothing about it.
- The signed association text stored with a global row and the lookup that returns it, which selects rows as
  `getMxid` does.
- Reading the peers table into peer objects and refusing unknown peers.
- The lookup_hash column of the log inside the mesh; `HashIndex` and `CasefoldMigration` cover it.
- The order of the bulk lookup's results, and rows of other media in the migration, which its query never reads.
- The SRV cache and DNS resolution around the choice of a server.
- `generate_ip_set`, apart from the 6to4 form it adds.
- Server-name routing, HTTP, TLS, JSON, signing and signature checks (a wrong signature is a parameter).
- Schema upgrades, configuration, templates, SMS, terms and metrics: branch-local code.
- Floating-point rounding of cache times.
