# nostrfy: a verified model of the relay's stateful cores

nostrfy is a Nostr relay. This project models the parts of it that decide what
is stored, what is let in and what is kept over time, and proves what they
promise for every input, every run and every interleaving.

| files | part of the relay |
|---|---|
| `Store`, `StoreRuns`, `StoreConvergence`, `StoreEffects`, `StoreLaws`, `StoreModel` | the derived store state: publication, NIP-09, NIP-29, NIP-40 and NIP-62, over seven maps and sets |
| `ReplayOrder`, `Moderation`, `ModerationLaws`, `GroupActions`, `Traces`, `GroupLaws`, `Reconciler` | the migration's moderation fixpoint: the replay, what the group actions do to the database, the lawful traces, and the loops that take them |
| `Requests`, `Replays`, `Aftermath` | what the migration leaves once it has applied the stored NIP-09 and NIP-62 requests: a second run of its replay, and the rebuild at the next startup |
| `SmallStore`, `Witnesses`, `KeptJoins`, `Caps`, `Withdrawals`, `ShortIds` | a small group store, and the histories on which the replays differ, one condition broken at a time |
| `Import`, `Chunks` | the import loop, its bounded line reader and its accounting |
| `TagPlan`, `Bits` | the one-pass bitmap tag matcher (NIP-01, NIP-91) |
| `Access`, `AccessLaws`, `AccessStore` | the access-control journal, the blocked-address cache, the CLI's persisted keys |
| `Conn` | the handover of connection slots between guards, as interleaved atomic steps |
| `Civil`, `Rotation`, `Audit` | calendar dates, log rotation, the audit rate limiter |
| `Deletion`, `Limit` | deletion addresses and their cap; the ids a limited query returns |
| `WebSocket`, `Bytes` | the soak probe's frame codec (sections 5.2 and 5.3 of RFC 6455) |
| `Text`, `Events`, `EventLists` | strings, decimal parsing, events and tag accessors, lists of events |

`dafny verify dfyconfig.toml` checks everything.

Code that updates fields or loops over variables is a class or a method, proved
against a specification function or a property; the theorems are lemmas about
those specifications over whole runs. What the definitions they share mean is
pinned as well, mostly in the `Laws` modules: there kinds are numbers, tags are
lists of strings, and each law is an equivalence that does not mention the
definition it is about.

## Assumptions

- An event id is a hash, so it determines the event. In the store this is the
  parameter `u`: `u(id)` is the one event with that id. In the migration it is
  the uniqueness of ids in the stored history.
- Timestamps, counters and sizes are unbounded naturals, except where the code
  depends on a width: decimal parsing stops at `u64`, the slot counter's
  decrement wraps (`Conn`), a missing version counts as `u64::MAX` (`Store`).
  Lower-casing is ASCII.
- Within a migration the clock is fixed, and "stored" means stored and visible at
  that clock; a second run and a startup have any later clock. The moderation
  events (kinds 9000-9022) come in replay order. The group store is reached only
  through the functions of `Moderation.World`, so the results hold for every
  deterministic group store. The rebuild is its moderation walk on a database a
  migration wrote: no pending-apply marks, no group epochs, no interrupted purge;
  the detection of ghosts that follows it is not modelled.
- The stored NIP-09 and NIP-62 requests are applied after the moderation and are
  read as one page, in any order. Whether a vanish is honoured and whether a
  delegation holds are the functions of `Requests.Policy`. Until then a vanish in
  the history is pending, so the migration's replays do not see it. Gift-wrap
  purges and the removal of fake group metadata touch no moderation event.
- Parsing and showing IP addresses are the functions of `Access.IpText`; the
  theorems that need it require that an address survives being shown and parsed.
  A JSON object is a sequence of attributes with distinct names. Decoding,
  signature, delegation and vanish checks of imported lines are the functions of
  `Import.Checks`. File operations of the log rotation succeed.

## Where the code does less than it might seem to

- Startup rebuild. The migration is written so that the next startup derives the
  groups it authorised against. `Aftermath.RebuildAgrees` proves this for the
  database as the whole migration leaves it, under four conditions. For each there
  is a family of histories where it fails, all others hold and the groups differ;
  the group store of these families starts empty, and their events are in replay
  order.
  (1) The stored NIP-09 and NIP-62 requests spare what the final replay accepted.
  A member who joined and deleted the join is a member for the migration and not
  after it (`Withdrawals.AuthorDeletesJoin`).
  (2) Both skip and strip alike what is left; `Replays.PreparedExactly`: the
  rebuild judges what the migration judged and left if and only if they do. The
  rebuild honours arrival numbers and the migration does not, so a removal and a
  join that arrived after it in the same second are enough
  (`Witnesses.ArrivalsReviveJoin`); and a vanish completed after the moderation
  strips the grants that name its author (`Withdrawals.VanishStripsGrant`).
  (3) No join that an earlier replay admitted is refused by the final one and
  left: it is kept, and the rebuild, which authorises nothing, applies it
  (`KeptJoins.AdmittedJoinReturns`). `Aftermath.RebuildTrustsExactly`: the rebuild
  applies a refused event, kind:9005s aside, if and only if there is such a join.
  (4) The caps on held events do not bind (`Caps.CapsReviveJoin`).
  What the groups then are depends on the group store, which is a parameter, so
  agreement on groups is stated one way.
- Second run. Replaying what is left once more with the migration's own gate
  accepts the same events in the same order if and only if the requests spared
  what was accepted, and then derives the same groups and has nothing left to do
  (`Aftermath.RerunAgrees`), provided that it skips and strips alike, that the
  caps do not bind and that no kept event has come of age. Each is needed: a
  kind:9001 nobody was entitled to send makes the final replay skip a join of its
  second, and is then dropped (`Witnesses.DroppedRemovalRevivesJoin`); an early
  deletion refused for lack of room is authorised when there is room
  (`Caps.CapsDecide`); and one dated ahead of the clock is authorised when the
  clock has caught up (`Withdrawals.ClockAuthorises`).
- Replay order. It is transitive except for three events of one second of which
  exactly two have arrival numbers and the third falls between them the other way
  round (`ReplayOrder.GoRoundExactly`, an equivalence; `ReplayOrder.OrderGoesRound`
  is such a triple).
- Ghost sweep. A kind:9005 marks its group when looking up one of its targets
  finds a create of the group, and the lookup takes shortened ids while the
  deletion does not. `GroupActions.UncreatesExactly`: a group is marked exactly
  for a deleted create unless the create was found by a shortened id only;
  then nothing is deleted and every create of the group is swept out all the same
  (`ShortIds.ShortenedIdSweeps`).
- Journals. Either kind of pubkey operation puts no key on both lists as it
  compares keys itself (`Access.KeysStayDisjoint`), but decisions compare without
  case, and an exact-case journal can put a pubkey on both
  (`Access.ExactJournalListsTwice`; `Access.ExactOpKeepsDisjoint` gives the exact
  condition for each operation). A journal mixing both kinds can decide
  differently when replayed twice (`AccessStore.MixedJournalIsNotIdempotent`); it
  cannot when names equal up to case are equal (`Access.MixedJournalInOneSpelling`,
  which is sufficient, not necessary: other journals may happen to agree).
- `StoreEffects.OtherSpellingReturns`: a request to vanish removes events under
  any spelling of the key, but refuses only the spelling it used. `VanishExact`
  states both sides exactly.
- The byte-order mark is stripped from the first line that is not over-long,
  which need not be the first line (`Import.MarkOnALaterLine`).

## Model

| member | source | states |
|---|---|---|
| `StoreModel.Model.Put` | src/prop_tests.rs:273-323 | publishing follows the step function in the store's own check order, changes nothing but `stored` and `slots`, and keeps the index |
| `StoreModel.Model.PurgeExpired` | src/prop_tests.rs:326-338 | exactly the expired events and their slots go, and the returned count is how many |
| `StoreModel.Model.Delete` | src/prop_tests.rs:343-388 | the loops over `e` and `a` targets follow the request's step function, with the removal count |
| `StoreModel.Model.GroupDelete` | src/prop_tests.rs:391-411 | the loop over a kind:9005's targets follows its step function, with the removal count |
| `StoreModel.Model.PurgeGroup` | src/prop_tests.rs:416-442 | a kind:9008 follows its step function: history removed, mark raised to the clock and the newest purged event |
| `StoreModel.Model.NewestCreated` | src/prop_tests.rs:416-442 | the loop finds the greatest `created_at` of the doomed events, 0 for none |
| `StoreModel.Model.Vanish` | src/prop_tests.rs:447-474 | a request to vanish follows its step function; one the mark already covers is a no-op |
| `StoreModel.Model.RemoveAll` | src/prop_tests.rs:236-243 | removing ids one by one leaves what dropping them at once leaves, in events and slots |
| `StoreRuns.StepKeeps` | src/prop_tests.rs:273-474 | every operation keeps slot/store agreement and keeps barred events out, and the stored count moves by stored minus removed |
| `StoreRuns.ReachableStates` | src/prop_tests.rs:236-474 | in every state any run reaches, slots map exactly the stored replaceable events, no stored event is barred by a tombstone, absent block, address cut, vanish mark, group purge or ephemeral kind, and the count is all `Stored` outcomes minus all reported removals |
| `StoreRuns.RefusalIsAMarker` | src/prop_tests.rs:273-300 | a publication refused as invalid, deleted or ephemeral is refused by a marker, and a marker refuses it whatever the clock says |
| `StoreRuns.StepGrowsMarkers` | src/prop_tests.rs:343-474 | no operation ever lowers or drops a marker |
| `StoreRuns.NoResurrection` | src/prop_tests.rs:247-474 | an event a marker refuses is stored after no later run of any operations |
| `StoreRuns.DeletedStaysDeleted` | src/prop_tests.rs:343-411 | an id that is tombstoned in a reachable state is stored neither then nor after any later run |
| `StoreEffects.DeletionExact` | src/prop_tests.rs:343-388 | a request removes exactly the events it names by id (its author's, no stored deletion request) and the versions it reaches by address, and refuses exactly those from then on, stored or not |
| `StoreEffects.DeletionIsFinal` | src/prop_tests.rs:343-388 | what a request reached is stored after no later run |
| `StoreEffects.GroupDeletionExact` | src/prop_tests.rs:391-411 | a kind:9005 removes and tombstones exactly the named stored events of its group, neither relay metadata nor deletion requests |
| `StoreEffects.PurgeExact` | src/prop_tests.rs:416-442 | a kind:9008 removes exactly its group's events and refuses exactly the history up to its mark, creates only before the purge |
| `StoreEffects.PurgeIsFinal` | src/prop_tests.rs:416-442 | purged events are stored after no later run, except creates dated at or after the purge |
| `StoreEffects.VanishExact` | src/prop_tests.rs:447-474 | a vanish removes exactly the author's events up to the mark in any spelling, and refuses exactly the spelling it used |
| `StoreEffects.OtherSpellingReturns` | src/prop_tests.rs:273-280 | an event under another spelling is removed and can be published again |
| `StoreLaws.SlotsAreVersions` | src/prop_tests.rs:172-184 | two events share a slot if and only if they have one author and one kind, which is replaceable, or addressable with the same first `d` value, an absent one counting as empty |
| `StoreLaws.ForbiddenExactly` | src/prop_tests.rs:247-300 | the markers refuse exactly a vanished author, a deleted id, an author's blocked id, an ephemeral kind, history of a purged group up to its cut (a create before the purge), and a deleted address up to its time |
| `StoreLaws.PutExactly` | src/prop_tests.rs:273-323 | an event enters if and only if it is not forbidden, not expired, not there and beats the version that is; then exactly its versions leave and nothing else changes, otherwise nothing does |
| `StoreLaws.OutcomeExactly` | src/prop_tests.rs:273-323 | the reported outcome is the first reason that applies |
| `StoreLaws.OneVersionStored` | src/prop_tests.rs:293-315 | in every reachable state two stored versions of one event are the same event |
| `StoreLaws.DeletionReach` | src/prop_tests.rs:343-388 | a request removes and forbids exactly its author's events it names by id, stored requests excepted, or by address up to its time |
| `StoreLaws.GroupDeletionReach` | src/prop_tests.rs:391-411 | a kind:9005 removes exactly the named stored events whose first `h` value is its group, neither requests nor kinds 39000-39005 |
| `StoreLaws.PurgeReach` | src/prop_tests.rs:416-442 | a purge removes exactly what is tied to the group by any tag, and leaves exactly the mark of its time, the earlier mark and the newest removed event |
| `StoreLaws.VanishReach` | src/prop_tests.rs:447-474 | a covered vanish changes nothing; any other sets its time, removes exactly the author's events up to it in any spelling, and forbids this spelling |
| `StoreLaws.ExpiryReach` | src/prop_tests.rs:326-338 | the expiry purge removes exactly the events with an `expiration` tag that is due |
| `Events.FirstTagExactly` | src/nips/nip29/mod.rs:294-303 | the value found is that of the first tag of the name that has one |
| `Events.ExpiredExactly` | src/nips/nip40.rs:16-28 | an event has expired if and only if one of its well-formed `expiration` tags is due |
| `StoreConvergence.PutAllIsJoin` | src/prop_tests.rs:172-184 | publishing a sequence ends in the reference outcome: every plain candidate stored, every slot held by a candidate no candidate beats, nothing else |
| `StoreConvergence.PublicationConverges` | src/prop_tests.rs:273-323 | any two sequences publishing the same events at one time, in any order and with any repetition, end in the same stored map and slot map |
| `StoreConvergence.SlotHoldsTheNewest` | src/prop_tests.rs:293-315 | each slot ends with the greatest `created_at`, the lowest id on ties |
| `StoreConvergence.AddressesCut` | src/prop_tests.rs:370-385 | a run over `a` targets as one formula: what goes, what is tombstoned and which versions are blocked |
| `StoreConvergence.AddressDeletionCommutes` | src/prop_tests.rs:293-385 | publishing and then an address deletion leaves the stored map and slots of the deletion and then publishing |
| `Limit.LimitedIds` | src/prop_tests.rs:495-517 | any list gives ids of it, at least `k` unless there are fewer; for matches newest first they are exactly the ids with fewer than `k` strictly newer matches, so ties with the last one counted are kept |
| `Deletion.ParsesExactly` | src/nips/nip09.rs:106-112 | a value parses to an address if and only if it is a `u64`, a colon, a pubkey without colons, a colon and any identifier |
| `Deletion.DeletionAddresses` | src/nips/nip09.rs:44-62 | live intake gets the first 512 distinct addresses in order of first occurrence |
| `Deletion.DeletionAddressesAll` | src/nips/nip09.rs:69-84 | migration gets every distinct address in order of first occurrence |
| `Deletion.DistinctExact` | src/nips/nip09.rs:44-84 | collapsing duplicates keeps exactly the addresses named, each once |
| `Deletion.ExceedsCap` | src/nips/nip09.rs:90-104 | a request is over the cap if and only if it names more than 512 distinct addresses |
| `Deletion.SameTargetsSameStore` | src/prop_tests.rs:370-385 | requests naming the same addresses in any order and repetition leave the same store |
| `Deletion.AcceptedRequestIsWhole` | src/nips/nip09.rs:13-19 | a request under the cap does the same capped, in full and as written, so an accepted request is never truncated |
| `ReplayOrder.BeforeExactly` | src/nips/nip29/mod.rs:4299-4332 | earlier seconds first; within one creates, then group deletions, then two numbered events as they arrived, and otherwise joins and leaves last, smaller kind and smaller id first |
| `ReplayOrder.GoRoundExactly` | src/nips/nip29/mod.rs:4299-4332 | three events go round if and only if they are of one second and class, two are numbered, and the third falls after the later and before the earlier of them by kind and id |
| `ReplayOrder.OrderTransitive` | src/nips/nip29/mod.rs:4299-4332 | of three events in a row the first is before the last if and only if they are not such a triple, so always when all or none are numbered |
| `ReplayOrder.OrderTotal` | src/nips/nip29/mod.rs:4299-4332 | different events are ordered exactly one way |
| `ReplayOrder.OrderGoesRound` | src/nips/nip29/mod.rs:4299-4332 | three edits of one second, two of them with arrival numbers, that go round |
| `ReplayOrder.NeighboursSuffice` | src/migrate.rs:1289-1289 | without such triples, events whose neighbours are in order are in order throughout |
| `ReplayOrder.SortedIsUnique` | src/migrate.rs:1421-1421 | some events have one sorted arrangement |
| `ReplayOrder.ReleasedInOrder` | src/migrate.rs:1405-1445 | at every visit of a sorted history, sorting the events a create releases again is the identity |
| `ModerationLaws.JudgedExactly` | src/migrate.rs:1306-1327 | a replay judges exactly the events that are not passed over: joins of vanished authors or with a removal of their second, grants naming vanished keys only, at startup future-dated ones; a grant loses exactly the tags naming vanished keys |
| `ModerationLaws.EntitledExactly` | src/migrate.rs:695-762 | the gate is exactly: not ten minutes ahead, a group, for a join an existing group that is open or a code, for moderation the relay's key, an admin, or a create where no group exists; the rebuild has no gate |
| `ModerationLaws.AcceptedByRight` | src/migrate.rs:1218-1510 | in every replay the groups are derived from the accepted events in order, each accepted event was entitled against the groups derived from those before it, and each refused one was not at some moment |
| `ModerationLaws.HeldExactly` | src/migrate.rs:1328-1356 | an event whose group neither exists nor is known to have gone is held while there is room for 50,000 events and 64 MiB, and a group deletion among them is passed over |
| `ModerationLaws.VisitExactly` | src/migrate.rs:1357-1402 | any other event is accepted and applied when entitled and refused otherwise, a join to a missing group being left alone |
| `ModerationLaws.ReleasedExactly` | src/migrate.rs:1403-1480 | an accepted create has exactly the held events of its group judged, and no others |
| `Moderation.ReplayFrom` | src/migrate.rs:1218-1510 | a replay judges, refuses, holds back and accepts stored events only |
| `Moderation.JudgedOnce` | src/migrate.rs:1218-1510 | no event has two verdicts: nothing refused or held back was also accepted |
| `Moderation.CountersExact` | src/migrate.rs:1257-1330 | the held count and bytes are always those of what is held, so their saturating subtractions never saturate |
| `GroupLaws.RemovedExactly` | src/migrate.rs:1570-1669 | a kind:9005 removes exactly the events of its group it names by full id, no requests, metadata or notices; a kind:9008 exactly what a tag ties to its group, up to its own time |
| `GroupLaws.ChangesExactly` | src/db/store.rs:264-283 | a kind:9005 changes derived state if and only if it reaches a moderation or role event |
| `GroupLaws.FindsFirst` | src/db/scan.rs:1218-1300 | a lookup finds an event if and only if the target is an even-length prefix of its id in any case and no other match is earlier, or of the same second with a smaller id |
| `GroupLaws.MarksExactly` | src/migrate.rs:1590-1612 | a group is marked if and only if it is a kind:9005's own and one of its targets finds a create of it |
| `GroupLaws.GoneExactly` | src/migrate.rs:858-1016 | in every lawful trace a stored event is gone if and only if an authorised action reached it by these rules, or it was a create tagged with a group that was swept |
| `GroupActions.LookUpIsOldest` | src/db/scan.rs:1218-1300 | a lookup by an id or an even-length prefix of it gives a match no other match is older than |
| `GroupActions.UncreatesExactly` | src/migrate.rs:1590-1612 | a deleted create is always looked up, and a group is marked exactly for a deleted create unless it was found by a shortened id only |
| `GroupActions.InertDeletion` | src/db/store.rs:264-283 | a deletion that removes no state event leaves what is replayed unchanged |
| `Traces.AppliedOnce` | src/migrate.rs:1167-1216 | in every lawful trace an action is performed at most once and was stored |
| `Traces.RemovalsAccounted` | src/migrate.rs:858-1016 | a stored event is gone exactly when an action authorised by a replay of what was then stored reached it, or it would re-create a group such an action marked |
| `Traces.AppliedLeftAreDeletions` | src/migrate.rs:1619-1669 | a performed purge removes itself, so every applied action still stored is a kind:9005 |
| `Traces.AdmittedWereAccepted` | src/migrate.rs:1114-1125 | every admitted join was accepted by a replay of what was stored at some moment of the trace |
| `Traces.DropsExactly` | src/migrate.rs:1126-1165 | the final replay drops exactly what it refused or never judged that is neither a kind:9005, nor an applied action, nor a join any replay of the migration accepted |
| `Traces.AdmittedJoinsStay` | src/migrate.rs:1114-1135 | a join that any replay accepted, also one that stopped, is never dropped |
| `Reconciler.LooksUpCreate` | src/migrate.rs:1590-1612 | the loop over the targets finds a create of the group exactly when some target looks one up |
| `Reconciler.Effects` | src/migrate.rs:1570-1669 | performing an action leaves exactly what it does not reach, by name and group or by tag and time, marks the group by the lookup, and reports a change exactly for a purge or a removed state event; without one the replayed history is unchanged |
| `Reconciler.Sweep` | src/migrate.rs:906-985 | no create of a marked group is left and nothing else is touched |
| `Reconciler.Reconciler.Perform` | src/migrate.rs:1174-1216 | one lawful step: the action is recorded, the database becomes what it leaves, and the marks grow by its lookup |
| `Reconciler.Reconciler.Judge` | src/migrate.rs:1380-1420 | an accepted join is admitted at once, a new action is performed at once, and where the replay stops the admitted joins are exactly those of the trace |
| `Reconciler.Reconciler.Pass` | src/migrate.rs:1218-1510 | a replay that runs through leaves no authorised action unperformed; one that stops has performed a stored action for the first time; either way the admitted joins are exactly those the replays accepted |
| `Reconciler.Reconciler.Reconcile` | src/migrate.rs:858-985 | the nested restarts terminate for every database and group store, take lawful steps only, and end where the replay authorises no unperformed action, no create of a marked group is left, and the admitted joins are exactly those of all replays |
| `Reconciler.Reconciler.DropRefused` | src/migrate.rs:986-1016 | the final replay bails exactly when an action is left unapplied, and otherwise leaves exactly the remainder of the trace |
| `Reconciler.Reconciler.ApplyGroupSideEffects` | src/migrate.rs:858-1016 | the "not stable" bail is never taken, no accepted kind:9005 or kind:9008 is left unperformed, no create tagged with a marked group is left, every event that is gone was reached, and what is stored is exactly the remainder |
| `Requests.ApplyStoredRemovals` | src/migrate.rs:640-693 | applying the stored requests one after the other removes exactly what some stored request removes, whatever their order, and completes exactly the honoured vanishes |
| `Requests.WithdrawsExactly` | src/db/removal.rs:424-466 | an event is withdrawn exactly by a kind:5 of its author or delegator naming its full id, unless it is one, by an author's kind:5 naming its address, or by an honoured vanish of its author at or after its time |
| `Requests.VanishingExactly` | src/migrate.rs:1671-1690 | a key counts as vanished, in lower or upper case, exactly when a stored kind:62 of it is honoured |
| `Requests.AddressesMissModeration` | src/db/removal.rs:538-640 | a deletion by address reaches no moderation event |
| `Replays.PreparedExactly` | src/nips/nip29/mod.rs:3932-3965 | a later replay of what is left, with more vanished keys and a later clock, judges what the first one judged and left, late-dated events aside, if and only if both skip the same joins and strip the same grants of what is left |
| `Replays.ReplaysAgree` | src/nips/nip29/mod.rs:3932-4054 | a later replay of a history that lost nothing accepted, and whose extra applications change nothing, derives the same groups, holding back no more; with the same gate it accepts the same events in the same order |
| `Aftermath.SparedExactly` | src/migrate.rs:420-426 | nothing the final replay accepted is gone at the end if and only if the stored requests reach none of it: the drop alone never removes an accepted event |
| `Aftermath.RerunAgrees` | src/migrate.rs:1218-1510 | over the database the whole migration leaves, a second run at any later time accepts the same events in the same order if and only if the requests spared them, and then derives the same groups and has nothing to do, when it skips and strips alike, no kept event comes of age and the caps do not bind |
| `Aftermath.RebuildAgrees` | src/nips/nip29/mod.rs:3932-4054 | over the database the whole migration leaves, the rebuild at startup, which authorises nothing, derives the groups the migration authorised against, when the requests spared what was accepted, both skip and strip alike, no admitted join was refused at the end and left, and the caps do not bind |
| `Aftermath.RebuildTrustsExactly` | src/nips/nip29/mod.rs:3998-4020 | the rebuild applies an event the final replay refused, kind:9005s aside, if and only if an admitted join is among the refused and left |
| `Witnesses.DroppedRemovalRevivesJoin` | src/migrate.rs:1114-1165 | create, a stranger's removal, a join of its second: the second run alone makes the author a member, and only skipping alike fails |
| `Witnesses.ArrivalsReviveJoin` | src/nips/nip29/mod.rs:4376-4401 | create, the founder's removal, a join that arrived after it in the same second: nothing is dropped, the rebuild alone makes the author a member, and only skipping alike fails |
| `KeptJoins.AdmittedJoinReturns` | src/migrate.rs:1114-1135 | create, close, open, join, deletion of the opening: the join is kept though refused, the rebuild alone makes its author a member, and only the condition on admitted joins fails |
| `Caps.CapsDecide` | src/migrate.rs:1337-1356 | events of a group that never comes fill the caps, by count or by bytes: an early deletion is refused, kept and authorised by a second run, and only the room is missing |
| `Caps.CapsReviveJoin` | src/nips/nip29/mod.rs:3975-3995 | the same with an early join, kept without effect: the rebuild alone makes its author a member, and only the room is missing |
| `Withdrawals.AuthorDeletesJoin` | src/migrate.rs:420-426 | create, join, the author's kind:5 naming it: a member in the final replay, in neither the second run nor the rebuild, and only the sparing fails |
| `Withdrawals.VanishStripsGrant` | src/migrate.rs:681-686 | create, grant, an honoured vanish of the granted key: a member in the final replay, in neither the second run nor the rebuild, and only stripping alike fails |
| `Withdrawals.ClockAuthorises` | src/migrate.rs:1126-1165 | create, a deletion dated ahead of the clock: refused, kept, and authorised by a second run once the clock has caught up, and only the coming of age differs |
| `ShortIds.ShortenedIdSweeps` | src/migrate.rs:1590-1612 | a kind:9005 naming a shortened id deletes nothing and has its group's create swept out |
| `Import.LinesPartition` | src/migrate.rs:486-518 | the lines of a stream concatenate to it, and only the last may lack a newline |
| `Import.ReadLineCapped` | src/migrate.rs:486-518 | however the reader chunks the stream, exactly one line is consumed, its first `max` bytes are kept, and truncation is flagged exactly when it is longer |
| `Import.Flush` | src/migrate.rs:527-634 | a flush succeeds exactly when the database answers every event without a write fault, and then each event of the batch has one fate and is booked under it |
| `Import.Count` | src/migrate.rs:175-189 | recording the outcomes is folding them in order, and fails exactly on a write fault |
| `Import.Classify` | src/migrate.rs:541-558 | a dry run books every event as ephemeral, expired or valid by the same rules as the put path |
| `Import.RecordTallies` | src/migrate.rs:175-189 | recording moves each counter by the number of events of its fate |
| `Import.LinesBeforeFates` | src/migrate.rs:271-405 | how reading lines and writing batches interleave does not show in the counters |
| `Import.WrittenIsAccounted` | src/migrate.rs:157-189 | with all batches written, lines = valid + imported + skipped, refused lines are counted under their reason and events under their fate |
| `Import.Run` | src/migrate.rs:251-405 | a successful import, however the input is chunked, flushes exactly the events of the lines that pass, one each and in order, in batches of at most the configured size with an honoured vanish last; each refusal counter is the number of lines with that reason, and the counters account for every line and event; it succeeds exactly when the database takes every batch, in a dry run always |
| `Import.AcceptedExactly` | src/migrate.rs:271-377 | a line becomes an event if and only if it is not over-long, decodes, is not blank, fits the cap, parses, and its event is signed when that is checked, well delegated and not too far ahead |
| `Import.RefusedExactly` | src/migrate.rs:271-317 | a line is blank, oversized or malformed exactly when that is the first thing wrong with it |
| `Import.UntrustedExactly` | src/migrate.rs:340-377 | a line has a bad signature, a bad delegation or a date ahead exactly when that is the first thing wrong with its event |
| `Import.WrittenWhenFull` | src/migrate.rs:378-403 | a batch is written exactly on an honoured vanish, at the configured number of events or at 16 MiB |
| `Import.MarkOnALaterLine` | src/migrate.rs:271-302 | the byte-order mark is stripped from the line after an over-long one, and stays on a line after another |
| `TagPlan.TagMatchPlan.constructor` | src/filter.rs:69-100 | the compiled constraints are exactly those the attributes require, each (name, value) pair has one index, and the plan is impossible exactly for a malformed attribute |
| `TagPlan.TagMatchPlan.AddConstraint` | src/filter.rs:102-109 | a constraint is appended and its values, and only they, come to index it |
| `TagPlan.RequiredDisjoint` | src/filter.rs:69-100 | constraints of different attributes never share a (name, value) pair |
| `TagPlan.Mark` | src/filter.rs:133-173 | setting a bit adds one index to the satisfied set and reports whether it was new |
| `TagPlan.MatchesBitmap` | src/filter.rs:133-173 | the one-pass bitmap matcher agrees with checking every constraint |
| `TagPlan.TagMatchPlan.Matches` | src/filter.rs:133-173 | the matcher with its fallback decides like the linear one |
| `TagPlan.TagMatchPlan.MatchesLinear` | src/filter.rs:175-184 | every constraint is satisfied by some tag |
| `TagPlan.CompiledMeaning` | src/filter.rs:69-109 | satisfying the compiled constraints is the declared meaning: all AND values present, and for each OR attribute OR minus AND empty or one of it present |
| `TagPlan.DeclaredExactly` | src/filter.rs:69-100 | the declared constraints are what the attribute names ask: `&t` all of its strings, `#t` one that `&t` does not ask for if there is one, an operator without a tag or a string matches nothing, other names are ignored |
| `TagPlan.CarriesExactly` | src/filter.rs:428-436 | the values of an attribute are the string itself or the string items of an array |
| `TagPlan.FilterMatches` | src/filter.rs:279-300 | compiling and matching decides, on every event, what the filter's own names and values ask |
| `TagPlan.TagMatchPlan.ScanConstraint` | src/filter.rs:117-127 | the constraint scanned by is one no other is preferred to, by size, name and least value |
| `TagPlan.PrefersTransitive` | src/filter.rs:117-127 | the preference is transitive |
| `TagPlan.ScanMissesNothing` | src/filter.rs:117-127 | every event the filter accepts carries a tag the scan looks up, and no constraint comes before it by size, name and least value |
| `TagPlan.CappedCountExact` | src/filter.rs:230-254 | the early-stopping count is exact up to the limit |
| `TagPlan.TooManyExactly` | src/filter.rs:230-254 | a filter is over the bound if and only if its `#` and `&` attributes hold more than 512 strings |
| `TagPlan.AcceptedFitsBitmap` | src/filter.rs:145-148 | an accepted filter never has more constraints than the bitmap holds |
| `TagPlan.DisablesExactly` | src/filter.rs:391-394 | exactly the attributes whose name starts with `&` are dropped, and the order stays |
| `TagPlan.DisablingAndWidens` | src/filter.rs:391-394 | an event matched with AND tags is still matched without them |
| `Civil.CivilCorrect` | src/logging.rs:690-702 | every integer day gives a valid Gregorian date whose recursive count of years and months from 1970-01-01 is that day |
| `Civil.CivilOfDayNumber` | src/logging.rs:690-702 | every valid date comes back from its day number |
| `Civil.DayNumberInjective` | src/logging.rs:690-702 | different valid dates have different day numbers |
| `Civil.CivilSuccessor` | src/logging.rs:690-702 | the next day is the calendar successor |
| `Civil.StampNamesSecond` | src/logging.rs:676-688 | the formatted date and time are in range and name exactly the given second |
| `Rotation.FileLogger.Log` | src/logging.rs:579-613 | a write appends and then rotates when full |
| `Rotation.FileLogger.ShiftBackups` | src/logging.rs:437-552 | renaming from the highest index down moves every generation up by one and drops those at the ceiling |
| `Rotation.RotatesExactly` | src/logging.rs:437-552 | a log rotates exactly when the live file reached a positive limit: it becomes backup 1, each backup below the ceiling moves up by one |
| `Rotation.LiveIsBounded` | src/logging.rs:437-613 | after every write the live file is below a positive limit, and without a limit everything stays in it |
| `Rotation.RotateKeeps` | src/logging.rs:437-552 | a rotation keeps a suffix, renumbers 1 to the ceiling, and loses nothing while the last generation is free |
| `Rotation.LogIsASuffix` | src/logging.rs:437-613 | after any writes from any backups, backups oldest to newest and the live file are a suffix of everything |
| `Rotation.FreshLog` | src/logging.rs:437-613 | from a fresh log they are a suffix of what was written, and backups are numbered 1 to the ceiling |
| `Rotation.RetainsEnough` | src/logging.rs:437-613 | a fresh log still holds everything written, or at least the permitted number of full files |
| `Audit.AuditLog.LogFor` | src/audit.rs:74-127 | one entry follows the step function on window, counters, ring and trail |
| `Audit.AuditLog.FlushSuppressed` | src/audit.rs:130-141 | pending suppressed entries are reported once and cleared |
| `Audit.AuditAccounting` | src/audit.rs:74-141 | over any clock, calls = logged + reported + pending, the window count is the per-identity sum, quotas hold, and the ring is the last 32 logged entries |
| `Audit.LoggedExactly` | src/audit.rs:74-127 | after any run, an entry is logged if and only if a new window starts, or its identity is under quota and the window's entries are under the caller's limit |
| `Audit.WindowsExactly` | src/audit.rs:74-127 | a call before the window or a minute after its start begins a new one that counts that call alone, and any other adds one logged or suppressed entry |
| `Audit.AdminIsLogged` | src/audit.rs:74-127 | an admin under its own quota is logged while fewer than 100 admin entries were, whatever the grantees did |
| `Conn.IpConnCounter.Acquire` | src/conn.rs:30-45 | a slot is taken exactly when the cap allows it, and only this address's count moves |
| `Conn.IpConnCounter.Release` | src/conn.rs:47-55 | the count goes down by one and the entry disappears with the last slot |
| `Conn.NextKeeps` | src/conn.rs:86-168 | every atomic step of every thread keeps the slot invariant |
| `Conn.ExactlyOnceRelease` | src/conn.rs:86-168 | under every interleaving at most one handover wins a slot, it is released at most once, and `active` is the number of unreleased slots, within the limit |
| `Conn.NoUnderflow` | src/conn.rs:131-137 | whenever a guard subtracts, `active` is positive |
| `Conn.PerIpCounts` | src/conn.rs:30-137 | each map entry is its address's unreleased slots, between 1 and the cap, and is absent at zero |
| `Conn.KeylessNeverTouches` | src/conn.rs:78-137 | in every run that reserves for trusted peers only, whatever the cap, the map stays empty |
| `Conn.UncappedCountsNothing` | src/conn.rs:30-55 | with a cap of 0 the map is empty in every run, slots with an address included |
| `Conn.AdmitsExactly` | src/conn.rs:30-45 | in every run a connection is let in exactly below the limit, and gets a slot for its address exactly below the cap or without one |
| `Conn.HandoverWins` | src/conn.rs:99-130 | the handover of a pending slot wins it and takes the release from the accept guard, and any other does nothing |
| `Conn.ReleaseCompletes` | src/conn.rs:116-168 | from every state a slot not yet released is, once its holder drops it, released once and for good, from the count and from its address |
| `Conn.AllReleased` | src/conn.rs:86-168 | once all guards are dropped, `active` is zero and the map empty, whatever the caps |
| `Access.ApplyWrites` | src/config.rs:2350-2469 | one operation writes exactly its own cells of the access state and leaves the others |
| `Access.JournalMerge` | src/config.rs:2350-2469 | replaying a log gives, per list and key, its last write where it writes and the persisted value elsewhere |
| `Access.ReplayIsIdempotent` | src/config.rs:2350-2469 | replaying any part and then the whole log decides like replaying it once |
| `Access.CellsDecide` | src/config.rs:2578-2655 | states with equal cells decide alike on pubkeys, kinds, grants and addresses |
| `AccessLaws.DecisionsExactly` | src/config.rs:2578-2655 | the five decisions from the entries: a pubkey is allowed exactly when no deny entry names it in any case and the relay is open or an allow entry does, and likewise for kinds, addresses in any spelling and grants |
| `AccessLaws.CellsDecideExactly` | src/config.rs:2578-2655 | the same from the cells a journal writes |
| `AccessLaws.PubkeyJournal` | src/config.rs:2350-2425 | after a case-insensitive journal a pubkey is denied exactly when a ban of it has no later unban or allow, or it was and has none; likewise allowed, where a ban ends it |
| `AccessLaws.KindJournal` | src/config.rs:2426-2443 | likewise for kinds, where a denied kind is no longer allowed |
| `AccessLaws.AddressJournal` | src/config.rs:2444-2454 | likewise for addresses in any spelling |
| `AccessLaws.GrantJournal` | src/config.rs:2455-2469 | likewise for grants |
| `Access.KeysStayDisjoint` | src/config.rs:2350-2469 | a log of either kind puts no key on both lists, as that kind compares keys |
| `Access.ListsStayDisjoint` | src/config.rs:2350-2469 | a case-insensitive log over disjoint lists leaves no pubkey on both for the decisions |
| `Access.ExactJournalListsTwice` | src/config.rs:2350-2469 | a concrete exact-case log that leaves a pubkey on both |
| `Access.ExactOpKeepsDisjoint` | src/config.rs:2350-2425 | an exact-case ban or allow keeps the lists disjoint if and only if the other list has no other spelling of the pubkey |
| `Access.SpellingDecides` | src/config.rs:2350-2425 | where names equal up to case are equal, how each op compares pubkeys does not show |
| `Access.MixedJournalInOneSpelling` | src/config.rs:2350-2469 | such a log, mixed or not, can be replayed over any part of itself and puts no pubkey on both lists |
| `AccessStore.BlockedIps.constructor` | src/config.rs:2194-2268 | the lookup set is the normalised parses of any entries, duplicates and unparsable ones included |
| `AccessStore.BlockedIps.Blocks` | src/config.rs:2205-2211 | an address is blocked exactly when some entry names the same normalised address |
| `AccessStore.BlockedIps.Push` | src/config.rs:2213-2223 | an entry is added exactly when it parses to an address not blocked yet, and the set still agrees |
| `AccessStore.BlockedIps.SetReason` | src/config.rs:2225-2239 | only the first entry of the address changes, only in its reason |
| `AccessStore.BlockedIps.Remove` | src/config.rs:2241-2251 | every entry of the address goes, no other, and the set still agrees |
| `AccessStore.AccessState.Apply` | src/config.rs:2350-2469 | the update in place follows the operation's function and keeps the cache in agreement |
| `AccessStore.AccessTable.Load` | src/cli.rs:2743-2811 | a load is the persisted keys with the decodable journal entries folded in, in order |
| `AccessStore.AccessTable.Save` | src/cli.rs:2813-2846 | a save writes every key and empties the journal |
| `AccessStore.LoadSaveLoad` | src/cli.rs:2743-2846 | load, save, load gives the same state, whatever the journal held |
| `AccessStore.MixedJournalIsNotIdempotent` | src/config.rs:2350-2469 | a concrete log of both kinds of pubkey operation that decides differently the second time |
| `WebSocket.FrameRoundTrip` | scripts/soak_probe.py:222-261 | decoding what was encoded gives fin, the opcode and the payload, and leaves the bytes that follow, for every opcode below 16, mask and payload under 2^64 bytes |
| `WebSocket.WireRoundTrip` | scripts/soak_probe.py:231-246 | every frame reads back, final or not, masked or not, with each masked byte combined with its byte of the mask |
| `WebSocket.SendsWire` | scripts/soak_probe.py:248-261 | what is sent is such a frame, final and masked |
| `WebSocket.LengthRoundTrip` | scripts/soak_probe.py:231-255 | the 7-bit, 2-byte and 8-byte length fields read back their length |
| `WebSocket.Client.ReadExact` | scripts/soak_probe.py:222-229 | exactly `n` bytes are taken from the stream however it arrives, or the close is reported |
| `WebSocket.Client.ReadFrame` | scripts/soak_probe.py:231-246 | the frame read is the one at the front of the stream, however it is chunked |
| `WebSocket.Client.SendFrame` | scripts/soak_probe.py:248-261 | exactly the encoded frame is appended to what was sent |

## Left out

- LMDB, `DbClient` and the group store's internals: reached only as functions.
- Schnorr signatures and field arithmetic; JSON and TOML parsing; NIP-19, NIP-26 and NIP-50 helpers.
- `Config::validate`, legacy aliases, NIP-11 advertisement and the TOML text editor: flat checks and text handling.
- Daemonising, pid files, upgrade, prompts and other process I/O of the CLI.
- Paging, boundary-second checks and database faults of the migration: the drop happens after the final replay, not page by page within it; gift-wrap purges, fake-metadata removal and snapshot invalidation.
- Requests.ApplyStoredRemovals: does not model the pages the requests are read in, a delegator's deletion by address (which reaches no moderation), nor the markers requests leave against later publication (`StoreEffects` states those for the store).
- Import.Run: first-seen records, pending-vanish markers and the side effects after the import are not modelled, and the database answers a batch as a function of the batches before it.
- Rotation.FileLogger.Log: does not model failing file operations and the reopen branches, because their outcome is the file system's; a stray backup numbered 0 is excluded.
- Conn.NextKeeps: one accept loop; the middleware's own client guard is not modelled.
- `access_seed_ops`, and the filter's matching by ids, authors, kinds, time and search: settled by reading one branch each.
- The WebSocket handshake and `recv_text`.
