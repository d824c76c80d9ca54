# ClawMesh: models and proofs

A Dafny model of the parts of ClawMesh whose correctness spans many calls, many replicas or whole
runs: replicated room state, gossip of the peer table, federation relay, the encrypted channel's
nonces, and the gateway's social store with its slugs.

`dafny verify dfyconfig.toml` checks everything.

## How it is laid out

| files | part of the system |
|---|---|
| `Wrappers.dfy`, `Hearing.dfy` | shared types, and who has heard from whom |
| `Text.dfy` | the order on strings that breaks ties between authors |
| `Clock.dfy`, `Room.dfy`, `RoomLaws.dfy`, `StateSync.dfy` | vector clocks, one room, its laws, and the classes that update rooms in place |
| `History.dfy`, `Causality.dfy`, `CausalRuns.dfy` | N replicas that send each other any entries under any wall clocks: what vector clocks say about causality |
| `Replication.dfy`, `Convergence.dfy`, `Spread.dfy`, `RunSpread.dfy`, `RawWrites.dfy` | the same replicas exchanging deltas, snapshots and single writes: state, synchronisation, convergence, and when a single write is safe |
| `Registry.dfy`, `Gossip.dfy`, `GossipSweep.dfy`, `GossipSpread.dfy`, `GossipRouter.dfy` | the newest-wins peer table, anti-entropy between N nodes, sweeps along a line, any schedule, one node's connections |
| `Federation.dfy`, `FederationRuns.dfy` | one mesh's links and its gateway's decision, and envelopes travelling over any link graph |
| `Channel.dfy` | counter nonces and the two ends of an encrypted channel |
| `Slug.dfy`, `Social.dfy` | `slugify` and the social store |

What the program updates in place is a class here, and each of its methods is proved equal to a
function of the old state. The laws are then proved about those functions, and the runs of N
replicas, nodes or meshes are built from the same functions, so a method that did something else
would fail its own contract. A loop over a hash map takes its keys in an arbitrary order, and every
result holds for all of them.

## What the results assume

Causality. In `CausalRuns` replicas write under any wall clocks and send each other any entries they
have come by; a message stays in the network for ever, so it may arrive late, twice, out of order or
never, and rooms may be removed and created again at any time. One thing is assumed: an agent writes
only at a replica that has caught up with its earlier writes, which means that the room's clock has
reached every tick the agent has written. That is exactly what is needed for ticks to decide what is in
the past of what (`CausalRuns.MayWriteExactly`), and it always holds of an agent's replica while each agent
keeps to one replica and no room is removed (`CausalRuns.HomeIsCaughtUp`). An agent that moves, or whose
room was removed, may write again once its replica has been synchronised.

The causal order meant is the one that entries carry: a write follows
the writes its author's replica had incorporated, and an entry brings its own past with it. The usual
happened-before, in which a message brings all its sender had heard of, can be larger, because
deltas and snapshots do not bring the sender's room clock: `CausalRuns.SnapshotCanLoseMessageOrder` is such
a run. The two orders agree along a run exactly when every delivery leaves its receiver's clock at or
above the sender's (`CausalRuns.MessageOrderKeptExactly`), which a snapshot does for every receiver exactly
when the sender's clock is the join of its entries' clocks (`RoomLaws.SnapshotBringsClock`).

Room state. In `Replication` a run is any sequence of writes, deltas built against any clocks, snapshots,
deliveries, and removals and re-creations of rooms, over the same network. Every such run is one of
`CausalRuns` (`Convergence.RunsAreCausal`). The guards of the steps are these.

- An agent writes only at a replica that has caught up with it, as above (`Replication.HomeIsCaughtUp`).
  `Convergence.FirstWritesAtTwoHomesDiverge` and `Convergence.RecreatedRoomIsIgnored` show what happens otherwise:
  the second says, for a re-created room into which nothing has been restored, exactly which of its
  author's writes any room refuses, and `Convergence.AnyWriteAccepted` says it for any room.
- A write's (time, author) stamp exceeds that of the entry it overwrites. This follows whenever the
  clock read by `set` is later than every timestamp the replica holds (`Convergence.LaterClockMayWrite`), and
  asks less.
  `Convergence.WriteNeedsFreshStamp` shows it is exactly what is needed, and
  `RoomLaws.SkewedClocksDiverge` gives entries that end differently in different orders without it.
- A message is applied only by a replica whose clock has the message's floor: the clock a delta was built
  against, or the clock a single write was made on; a snapshot has none. A replica keeps the floor of
  every delta it asked for while it does not remove the room (`Replication.RequestedDeltaHasFloor`). For single
  writes the floor is exactly what the receiver can check (`RawWrites.BroadcastSafeExactly`), and
  `Convergence.HiddenForGood` shows what happens without it.

Results that need none of this say so by not mentioning runs: the clock laws, the aggregate clock
law, order independence, what is reported, the snapshot round trip, and that a local write never loses.

Gossip. Results about freshness assume a timely run: an announce is never stamped below what its node
holds for that id (`Gossip.StampsFallExactlyWhenUntimely`). That everything held was announced, the
bound on work, and sweeps need no such thing. Where tables are claimed equal, distinct announces of
one id have distinct stamps; `GossipSweep.SweepConvergesExactly` gives the exact condition on the tables.

Federation. A link's channel delivers to the mesh the link is named after.

Encrypted channel. The AEAD is ideal: a ciphertext is its key, nonce and plaintext, nobody but the two
ends seals under their key, and each seal or open call takes one nonce first.

Slugs and usernames. Lower-casing and white space are arbitrary, except that a text of letters,
digits and hyphens is its own lower case and contains no white space. Well-formedness of slugs and
the integrity of the store do not even need that.

## Where the code and its comments disagree

- The room clock is described as the merge of the clocks of its entries (`p2p/src/room_state.rs:142`).
  It is the join of everything received, which can be strictly more. From a room where the two agree,
  they still agree after an entry arrives unless it is concurrent with the held entry of its key and
  either is refused with a clock the room did not cover, or wins while some component of the displaced
  clock is reached neither by its own clock nor by an entry under another key (`RoomLaws.ConcurrencyOutgrowsEntries`, an if and only if, for
  rooms of any number of keys).
- A snapshot's clock is called the aggregate clock of the state (`p2p/src/room_state.rs:118`), but
  `restore_snapshot` never reads it. A new room restored from a snapshot has the snapshot's clock if and
  only if that was the join of its entries' clocks (`RoomLaws.RestoredClockIsSameWhenExact`), and
  `RoomLaws.RestoredClockCanBeLower` is a room whose restored copy is strictly behind.
- The entry returned by `set` is called suitable for broadcasting as a delta
  (`p2p/src/room_state.rs:245`). A receiver that knows only its own room and the clock the write was made
  on can apply it alone, and stay determined by its clock whatever else has been written, if and only if
  its own clock is at or above that one (`RawWrites.SafeExactlyWithPrior`). For one given set of writes less
  can do: the writes claimed to other keys must be held or superseded (`History.RawDeliveryExact`).

- A username is refused for having fewer than 3 characters (`gateway/src/main.rs:432-437`), but bytes are
  counted. Shorter names that pass are exactly one character from code point 2048 up, or two that are
  not both below 128 (`Social.ShortNamesThatPass`).

One comment needs care in reading. `apply_delta` promises the keys that were actually updated and defines
these as the keys of accepted entries (`p2p/src/room_state.rs:339-340`), which is what it returns. It is not
always the keys that differ afterwards. Every key whose entry changed is reported. A reported key may
have ended as it began (`RoomLaws.SkewedWritesAreMisreported` is such a delta), though not if the held entry is
not among those sent, nor if their keys are distinct, as in every result of `build_delta` and every
snapshot. For entries drawn from a given set, in any order and with any repetitions, the report on a
key is the change if and only if the held entry cannot be beaten step by step within the set until it
comes back (`RoomLaws.ReportsExactUnlessReturns`).

## Model

| member | source | states |
|---|---|---|
| Text.LessTotal | p2p/src/room_state.rs:178-180 | The author tiebreak decides between any two different authors. |
| Text.LessTransitive | p2p/src/room_state.rs:178-180 | The author tiebreak is transitive. |
| Text.LessMeans | p2p/src/room_state.rs:178-180 | One author comes before another exactly when it is a proper prefix or has the lesser character at the first difference. |
| Clocks.VectorClock.Tick | p2p/src/room_state.rs:39-43 | Only the agent's component grows, by one from 0 if missing, and its new value is returned. |
| Clocks.VectorClock.Merge | p2p/src/room_state.rs:51-56 | For any iteration order the clock becomes the componentwise maximum. |
| Clocks.VectorClock.PartialCmp | p2p/src/room_state.rs:59-84 | For any iteration order the verdict is that of the componentwise order, missing components being 0. |
| Clocks.CompareIsPartialOrder | p2p/src/room_state.rs:59-84 | Equal means equal components, Before and After are dual, Concurrent is symmetric, Before is transitive. |
| Clocks.JoinIsLub | p2p/src/room_state.rs:51-56 | A merge is the least upper bound of the two clocks. |
| Clocks.JoinLaws | p2p/src/room_state.rs:51-56 | Merging is commutative, associative and idempotent, and agrees with the order. |
| Clocks.TickIsAfter | p2p/src/room_state.rs:258-260 | A ticked clock is strictly after every clock at or below the one ticked. |
| Rooms.NewerIsStrictOrder | p2p/src/room_state.rs:178-180 | Stamps are strictly and totally ordered up to equal (time, author). |
| Rooms.LastWriterWins | p2p/src/room_state.rs:175-191 | Of two concurrent writes the later in time is kept, and of equal times the one whose author comes after the other's. |
| Rooms.BeatsIsAsymmetric | p2p/src/room_state.rs:159-199 | No two entries replace each other: what one accepts over the other is decided one way. |
| Rooms.NewForMeaning | p2p/src/room_state.rs:318-328 | A delta's filter keeps exactly the entries whose clock is not at or below the receiver's. |
| Rooms.ApplyKeepsWellFormed | p2p/src/room_state.rs:159-199 | In every branch, the stale one included, the room clock becomes the join of itself and the incoming clock, still bounds every held entry, and only an accepted entry changes the map. |
| StateSync.RoomState.ApplyEntry | p2p/src/room_state.rs:159-199 | A new key or a causally later entry is accepted, a causally earlier or equal one refused, and a concurrent one accepted exactly if it is later in time, or of equal time by a greater author; only an accepted entry changes the map, and the clock becomes the componentwise maximum in every branch. |
| StateSync.RoomState.ApplyEntries | p2p/src/room_state.rs:347-353 | The loop folds the transition over the entries in order and collects the accepted keys. |
| StateSync.RoomState.ReplayEntries | p2p/src/room_state.rs:399-405 | The loop over a map folds the transition over its entries, each visited once, in some order. |
| StateSync.RoomStateSync.InitRoom | p2p/src/room_state.rs:230-236 | An existing room is left as it was; otherwise a room with no entries and a zero clock is added, and no other changes. |
| StateSync.RoomStateSync.RemoveRoom | p2p/src/room_state.rs:239-241 | Forgets the room and says whether it existed. |
| StateSync.RoomStateSync.Set | p2p/src/room_state.rs:246-279 | The entry returned carries the key, value, author and time given and the room's clock with the author's component one higher; it is what the key then holds, the other keys and rooms are unchanged, and the room clock is the entry's clock. |
| StateSync.RoomStateSync.Get | p2p/src/room_state.rs:282-291 | The held entry, or which of room and key is missing. |
| StateSync.RoomStateSync.BuildDelta | p2p/src/room_state.rs:307-335 | Lists once each exactly the entries the given clock does not cover. |
| StateSync.RoomStateSync.ApplyDelta | p2p/src/room_state.rs:341-369 | Folds the delta into its room, reports the accepted keys, and leaves other rooms alone. |
| StateSync.RoomStateSync.Snapshot | p2p/src/room_state.rs:372-384 | The room's clock and all its entries, which that clock bounds. |
| StateSync.RoomStateSync.RestoreSnapshot | p2p/src/room_state.rs:386-420 | Folds the snapshot's entries in some order into the room. An existing room loses no key, each entry is the old one or the snapshot's as the two are resolved, and its clock is the join of the old clock and the snapshot's entry clocks; a new room holds exactly the snapshot's entries, all reported, under the join of their clocks, and has the snapshot's clock exactly when that was no more. No other room changes. |
| StateSync.MergedRoom | p2p/src/room_state.rs:386-405 | What merging a snapshot means for the keys, entries and clock of a room, in whatever order the map gives its keys. |
| StateSync.ResolvedRoom | p2p/src/room_state.rs:399-405 | Each key of the snapshot is resolved against the entry held, and reported exactly when the snapshot's wins. |
| StateSync.RestoredRoom | p2p/src/room_state.rs:399-405 | The same of the replay itself, in whatever order the map gives its keys. |
| StateSync.RoomStateSync.RoomClock | p2p/src/room_state.rs:423-429 | The aggregate clock, or that there is no such room. |
| RoomLaws.AggregateClockLaw | p2p/src/room_state.rs:159-199 | After any sequence of entries the room clock is the least upper bound of the old clock and every clock received, with no assumption on timestamps. |
| RoomLaws.ClockOrderFree | p2p/src/room_state.rs:347-352 | The room clock depends only on which entries were received, not on order or repetition. |
| RoomLaws.LubIsReached | p2p/src/room_state.rs:50-56 | A bound of some clocks is their merge exactly when each of its components is reached by one of them. |
| RoomLaws.ConcurrencyOutgrowsEntries | p2p/src/room_state.rs:141-143 | A room clock that is the join of the entry clocks stays so unless the next entry is concurrent with the one held and is refused uncovered, or displaces a clock that neither it nor the entries under other keys reach; if and only if, for any room. |
| RoomLaws.OneKeyOutgrows | p2p/src/room_state.rs:175-191 | In a room of one key it stays so exactly when the next entry is not concurrent. |
| RoomLaws.Survivor | p2p/src/room_state.rs:159-199 | What a key ends up with was held or received, and an entry that beats all its rivals always survives. |
| RoomLaws.OrderIndependence | p2p/src/room_state.rs:341-352 | If each key has an entry that beats all rivals, any order and repetition ends with exactly those entries and the same clock. |
| RoomLaws.OrderFreeIffChampion | p2p/src/room_state.rs:159-199 | Entries of one key end the same in all orders if and only if one of them beats all the others. |
| RoomLaws.StampedOrderIndependence | p2p/src/room_state.rs:159-199 | If causal order implies later stamps and distinct entries neither tie nor share a clock, all orders end alike. |
| RoomLaws.KeepsGreatestStamp | p2p/src/room_state.rs:175-191 | Under the same hypothesis the survivor is the greatest of all rivals: none is later in time, nor of equal time by an author that does not come before. |
| RoomLaws.AtLeastMeans | p2p/src/room_state.rs:178-180 | Being at least as new, said in times and authors alone. |
| RoomLaws.CircleDiverges | p2p/src/room_state.rs:168-191 | Three entries that beat each other in a circle end differently in different orders. |
| RoomLaws.SkewedClocksDiverge | p2p/src/room_state.rs:168-191 | Such entries exist as soon as a causally later write can carry an earlier timestamp. |
| RoomLaws.ChangedKeysAreReported | p2p/src/room_state.rs:341-352 | Every key whose entry changed is reported. |
| RoomLaws.UnsentIsReportedExactly | p2p/src/room_state.rs:337-352 | With any timestamps, a key whose held entry is not sent again is reported exactly when its entry changed. |
| RoomLaws.DistinctKeysReportedExactly | p2p/src/room_state.rs:337-352 | With any timestamps, entries with distinct keys, such as every delta built and every snapshot, are reported exactly for every key. |
| RoomLaws.ReportsExactUnlessReturns | p2p/src/room_state.rs:337-352 | All sequences over a set of entries are reported exactly for a key if and only if the held entry cannot be beaten step by step within the set and return. |
| RoomLaws.AscentOf | p2p/src/room_state.rs:168-184 | What a held key ends up with came about by received entries that each beat the one before, and it is reported exactly when there was one. |
| RoomLaws.ReportedKeysChanged | p2p/src/room_state.rs:337-352 | When causal order implies later stamps, the keys reported are exactly those changed. |
| RoomLaws.ReportedKeyRose | p2p/src/room_state.rs:341-352 | No key loses its entry or falls back to an older stamp, and reported keys strictly rose. |
| RoomLaws.ReportedButUnchanged | p2p/src/room_state.rs:337-352 | Three entries that beat each other in a circle make a key reported although the room ends with the entries it had. |
| RoomLaws.SkewedWritesAreMisreported | p2p/src/room_state.rs:337-352 | A room and a delta for which that happens. |
| RoomLaws.SnapshotRoundTrip | p2p/src/room_state.rs:372-420 | Restoring a snapshot into a fresh room, in any order, gives exactly its entries, reports exactly its keys, and gives the join of the entry clocks, at or below the snapshot's clock. |
| RoomLaws.SecondRestoreIsIdle | p2p/src/room_state.rs:386-420 | Restoring it again, in any other order, changes nothing and reports nothing. |
| RoomLaws.RestoredClockIsSameWhenExact | p2p/src/room_state.rs:390-420 | The restored room has the snapshot's clock if and only if that clock was the join of the entry clocks. |
| RoomLaws.RestoredClockCanBeLower | p2p/src/room_state.rs:118-119 | A room, made by two deltas, whose restored copy has a strictly lower clock. |
| RoomLaws.SnapshotBringsClock | p2p/src/room_state.rs:372-405 | A snapshot raises every receiver to the sender's clock if and only if that clock is the join of its entries' clocks. |
| RoomLaws.DeltaBringsClock | p2p/src/room_state.rs:318-328 | A delta does so for every receiver that has the clock it was built against if and only if each component of the sender's clock is reached by that clock or by an entry. |
| History.LocalWriteWins | p2p/src/room_state.rs:246-271 | A local write's clock is After every held clock, so it is always accepted and becomes what the key holds. |
| History.DeltaCarries | p2p/src/room_state.rs:302-335 | A delta covers every write its sender's clock covers, for any receiver that has the clock it was built against. |
| History.SnapshotCarries | p2p/src/room_state.rs:371-384 | A snapshot covers every write its sender's clock covers, for any receiver. |
| History.Delivery | p2p/src/room_state.rs:341-369 | Applying such a message in any order leaves each entry the greatest-stamped write the receiver's clock covers. |
| History.RawDeliveryExact | p2p/src/room_state.rs:243-245 | For a given set of writes, a single entry applied on its own keeps that true if and only if, for every other key, the receiver already holds something at least as new as each write the entry's clock claims. |
| RawWrites.SafeExactlyWithPrior | p2p/src/room_state.rs:243-245 | Knowing only its room and the clock a write was made on, a replica can apply the write alone, whatever else has been written, if and only if its own clock is at or above that clock. |
| RawWrites.BroadcastSafeExactly | p2p/src/room_state.rs:258-270 | In every reachable state that is so of every write ever sent and every replica. |
| History.WriterDetermined | p2p/src/room_state.rs:258-270 | A local write keeps that true, and the writer then covers what it covered before and the write. |
| History.OthersDetermined | p2p/src/room_state.rs:258-270 | A write elsewhere does not disturb what a replica's clock says about its entries. |
| Replication.RunKeepsInv | p2p/src/room_state.rs:230-420 | Every run of writes, deltas, snapshots, deliveries and removed and re-created rooms keeps the system invariant. |
| Replication.HomeIsCaughtUp | p2p/src/room_state.rs:258-270 | While each agent keeps to one replica and no room is removed, that replica has always caught up with it. |
| Replication.RequestedDeltaHasFloor | p2p/src/room_state.rs:302-311 | A delta built against a replica's clock, then or earlier, can be applied by it however late and often, while it does not remove the room. |
| History.ClocksAreTheirWrites | p2p/src/room_state.rs:58-84 | Clocks whose ticks are writes are ordered exactly as the sets of writes they cover. |
| Causality.WriteKeepsOk | p2p/src/room_state.rs:258-270 | With any timestamp, a write keeps every clock in the system equal to a set of writes closed under causes. |
| Causality.ReceiveKeepsOk | p2p/src/room_state.rs:159-199 | So does receiving any written entries, in any order, whatever was received before. |
| Causality.ForgetKeepsOk | p2p/src/room_state.rs:230-241 | So does removing a room and creating it again. |
| CausalRuns.MayWriteExactly | p2p/src/room_state.rs:258-270 | After a new write at any replica ticks still decide what is in the past of what if and only if that replica had caught up with the author's earlier writes. |
| CausalRuns.HomeIsCaughtUp | p2p/src/room_state.rs:258-270 | While each agent keeps to one replica and no room is removed, any agent may write at its own at any time. |
| CausalRuns.PastIsCovered | p2p/src/room_state.rs:258-267 | In every such run the writes a write's clock covers are exactly those its author's replica had incorporated. |
| CausalRuns.ClocksDecideCausality | p2p/src/room_state.rs:58-84 | In every such run comparing two writes says Before or After exactly for the order that entries carry, Concurrent exactly for neither, Equal only for the same write. |
| CausalRuns.OwnTickSuffices | p2p/src/room_state.rs:39-48 | In every such run a write has been incorporated by a replica, or is in the past of another write, exactly when the author's component has reached the write's own tick. |
| CausalRuns.ClocksNeverOverstate | p2p/src/room_state.rs:58-84 | Whatever clocks order, messages had ordered too. |
| CausalRuns.MessageOrderKeptExactly | p2p/src/room_state.rs:302-405 | Along a run replicas have incorporated all that messages told them of if and only if each delivery left its receiver's clock at or above the sender's. |
| CausalRuns.ClocksDecideMessageOrder | p2p/src/room_state.rs:58-84 | After such a run clocks decide the usual happened-before of messages. |
| CausalRuns.SnapshotCanLoseMessageOrder | p2p/src/room_state.rs:386-405 | A run with a snapshot after which a write received by its sender compares as concurrent with the next write of its receiver. |
| Replication.ReachableRoom | p2p/src/room_state.rs:159-199 | In every reachable state each replica's entries are determined by its clock, and its clock covers exactly the writes it has causally incorporated. |
| Convergence.RunsAreCausal | p2p/src/room_state.rs:230-420 | Every run of writes, deltas, snapshots, single writes and re-created rooms is one of the runs above. |
| Convergence.StateIsFunctionOfClock | p2p/src/room_state.rs:159-199 | In every reachable state a replica has an entry for a key exactly when its clock covers a write of it, and then it is the greatest-stamped such write: none covered is later in time, nor of equal time by an author that does not come before. |
| Convergence.EqualClocksEqualEntries | p2p/src/room_state.rs:141-143 | In every reachable state replicas with equal clocks hold identical entries. |
| Convergence.IncrementalSyncRefinesFullTransfer | p2p/src/room_state.rs:302-420 | A delta built at any earlier point against any clock the receiver has by then, its current one or an earlier one, gives the same entries, the same clock and the same report as restoring the snapshot the sender would have taken instead. |
| Convergence.OneSyncEachWay | p2p/src/room_state.rs:302-369 | One delta each way leaves two replicas with identical entries, whatever their clocks. |
| Convergence.CoveredIsRefused | p2p/src/room_state.rs:192-195 | Nothing a replica's clock covers can change it again. |
| Convergence.WriteNeedsFreshStamp | p2p/src/room_state.rs:262-270 | Whatever time `set` reads, the writer's entry is the greatest-stamped write its clock covers if and only if its stamp exceeds the entry it replaced. |
| Convergence.LaterClockMayWrite | p2p/src/room_state.rs:262-270 | A clock later than every timestamp held makes any write meet that condition. |
| Convergence.TwoHomesDiverge | p2p/src/room_state.rs:192-195 | Two writes sharing a clock end differently in different orders. |
| Convergence.FirstWritesAtTwoHomesDiverge | p2p/src/room_state.rs:258-267 | One agent's first writes at two replicas share a clock, so they do. |
| Convergence.RawBroadcastHidesTheRest | p2p/src/room_state.rs:243-245 | After a late joiner applies only the newest write, the sender's delta for it is empty at that point, whatever else the sender holds. |
| Convergence.HiddenForGood | p2p/src/room_state.rs:318-328 | Each entry the sender held then is left out of every later delta, from any replica that still holds it, against any clock the joiner then has. |
| Convergence.OnlyNextWriteIsSent | p2p/src/room_state.rs:318-328 | The sender's next write is sent, and nothing else of what it holds. |
| Convergence.RecreatedRoomIsIgnored | p2p/src/room_state.rs:238-241 | A write to a removed and re-created room, into which nothing was restored and only its author has written, is accepted by any room if and only if that holds no entry for the key, or one that knows of fewer of the author's ticks and of no other agent's unless the write is newer; refused by tick, it changes nothing. |
| Convergence.AnyWriteAccepted | p2p/src/room_state.rs:168-195 | A write to any room, whatever was restored into it, is accepted by any other exactly by what the held entry's clock knows of the author's ticks and of the first room's clock, and by the stamps. |
| Convergence.RecreatedSoloRoomIsIgnored | p2p/src/room_state.rs:238-241 | Between rooms the author alone wrote, it is refused if and only if its tick is at most that of the entry held. |
| Spread.SyncMerges | p2p/src/room_state.rs:302-369 | One sync leaves the receiver at least as new as both replicas on every key. |
| Spread.AnyScheduleConverges | p2p/src/room_state.rs:302-369 | For any number of replicas and any schedule of syncs, replicas that have each heard from all, directly or not, hold identical entries. |
| Spread.UpAndDownIsEnough | p2p/src/room_state.rs:302-369 | Syncing up a line of replicas and back is enough for all to hear from all, whatever their number. |
| RunSpread.HearingFromAllIsEnough | p2p/src/room_state.rs:302-420 | After any write-free schedule of deltas, snapshots and single writes, with stale, repeated and reordered messages in between, a replica that has heard from all holds the newest of all writes ever made to each key, provided no write had been lost with a removed room. |
| RunSpread.AnyRunConverges | p2p/src/room_state.rs:302-420 | Hence replicas that have each heard from all hold identical entries. |
| RunSpread.SyncHears | p2p/src/room_state.rs:302-369 | An answered clock and its delivery can always be made, and pass on all that the sender had heard from. |
| RunSpread.NothingLostWithoutForgetting | p2p/src/room_state.rs:238-241 | While no room is removed no write is lost. |
| Registry.MergeAllMeans | p2p/src/discovery.rs:239-253 | A merge never loses ground, covers every entry received, invents nothing, and keeps its own entry on equal stamps. |
| Registry.RemoteIsStamps | p2p/src/discovery.rs:202-222 | A digest reads back as the stamps of the table it was built from, in any order. |
| Registry.QuietExactlyWhenDominated | p2p/src/discovery.rs:216-236 | A pull gets an empty push if and only if the requester is already as fresh on every id. |
| Registry.AnswerCatchesUp | p2p/src/discovery.rs:214-253 | An answer to any earlier digest brings the requester up to the answerer. |
| Registry.MeshRegistry.HandleAnnounce | p2p/src/discovery.rs:87-99 | Overwrites unconditionally; freshness is kept exactly when the stamp is not below the one held. |
| Registry.MeshRegistry.BuildDigest | p2p/src/discovery.rs:202-212 | The id and stamp of each held entry, once each. |
| Registry.MeshRegistry.HandleGossipPull | p2p/src/discovery.rs:216-236 | Once each, exactly the entries the digest lacks or has older. |
| Registry.MeshRegistry.MergeGossipPush | p2p/src/discovery.rs:239-253 | The loop folds newest-wins over the push. |
| Gossip.StampsNeverFall | p2p/src/discovery.rs:87-99 | No step of a timely run lowers any node's stamp for any id. |
| Gossip.StampsFallExactlyWhenUntimely | p2p/src/discovery.rs:87-99 | A step lowers some stamp if and only if it is an announce stamped below what its node holds. |
| Gossip.HeldWasAnnounced | p2p/src/discovery.rs:239-253 | In every reachable state, timely or not, whatever a node holds was really announced, under its own id. |
| Gossip.FreshnessIsMonotone | p2p/src/gossip.rs:117-157 | Along every timely run no node's stamp for any id falls. |
| Gossip.MergedPushCatchesUp | p2p/src/gossip.rs:114-157 | Once a push is merged, and ever after, the puller is as fresh as the answerer was when answering, however stale the digest. |
| Gossip.MergeSpendsNews | p2p/src/discovery.rs:241-252 | Every accepted entry strictly lowers the number of announced entries that would be news. |
| Gossip.WorkIsBounded | p2p/src/discovery.rs:239-253 | With announces stopped, whatever they were stamped, any continuation accepts at most nodes times announces entries. |
| GossipSweep.PullIsJoin | p2p/src/discovery.rs:216-253 | A completed pull leaves the puller with the newest-wins join of the two tables. |
| GossipSweep.CompletedPull | p2p/src/gossip.rs:78-157 | Asking, answering and merging in a row joins the answerer's table into the asker's and changes no other node. |
| GossipSweep.SweepIsFresh | p2p/src/gossip.rs:78-157 | After a sweep up a line of N nodes and back, every node is as fresh as every node was. |
| GossipSweep.SweepReachesJoin | p2p/src/gossip.rs:78-157 | Each table is then a newest-wins join of all the initial tables. |
| GossipSweep.SweepConvergesExactly | p2p/src/discovery.rs:242-246 | All tables are then equal if and only if no id has two different entries with its newest stamp. |
| GossipSweep.SweepRunIsSweep | p2p/src/gossip.rs:78-157 | Any run of completed pulls up the line and back, with any listing orders, ends in that sweep. |
| GossipSweep.DistinctStampsAgree | p2p/src/discovery.rs:87-99 | The condition holds when distinct announces of one id have distinct stamps. |
| GossipSweep.SweepRunConverges | p2p/src/gossip.rs:78-157 | Such a run from any reachable state leaves every node with the join of all the tables it began with. |
| GossipSpread.AnyScheduleConverges | p2p/src/gossip.rs:78-157 | After any announce-free schedule, with any other messages in between, nodes that have each heard from all, directly or not, hold the same newest-wins join of all the tables at its start. |
| GossipSpread.RunSpreads | p2p/src/gossip.rs:114-157 | Along every timely run each node is as fresh as every node it has heard from was at the start. |
| GossipSpread.PullHears | p2p/src/gossip.rs:78-157 | A completed pull can always be made, and passes on all that the answerer had heard from. |
| Router.GossipRouter.AddPeer | p2p/src/gossip.rs:54-66 | Connects or reconnects one peer on an empty open channel. |
| Router.GossipRouter.RemovePeer | p2p/src/gossip.rs:69-75 | Drops exactly that peer and says whether it was there. |
| Router.GossipRouter.InitiatePull | p2p/src/gossip.rs:78-101 | Appends one digest of the current table to that peer's channel, or changes nothing, with the reason. |
| Router.GossipRouter.InitiatePullAll | p2p/src/gossip.rs:104-112 | Every connected peer gets exactly one pull if its channel is open, and is reported exactly once with its own outcome. |
| Router.GossipRouter.HandleMessage | p2p/src/gossip.rs:117-157 | A pull has its answer appended to the sender's channel, if connected and open, without touching the table or another channel; a push is merged without sending. |
| Router.PullIsAsk | p2p/src/gossip.rs:78-101 | The pull put on a channel is what the asking step of the network puts on the wire. |
| Router.AnswerIsReply | p2p/src/gossip.rs:123-143 | The push put on a channel is what the answering step of the network puts on the wire. |
| Router.MergeIsAbsorb | p2p/src/gossip.rs:144-154 | Merging a push is the absorbing step of the network. |
| Federation.FederationRouter.LinkMesh | p2p/src/federation.rs:105-148 | Refuses a link to itself or a second link, adds the link otherwise. |
| Federation.FederationRouter.UnlinkMesh | p2p/src/federation.rs:151-171 | Removes the link and returns its description, or reports that there is none. |
| Federation.FederationRouter.Relay | p2p/src/federation.rs:177-195 | Appends to the target's channel exactly the payload from this mesh with 8 hops to live, if linked and open and not itself; else changes nothing, with the reason. |
| Federation.FederationRouter.Forward | p2p/src/federation.rs:201-219 | Appends to the channel exactly the envelope with one hop less and the new time; refuses a spent one or one without an open link, changing nothing. |
| Federation.FederationRouter.SendFederationEnvelope | p2p/src/federation.rs:255-277 | Appends exactly the envelope to the named link's channel and touches no other, or changes nothing, with the reason. |
| Federation.FederationRouter.FederationRelay | gateway/src/main.rs:1997-2040 | At its target an envelope is accepted if and only if it has hops to live; elsewhere it is forwarded if and only if it has hops to live and an open link, being appended to that channel with one hop less; in all other cases nothing is sent. |
| FederationRuns.EnvelopesAreConserved | p2p/src/federation.rs:177-227 | On any link graph, every envelope issued is in exactly one of in flight, accepted and refused. |
| FederationRuns.RelayedIsWhatWasSent | p2p/src/federation.rs:177-195 | What a relay puts in flight to a mesh is exactly what it appended to the channel to that mesh. |
| FederationRuns.ForwardedIsWhatWasSent | p2p/src/federation.rs:201-219 | A handled envelope moves on if and only if it has hops to live, an open link and is not dispatched where it belongs, and what is then in flight is exactly what was appended to that channel; otherwise nothing is sent. |
| FederationRuns.ForwardingKeepsContents | p2p/src/federation.rs:197-219 | After k forwards the TTL is the initial one minus k, and source, target and payload are unchanged. |
| FederationRuns.AcceptedAtTarget | p2p/src/federation.rs:87-88 | Every accepted envelope was accepted at its target, and one begun by `relay` after at most 7 forwards. |
| FederationRuns.NeverLinkedToSelf | p2p/src/federation.rs:111-113 | No reachable link table contains its own mesh. |
| FederationRuns.SpentEnvelopeIsRefused | gateway/src/main.rs:1997-2038 | At its target an envelope with no hops left is refused as misdirected, with no link to forward it on, and one with hops left is accepted. |
| FederationRuns.SelfLinkWouldForward | gateway/src/main.rs:2001-2015 | A link of the target to itself is the one thing that would make the gateway try to forward a spent envelope. |
| FederationRuns.ArrivedNeverBounces | gateway/src/main.rs:1997-2038 | Over whole runs no gateway tries to send on an envelope that has reached its target; each leaves the network there. |
| FederationRuns.HandlingDrains | p2p/src/federation.rs:197-219 | Handling any envelope strictly lowers the hops and envelopes in flight. |
| FederationRuns.RunsEnd | p2p/src/federation.rs:197-219 | Without new envelopes, on any changing graph with cycles, the number of handlings is bounded by what was pending. |
| FederationRuns.TrafficDiesOut | p2p/src/federation.rs:197-219 | That is at most 256 handlings per envelope issued. |
| Channel.LittleEndianRoundTrip | p2p/src/channel.rs:48 | A counter is read back from its little-endian bytes. |
| Channel.NonceLayout | p2p/src/channel.rs:46-48 | The prefix fills the first four bytes, and the other eight read back little-endian as the counter. |
| Channel.NonceIsInjective | p2p/src/channel.rs:40-50 | Nonces are twelve bytes and equal only for equal prefix and counter. |
| Channel.CounterNonce.Advance | p2p/src/channel.rs:40-50 | Gives the nonce of the current counter and steps it, or refuses and stays put at 2^64 - 1. |
| Channel.EncryptedChannel.New | p2p/src/channel.rs:113-129 | Succeeds exactly for 32 bytes of key, with both counters at 0 and opposite prefixes. |
| Channel.EncryptedChannel.Seal | p2p/src/channel.rs:132-138 | Seals under the next nonce of its own direction, or fails once exhausted. |
| Channel.EncryptedChannel.Open | p2p/src/channel.rs:141-148 | Opens only what was sealed under the next nonce of the other direction; a failure uses up the nonce. |
| Channel.NoncesNeverRepeat | p2p/src/channel.rs:110-129 | Over any interleaving of both ends no two seals use the same nonce, as section 2.8 of RFC 8439 requires. |
| Channel.SealsUntilExhausted | p2p/src/channel.rs:40-45 | An end seals exactly 2^64 - 1 times and is refused ever after. |
| Channel.OpensInLockstep | p2p/src/channel.rs:140-148 | The k-th open succeeds if and only if it is given the k-th message the peer sealed, and then returns its plaintext. |
| Channel.InOrderDeliveryIsLossless | p2p/src/channel.rs:131-148 | With in-order lossless delivery the i-th open returns the i-th sealed plaintext, at both ends. |
| Slug.OutputIsSlug | gateway/src/main.rs:411-425 | Every output consists of letters, digits and single inner hyphens. |
| Slug.AlphabetOfSlugs | gateway/src/main.rs:416-418 | The characters kept are exactly the ASCII lower-case letters and digits. |
| Slug.TrimMeans | gateway/src/main.rs:412-413 | Trimming takes off all white space at both ends and nothing else. |
| Slug.SlugIsFixed | gateway/src/main.rs:411-425 | Slugs are left alone. |
| Slug.OutputsAreExactlySlugs | gateway/src/main.rs:411-425 | The outputs are exactly the slugs. |
| Slug.SlugifyIsIdempotent | gateway/src/main.rs:411-425 | Slugifying twice is slugifying once. |
| Slug.SlugsAreJoinedSegments | gateway/src/main.rs:420-424 | Slugs are exactly the hyphen-joined sequences of nonempty runs of letters and digits. |
| Slug.JoinSplit | gateway/src/main.rs:421-424 | Joining with hyphens undoes splitting at hyphens. |
| Slug.SlugifyIsOnePass | gateway/src/main.rs:411-425 | Splitting, filtering and joining keeps every letter and digit of the trimmed lower-case text in order, with one hyphen exactly where others separated them, as a single pass would. |
| Social.IntegrityHolds | gateway/src/main.rs:427-745 | After any sequence of requests usernames and users index each other, memberships cover exactly the communities, owners are members, and creators and senders are still members of every community they addressed. |
| Social.RegisterMeans | gateway/src/main.rs:427-467 | After any requests a registration adds exactly one user, with the trimmed lower-cased name, the trimmed display name and a new id, if the name has 3 bytes and is free; otherwise it changes nothing. |
| Social.CreateMeans | gateway/src/main.rs:492-547 | Creating a community adds exactly that one, under the slug of the given slug or else of the name, with its owner as only member, if the owner is known and the slug is nonempty and free; otherwise it changes nothing. |
| Social.JoinMeans | gateway/src/main.rs:554-597 | Joining admits exactly that user to that community if both are known and it is open or the user owns it; otherwise it changes nothing. |
| Social.ScheduleMeans | gateway/src/main.rs:625-662 | A member's event is appended with all its fields; anyone else's changes nothing. |
| Social.AnnounceMeans | gateway/src/main.rs:687-745 | A broadcast is appended with all its fields if its sender is a member of every target, of which there is one; otherwise it changes nothing. |
| Social.JoinerTakesPart | gateway/src/main.rs:554-797 | Whoever joins then sees the community and all its events in the feed, and may schedule an event, which appears there. |
| Social.ShortNamesThatPass | gateway/src/main.rs:431-437 | Names of 3 characters pass; the shorter ones that do are exactly one character from 2048 up or two not both below 128. |
| Social.NothingIsForgotten | gateway/src/main.rs:427-745 | Whatever the store held at any point of a run, users, communities, memberships and items, is there unaltered at every later point. |
| Social.LookupNeverDangles | gateway/src/main.rs:475-488 | A username that is found names an existing user of that name, so the lookup never panics. |
| Social.InviteOnlyHasOwnerAlone | gateway/src/main.rs:579-589 | An invite-only community only ever has its owner as member. |
| Social.SlugsStayDistinct | gateway/src/main.rs:507-534 | All stored slugs are nonempty, well formed and pairwise distinct. |
| Social.NoBadTargetMeans | gateway/src/main.rs:711-733 | A broadcast passes the check exactly when the sender is a member of every target. |
| Social.ReportsFirstBadTarget | gateway/src/main.rs:711-733 | The error names the first target that is missing or not joined, and which of the two it is. |
| Social.FeedIsExact | gateway/src/main.rs:767-790 | A feed is exactly the user's communities, the events in them, and the broadcasts to at least one of them. |
| Social.FeedNeedsUser | gateway/src/main.rs:757-765 | A feed is given for exactly the known users. |
| Social.FeedIncludesOwn | gateway/src/main.rs:767-790 | It always includes what the user owns, created and sent. |
| Social.FeedIsInOrder | gateway/src/main.rs:778-790 | Events and broadcasts appear once each in the order they were made. |
| Social.SocialStore.Register | gateway/src/main.rs:427-467 | Refuses short or taken usernames and otherwise adds exactly one user under a new id. |
| Social.SocialStore.GetUserByUsername | gateway/src/main.rs:469-490 | Finds the user whose stored name is the lower-cased request. |
| Social.SocialStore.Create | gateway/src/main.rs:492-547 | Refuses unknown owners, empty and taken slugs, and otherwise adds one community with its owner as first member. |
| Social.SocialStore.Join | gateway/src/main.rs:554-597 | Adds one member, or refuses with the first failing check. |
| Social.SocialStore.Schedule | gateway/src/main.rs:625-662 | Appends one event by a member, or refuses. |
| Social.SocialStore.Announce | gateway/src/main.rs:687-745 | Appends one broadcast, or refuses with the first target that is missing or not joined. |

## Left out

- Unsigned 64-bit overflow of clock ticks and store ids: naturals stand in for them. The nonce counter, whose overflow the code handles, is modelled exactly.
- Event bus emissions, logging, serialization and HTTP status codes: they carry no state. JSON payloads and values are opaque strings with equality.
- Locks, bounded channel buffers and timers: each section that holds a lock is one atomic step. In the gateway's relay decision a link removed between the check and the forward is not modelled.
- `InitiatePullAll` and `HandleMessage`: a peer removed while a round is under way is not modelled.
- Removing registry entries in the gossip runs: there are no tombstones, so removal is not meant to converge.
- `list_entries`, `list_events`, `list_community_members` and the registry's search functions: filters over tables the model already describes.
- What the gateway does with an accepted federation envelope: parsing and dispatching it is not part of this model.
- Key agreement, ChaCha20-Poly1305, `p2p/src/crypto.rs` and `p2p/src/auth.rs`: foreign cryptography, replaced by the ideal AEAD.
- Matchmaking, room membership, signalling, relay wrappers and node wiring: single-branch bookkeeping.
- Validation against schemas: it delegates to other libraries.
