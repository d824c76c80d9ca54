/**
 N replicas of one room exchanging writes over a network that may lose, delay, duplicate
 and reorder (`RoomStateSync` in `p2p/src/room_state.rs`).

 Hypotheses, each a guard of a step below:
  - an agent writes only at a replica that has caught up with its earlier writes, as one that it
    keeps to always has while no room is removed;
  - a write's stamp beats the stamp of the entry it overwrites, as it does whenever the local
    clock reads later than every timestamp held;
  - a message is applied only by a replica whose clock has its floor: for a delta the clock it was
    built against, for a write sent on its own the clock it was made on; a snapshot has none.
 What needs only the first is in `CausalRuns`, whose runs include these.
 */
module Replication {
  import opened Times
  import opened Clocks
  import opened Rooms
  import opened RoomLaws
  import opened History
  import opened Causality

  datatype Message =
    | Delta(since: Clock, sentAt: Clock, entries: seq<Entry>)
    | Broadcast(prior: Clock, entry: Entry)
    | Snapshot(clock: Clock, contents: map<Key, Entry>)

  /** The replicas as in `Causality`, and the messages that have been sent. */
  datatype World = World(rooms: seq<Room>, seen: seq<set<Entry>>, past: map<Entry, set<Entry>>, network: set<Message>)

  /** `Answer` builds a delta against a clock that some replica has sent, or any other. */
  datatype Step =
    | Write(at: nat, agent: Agent, key: Key, value: Value, now: Time)
    | Answer(at: nat, since: Clock, listing: seq<Entry>)
    | TakeSnapshot(at: nat)
    | Deliver(at: nat, message: Message, order: seq<Entry>)
    | Forget(at: nat)

  ghost function Core(w: World): Replicas {
    Replicas(w.rooms, w.seen, w.past)
  }

  ghost function WithCore(w: World, s: Replicas): World {
    w.(rooms := s.rooms, seen := s.seen, past := s.past)
  }

  ghost function Init(n: nat): World {
    var s := Start(n);
    World(s.rooms, s.seen, s.past, {})
  }

  ghost predicate Enabled(w: World, step: Step)
    requires |w.seen| == |w.rooms|
  {
    && step.at < |w.rooms|
    && match step
       case Write(at, agent, key, value, now) =>
         && CaughtUp(Core(w), agent, at)
         && (key in w.rooms[at].entries ==>
               Newer(Written(w.rooms[at], agent, key, value, now), w.rooms[at].entries[key]))
       case Answer(at, since, listing) => Lists(listing, Rooms.Delta(w.rooms[at], since))
       case TakeSnapshot(at) => true
       case Forget(at) => true
       case Deliver(at, message, order) =>
         && message in w.network && Leq(Floor(message), w.rooms[at].clock)
         && match message
            case Delta(since, sentAt, entries) => order == entries
            case Broadcast(prior, entry) => order == [entry]
            case Snapshot(clock, contents) => Lists(order, contents)
  }

  /** The clock a replica needs before it applies a message. */
  ghost function Floor(m: Message): Clock {
    match m
    case Delta(since, sentAt, entries) => since
    case Broadcast(prior, entry) => prior
    case Snapshot(clock, contents) => map[]
  }

  /** The entry a writing step builds. */
  ghost function NewEntry(w: World, step: Step): Entry
    requires step.Write? && step.at < |w.rooms|
  {
    Written(w.rooms[step.at], step.agent, step.key, step.value, step.now)
  }

  ghost function Do(w: World, step: Step): World
    requires |w.seen| == |w.rooms| && Enabled(w, step)
    ensures |Do(w, step).seen| == |Do(w, step).rooms| == |w.rooms|
  {
    match step
    case Write(at, _, _, _, _) =>
      var e := NewEntry(w, step);
      WithCore(w, WriteAt(Core(w), at, e)).(network := w.network + {Broadcast(w.rooms[at].clock, e)})
    case Answer(at, since, listing) =>
      w.(network := w.network + {Delta(since, w.rooms[at].clock, listing)})
    case TakeSnapshot(at) =>
      w.(network := w.network + {Snapshot(w.rooms[at].clock, w.rooms[at].entries)})
    case Deliver(at, message, order) => WithCore(w, Receive(Core(w), at, order))
    case Forget(at) => WithCore(w, Causality.Forget(Core(w), at))
  }

  ghost predicate Legal(w: World, steps: seq<Step>)
    requires |w.seen| == |w.rooms|
    decreases |steps|
  {
    steps != [] ==> Enabled(w, steps[0]) && Legal(Do(w, steps[0]), steps[1..])
  }

  ghost function Exec(w: World, steps: seq<Step>): World
    requires |w.seen| == |w.rooms| && Legal(w, steps)
    ensures |Exec(w, steps).seen| == |Exec(w, steps).rooms| == |w.rooms|
    decreases |steps|
  {
    if steps == [] then w else Exec(Do(w, steps[0]), steps[1..])
  }

  /** A world some legal run of `n` replicas leads to. */
  ghost predicate Reachable(w: World) {
    exists n: nat, steps :: Legal(Init(n), steps) && Exec(Init(n), steps) == w
  }

  // ---------------------------------------------------------------------------
  // The invariant
  // ---------------------------------------------------------------------------

  ghost function Writes(w: World): set<Entry> {
    w.past.Keys
  }

  ghost predicate StampsOk(w: World) {
    Coherent(Writes(w)) && forall j :: 0 <= j < |w.rooms| ==> Determined(Writes(w), w.rooms[j])
  }

  ghost function Upto(m: Message): Clock {
    match m
    case Delta(since, sentAt, entries) => sentAt
    case Broadcast(prior, entry) => entry.clock
    case Snapshot(clock, contents) => clock
  }

  ghost function Payload(m: Message): set<Entry> {
    match m
    case Delta(since, sentAt, entries) => set e | e in entries
    case Broadcast(prior, entry) => {entry}
    case Snapshot(clock, contents) => set k | k in contents :: contents[k]
  }

  ghost predicate MessageOk(w: World, m: Message) {
    && Carries(Writes(w), Floor(m), Upto(m), Payload(m))
    && ClockOk(Core(w), Upto(m))
    && (m.Broadcast? ==> m.entry.clock == Ticked(m.prior, m.entry.author) && Grounded(Writes(w), m.prior))
  }

  ghost predicate NetworkOk(w: World) {
    forall m :: m in w.network ==> MessageOk(w, m)
  }

  ghost predicate Inv(w: World) {
    Ok(Core(w)) && StampsOk(w) && NetworkOk(w)
  }

  // ---------------------------------------------------------------------------
  // Writing
  // ---------------------------------------------------------------------------

  lemma WriteStep(w: World, step: Step)
    requires Inv(w) && step.Write? && Enabled(w, step)
    ensures CanWrite(Core(w), step.at, NewEntry(w, step))
    ensures Core(Do(w, step)) == WriteAt(Core(w), step.at, NewEntry(w, step))
    ensures Do(w, step).network == w.network + {Broadcast(w.rooms[step.at].clock, NewEntry(w, step))}
    ensures Writes(Do(w, step)) == Writes(w) + {NewEntry(w, step)}
  {
    assert |w.seen| == |w.rooms|;
    hide Ok, StampsOk, NetworkOk;
  }

  /** What the writing replica and the writes so far satisfy before a write. */
  lemma WriterFacts(w: World, step: Step)
    requires Inv(w) && step.Write? && Enabled(w, step)
    ensures var e, r := NewEntry(w, step), w.rooms[step.at];
      && Coherent(Writes(w)) && Determined(Writes(w), r) && e.clock == Ticked(r.clock, e.author)
      && (e.key in r.entries ==> Newer(e, r.entries[e.key]))
      && forall v :: v in Writes(w) ==> Get(v.clock, e.author) <= Get(r.clock, e.author)
  {
    assert Determined(Writes(w), w.rooms[step.at]);
    WriteStep(w, step);
    hide Coherent, Determined, Ok;
    WriterAheadOfWrites(Core(w), step.at, NewEntry(w, step));
  }

  lemma WriteKeepsCoherence(w: World, step: Step)
    requires Inv(w) && step.Write? && Enabled(w, step)
    ensures Coherent(Writes(Do(w, step)))
  {
    WriteStep(w, step);
    WriterFacts(w, step);
    hide Inv, Coherent, Determined;
    WriteCoherent(Writes(w), w.rooms[step.at], NewEntry(w, step));
  }

  lemma WriteKeepsRoom(w: World, step: Step, j: nat)
    requires Inv(w) && step.Write? && Enabled(w, step) && j < |w.rooms|
    ensures Determined(Writes(Do(w, step)), Do(w, step).rooms[j])
  {
    var e := NewEntry(w, step);
    WriteStep(w, step);
    assert Determined(Writes(w), w.rooms[j]);
    if j == step.at {
      WriterFacts(w, step);
      hide Inv, Coherent, Determined;
      WriterDetermined(Writes(w), w.rooms[j], e);
    } else {
      OkRoom(Core(w), j);
      hide Inv, Coherent, Determined, Closed, Grounded, CanWrite;
      WriterAhead(Core(w), step.at, e, w.rooms[j].clock);
      OthersDetermined(Writes(w), w.rooms[j], e);
    }
  }

  lemma WriteKeepsStamps(w: World, step: Step)
    requires Inv(w) && step.Write? && Enabled(w, step)
    ensures StampsOk(Do(w, step))
  {
    WriteKeepsCoherence(w, step);
    forall j | 0 <= j < |w.rooms| ensures Determined(Writes(Do(w, step)), Do(w, step).rooms[j]) {
      WriteKeepsRoom(w, step, j);
    }
  }

  lemma BroadcastOk(w: World, step: Step)
    requires Inv(w) && step.Write? && Enabled(w, step)
    ensures MessageOk(Do(w, step), Broadcast(w.rooms[step.at].clock, NewEntry(w, step)))
  {
    var e, r := NewEntry(w, step), w.rooms[step.at];
    hide Grounded;
    WriteStep(w, step);
    WriterFacts(w, step);
    OkRoom(Core(w), step.at);
    BroadcastCarries(Writes(w), r, e);
    hide Coherent, Determined, Carries, ClockOk;
    CompareIsPartialOrder(e.clock, e.clock, r.clock);
    CompareIsPartialOrder(r.clock, r.clock, r.clock);
    NewClockOk(Core(w), step.at, e, e.clock);
    GroundedIn(Writes(w), Writes(w) + {e}, r.clock, r.clock);
  }

  lemma SentStaysOk(w: World, step: Step, m: Message)
    requires Inv(w) && step.Write? && Enabled(w, step) && m in w.network
    ensures MessageOk(Do(w, step), m)
  {
    var e := NewEntry(w, step);
    assert MessageOk(w, m);
    WriteStep(w, step);
    OkPart(w);
    hide Inv, Grounded, Closed, Carries, Do, Enabled, CanWrite;
    WriterAhead(Core(w), step.at, e, Upto(m));
    StillCarries(Writes(w), Floor(m), Upto(m), Payload(m), e);
    ClockStaysOk(Core(w), step.at, e, Upto(m));
    if m.Broadcast? {
      CompareIsPartialOrder(m.prior, m.prior, m.prior);
      GroundedIn(Writes(w), Writes(w) + {e}, m.prior, m.prior);
    }
  }

  lemma OkPart(w: World)
    requires Inv(w)
    ensures Ok(Core(w)) && |w.seen| == |w.rooms|
  {
  }

  lemma WriteKeepsInv(w: World, step: Step)
    requires Inv(w) && step.Write? && Enabled(w, step)
    ensures Inv(Do(w, step))
  {
    hide Ok, StampsOk, MessageOk, Do, WriteAt, CanWrite;
    OkPart(w);
    WriteStep(w, step);
    WriteKeepsOk(Core(w), step.at, NewEntry(w, step));
    WriteKeepsStamps(w, step);
    forall m | m in Do(w, step).network ensures MessageOk(Do(w, step), m) {
      if m in w.network {
        SentStaysOk(w, step, m);
      } else {
        BroadcastOk(w, step);
      }
    }
  }

  // ---------------------------------------------------------------------------
  // Delivering
  // ---------------------------------------------------------------------------

  lemma SnapshotOrder(contents: map<Key, Entry>, order: seq<Entry>)
    requires Lists(order, contents)
    ensures (set e | e in order) == set k | k in contents :: contents[k]
  {
    forall k | k in contents ensures contents[k] in order {
    }
    forall e | e in order ensures e.key in contents && contents[e.key] == e {
    }
  }

  lemma DeliverOrder(w: World, step: Step)
    requires |w.seen| == |w.rooms| && step.Deliver? && Enabled(w, step)
    ensures (set e | e in step.order) == Payload(step.message)
  {
    match step.message
    case Delta(_, _, _) =>
    case Broadcast(_, entry) => assert (set e | e in [entry]) == {entry};
    case Snapshot(_, contents) => SnapshotOrder(contents, step.order);
  }

  lemma DeliverFacts(w: World, step: Step)
    requires Inv(w) && step.Deliver? && Enabled(w, step)
    ensures (set e | e in step.order) == Payload(step.message) && MessageOk(w, step.message)
    ensures CanReceive(Core(w), step.at, step.order)
    ensures Core(Do(w, step)) == Receive(Core(w), step.at, step.order)
    ensures Leq(Floor(step.message), w.rooms[step.at].clock)
    ensures Coherent(Writes(w)) && Determined(Writes(w), w.rooms[step.at])
  {
    assert MessageOk(w, step.message);
    hide Ok, Coherent, Determined, ClockOk;
    DeliverOrder(w, step);
  }

  lemma StampsPart(w: World)
    requires Inv(w)
    ensures StampsOk(w)
  {
  }

  lemma DeliverKeepsStamps(w: World, step: Step)
    requires Inv(w) && step.Deliver? && Enabled(w, step)
    ensures StampsOk(Do(w, step))
  {
    hide Inv, Ok, NetworkOk, Coherent, Determined, Carries, ClockOk, Grounded;
    StampsPart(w);
    DeliverFacts(w, step);
    Delivery(Writes(w), w.rooms[step.at], step.order, Floor(step.message), Upto(step.message));
  }

  lemma DeliverKeepsInv(w: World, step: Step)
    requires Inv(w) && step.Deliver? && Enabled(w, step)
    ensures Inv(Do(w, step))
  {
    hide Ok, StampsOk, Coherent, Determined, Carries, Grounded, Closed;
    DeliverFacts(w, step);
    DeliverKeepsStamps(w, step);
    ReceiveKeepsOk(Core(w), step.at, step.order);
    forall m | m in Do(w, step).network ensures MessageOk(Do(w, step), m) {
      assert MessageOk(w, m);
    }
  }

  // ---------------------------------------------------------------------------
  // Forgetting
  // ---------------------------------------------------------------------------

  lemma ForgetKeepsInv(w: World, step: Step)
    requires Inv(w) && step.Forget? && Enabled(w, step)
    ensures Inv(Do(w, step))
  {
    hide Ok, Carries, Grounded, Closed, Coherent, Determined;
    OkPart(w);
    ForgetKeepsOk(Core(w), step.at);
    EmptyIsDetermined(Writes(w)) by {
      CausalPart(w);
    }
    forall m | m in Do(w, step).network ensures MessageOk(Do(w, step), m) {
      assert MessageOk(w, m);
    }
  }

  lemma CausalPart(w: World)
    requires Inv(w)
    ensures Causal(Writes(w))
  {
    hide Ok, NetworkOk;
  }

  // ---------------------------------------------------------------------------
  // Sending
  // ---------------------------------------------------------------------------

  /** Building a message changes no replica, and what is sent is all the receiver needs. */
  lemma SendKeepsInv(w: World, step: Step)
    requires Inv(w) && (step.Answer? || step.TakeSnapshot?) && Enabled(w, step)
    ensures Inv(Do(w, step))
  {
    var w', r := Do(w, step), w.rooms[step.at];
    assert Determined(Writes(w), r);
    OkRoom(Core(w), step.at);
    assert Core(w') == Core(w);
    CompareIsPartialOrder(r.clock, r.clock, r.clock);
    hide Ok, Coherent, Determined, Carries, Sound, Grounded, Closed;
    forall m | m in w'.network ensures MessageOk(w', m) {
      if m in w.network {
        assert MessageOk(w, m);
      } else if step.Answer? {
        DeltaCarries(Writes(w), r, step.since, step.listing);
      } else {
        SnapshotCarries(Writes(w), r);
      }
    }
  }

  // ---------------------------------------------------------------------------
  // Runs
  // ---------------------------------------------------------------------------

  lemma StepKeepsInv(w: World, step: Step)
    requires Inv(w) && Enabled(w, step)
    ensures Inv(Do(w, step))
  {
    match step
    case Write(_, _, _, _, _) => WriteKeepsInv(w, step);
    case Deliver(_, _, _) => DeliverKeepsInv(w, step);
    case Answer(_, _, _) => SendKeepsInv(w, step);
    case TakeSnapshot(_) => SendKeepsInv(w, step);
    case Forget(_) => ForgetKeepsInv(w, step);
  }

  lemma {:induction false} RunKeepsInv(w: World, steps: seq<Step>)
    requires Inv(w) && Legal(w, steps)
    ensures Inv(Exec(w, steps))
    decreases |steps|
  {
    if steps != [] {
      StepKeepsInv(w, steps[0]);
      RunKeepsInv(Do(w, steps[0]), steps[1..]);
    }
  }

  lemma ReachableInv(w: World)
    requires Reachable(w)
    ensures Inv(w)
  {
    var n: nat, steps :| Legal(Init(n), steps) && Exec(Init(n), steps) == w;
    assert Inv(Init(n));
    RunKeepsInv(Init(n), steps);
  }

  lemma ReachableRoom(w: World, j: nat)
    requires Reachable(w) && j < |w.rooms|
    ensures |w.seen| == |w.rooms|
    ensures Coherent(Writes(w)) && DistinctClocks(Writes(w)) && Determined(Writes(w), w.rooms[j])
    ensures w.seen[j] == Below(Writes(w), w.rooms[j].clock)
  {
    ReachableInv(w);
    hide Grounded;
    OkRoom(Core(w), j);
  }

  /** A room determined by its clock once stays so under all writes still to come. */
  lemma {:induction false} StaysDetermined(w: World, steps: seq<Step>, r: Room)
    requires Inv(w) && Legal(w, steps) && Determined(Writes(w), r) && ClockOk(Core(w), r.clock)
    ensures Coherent(Writes(Exec(w, steps))) && Determined(Writes(Exec(w, steps)), r)
    decreases |steps|
  {
    if steps == [] {
      hide Ok, NetworkOk, Determined, Grounded, Closed;
    } else {
      StepKeepsDetermined(w, steps[0], r);
      StepKeepsInv(w, steps[0]);
      hide Inv, Determined, ClockOk, Coherent;
      StaysDetermined(Do(w, steps[0]), steps[1..], r);
    }
  }

  lemma StepKeepsDetermined(w: World, step: Step, r: Room)
    requires Inv(w) && Enabled(w, step) && Determined(Writes(w), r) && ClockOk(Core(w), r.clock)
    ensures Determined(Writes(Do(w, step)), r) && ClockOk(Core(Do(w, step)), r.clock)
  {
    OkPart(w);
    hide Inv, Ok, Grounded, Closed, Determined, CaughtUp;
    if step.Write? {
      var e := NewEntry(w, step);
      WriteStep(w, step);
      WriterAhead(Core(w), step.at, e, r.clock);
      OthersDetermined(Writes(w), r, e);
      ClockStaysOk(Core(w), step.at, e, r.clock);
    }
  }

  // ---------------------------------------------------------------------------
  // That the hypotheses can be kept
  // ---------------------------------------------------------------------------

  /** A step in which agents write at their homes and no room is removed. */
  predicate AtHome(step: Step, home: Agent -> nat) {
    !step.Forget? && (step.Write? ==> step.at == home(step.agent))
  }

  lemma HomesKept(w: World, step: Step, home: Agent -> nat)
    requires Inv(w) && Enabled(w, step) && AtHome(step, home) && HomesCaughtUp(Core(w), home)
    ensures HomesCaughtUp(Core(Do(w, step)), home)
  {
    OkPart(w);
    if step.Write? {
      WriteStep(w, step);
      hide Inv, Ok, HomesCaughtUp, Do, CanWrite;
      WriteKeepsHomes(Core(w), home, step.at, NewEntry(w, step));
    } else if step.Deliver? {
      DeliverFacts(w, step);
      hide Inv, Ok, HomesCaughtUp, Do;
      ReceiveKeepsHomes(Core(w), home, step.at, step.order);
    }
  }

  lemma {:induction false} HomesStayCaughtUp(w: World, steps: seq<Step>, home: Agent -> nat)
    requires Inv(w) && Legal(w, steps) && HomesCaughtUp(Core(w), home)
    requires forall i :: 0 <= i < |steps| ==> AtHome(steps[i], home)
    ensures HomesCaughtUp(Core(Exec(w, steps)), home)
    decreases |steps|
  {
    if steps != [] {
      StepKeepsInv(w, steps[0]);
      HomesKept(w, steps[0], home);
      hide Inv, HomesCaughtUp;
      HomesStayCaughtUp(Do(w, steps[0]), steps[1..], home);
    }
  }

  lemma {:induction false} ClocksOnlyGrow(w: World, steps: seq<Step>, j: nat)
    requires Inv(w) && Legal(w, steps) && j < |w.rooms|
    requires forall i :: 0 <= i < |steps| ==> !steps[i].Forget?
    ensures |Exec(w, steps).rooms| == |w.rooms| && Leq(w.rooms[j].clock, Exec(w, steps).rooms[j].clock)
    decreases |steps|
  {
    if steps == [] {
      CompareIsPartialOrder(w.rooms[j].clock, w.rooms[j].clock, w.rooms[j].clock);
    } else {
      StepKeepsInv(w, steps[0]);
      ClockGrows(w, steps[0], j);
      hide Inv;
      ClocksOnlyGrow(Do(w, steps[0]), steps[1..], j);
      LeqTransitive(w.rooms[j].clock, Do(w, steps[0]).rooms[j].clock, Exec(w, steps).rooms[j].clock);
    }
  }

  lemma RoomPart(w: World, j: nat)
    requires Inv(w) && j < |w.rooms|
    ensures WellFormed(w.rooms[j])
  {
    hide Ok, NetworkOk, Coherent;
    assert Determined(Writes(w), w.rooms[j]);
  }

  lemma ClockGrows(w: World, step: Step, j: nat)
    requires Inv(w) && Enabled(w, step) && !step.Forget? && j < |w.rooms|
    ensures Leq(w.rooms[j].clock, Do(w, step).rooms[j].clock)
  {
    hide Inv, Grounded, Closed;
    RoomPart(w, j);
    CompareIsPartialOrder(w.rooms[j].clock, w.rooms[j].clock, w.rooms[j].clock);
    if j == step.at && step.Write? {
      ApplyKeepsWellFormed(w.rooms[j], NewEntry(w, step));
      hide Apply, WellFormed, Leq, CaughtUp;
    } else if j == step.at && step.Deliver? {
      AggregateClockLaw(w.rooms[j], step.order);
      hide ApplyAll, WellFormed;
    }
  }

  /**
   From a fresh start, while each agent keeps to one replica and no room is removed, any agent's
   replica has caught up with it.
   */
  lemma HomeIsCaughtUp(n: nat, steps: seq<Step>, home: Agent -> nat, agent: Agent)
    requires Legal(Init(n), steps) && home(agent) < n
    requires forall i :: 0 <= i < |steps| ==> AtHome(steps[i], home)
    ensures |Exec(Init(n), steps).rooms| == n && CaughtUp(Core(Exec(Init(n), steps)), agent, home(agent))
  {
    assert Inv(Init(n));
    hide Inv;
    HomesStayCaughtUp(Init(n), steps, home);
    ClocksOnlyGrow(Init(n), steps, home(agent));
  }

  /**
   While a replica does not remove the room it keeps the floor of every delta built against its
   clock: such a delta may be applied however late, however often and in any order.
   */
  lemma RequestedDeltaHasFloor(w: World, steps: seq<Step>, j: nat, sentAt: Clock, entries: seq<Entry>)
    requires Reachable(w) && |w.seen| == |w.rooms| && Legal(w, steps) && j < |w.rooms|
    requires forall i :: 0 <= i < |steps| ==> !steps[i].Forget?
    requires Delta(w.rooms[j].clock, sentAt, entries) in Exec(w, steps).network
    ensures j < |Exec(w, steps).rooms|
    ensures Enabled(Exec(w, steps), Deliver(j, Delta(w.rooms[j].clock, sentAt, entries), entries))
  {
    ReachableInv(w);
    hide Inv;
    ClocksOnlyGrow(w, steps, j);
  }
}
