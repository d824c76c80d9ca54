/**
 Runs of replicas that write with any timestamps and send each other any entries they have come
 by (`p2p/src/room_state.rs`): clocks decide exactly the causal order that entries carry, and that
 is the order of messages exactly when every delivery brings the sender's whole clock.
 */
module CausalRuns {
  import opened Times
  import opened Clocks
  import opened Rooms
  import opened RoomLaws
  import opened History
  import opened Causality

  /**
   Any message: a delta, a snapshot, a write sent on its own or any other selection of entries.
   `clock` is the sender's room clock and `heard` all it had heard of; no step of a replica reads them.
   */
  datatype Packet = Packet(entries: set<Entry>, clock: Clock, heard: set<Entry>)

  /**
   `heard` is the usual causal history of each replica: a message brings all that its sender had
   heard of, and a re-created room has heard of nothing.  `before` maps every write to its
   author's history at that point, itself included.
   */
  datatype World = World(
    core: Replicas, heard: seq<set<Entry>>, before: map<Entry, set<Entry>>, wire: set<Packet>)

  datatype Step =
    | Write(at: nat, agent: Agent, key: Key, value: Value, now: Time)
    | Send(at: nat, entries: set<Entry>)
    | Deliver(at: nat, packet: Packet, order: seq<Entry>)
    | Forget(at: nat)

  function Init(n: nat): World {
    World(Start(n), seq(n, _ => {}), map[], {})
  }

  predicate Sized(w: World) {
    |w.core.seen| == |w.core.rooms| == |w.heard|
  }

  ghost predicate Enabled(w: World, step: Step) {
    && Sized(w) && step.at < |w.core.rooms|
    && match step
       case Write(at, agent, key, value, now) => CaughtUp(w.core, agent, at)
       case Send(at, entries) => entries <= w.core.seen[at]
       case Deliver(at, packet, order) => packet in w.wire && (set e | e in order) == packet.entries
       case Forget(at) => true
  }

  ghost function Do(w: World, step: Step): World
    requires Enabled(w, step)
  {
    match step
    case Write(at, agent, key, value, now) =>
      var e := Written(w.core.rooms[at], agent, key, value, now);
      w.(core := WriteAt(w.core, at, e),
         heard := w.heard[at := w.heard[at] + {e}],
         before := w.before[e := w.heard[at] + {e}])
    case Send(at, entries) =>
      w.(wire := w.wire + {Packet(entries, w.core.rooms[at].clock, w.heard[at])})
    case Deliver(at, packet, order) =>
      w.(core := Receive(w.core, at, order), heard := w.heard[at := w.heard[at] + packet.heard])
    case Forget(at) => w.(core := Causality.Forget(w.core, at), heard := w.heard[at := {}])
  }

  /** The worlds a run goes through, one more than its steps. */
  ghost predicate Run(ws: seq<World>, steps: seq<Step>) {
    && |ws| == |steps| + 1
    && (exists n: nat :: ws[0] == Init(n))
    && forall i :: 0 <= i < |steps| ==> Enabled(ws[i], steps[i]) && ws[i + 1] == Do(ws[i], steps[i])
  }

  ghost predicate Reachable(w: World) {
    exists ws, steps :: Run(ws, steps) && ws[|steps|] == w
  }

  // ---------------------------------------------------------------------------
  // The invariant
  // ---------------------------------------------------------------------------

  ghost predicate PacketOk(w: World, p: Packet) {
    && ClockOk(w.core, p.clock)
    && p.entries <= Below(Made(w.core), p.clock) <= p.heard
  }

  ghost predicate HeardOk(w: World)
    requires Sized(w)
  {
    && (forall j :: 0 <= j < |w.heard| ==> w.core.seen[j] <= w.heard[j])
    && w.before.Keys == w.core.past.Keys
    && (forall e :: e in w.before ==> w.core.past[e] <= w.before[e])
  }

  ghost predicate Inv(w: World) {
    && Sized(w) && Ok(w.core) && HeardOk(w)
    && forall p :: p in w.wire ==> PacketOk(w, p)
  }

  lemma CoreStep(w: World, step: Step)
    requires Sized(w) && Ok(w.core) && Enabled(w, step)
    requires forall p :: p in w.wire ==> PacketOk(w, p)
    ensures Ok(Do(w, step).core)
    ensures step.Write? ==>
      CanWrite(w.core, step.at, Written(w.core.rooms[step.at], step.agent, step.key, step.value, step.now))
    ensures step.Deliver? ==> CanReceive(w.core, step.at, step.order)
  {
    hide Ok;
    match step
    case Write(at, agent, key, value, now) =>
      WriteKeepsOk(w.core, at, Written(w.core.rooms[at], agent, key, value, now));
    case Send(_, _) =>
    case Deliver(at, packet, order) =>
      assert PacketOk(w, packet);
      ReceiveKeepsOk(w.core, at, order);
    case Forget(at) => ForgetKeepsOk(w.core, at);
  }

  lemma ClockSurvives(w: World, step: Step, c: Clock)
    requires Inv(w) && Enabled(w, step) && ClockOk(w.core, c)
    ensures ClockOk(Do(w, step).core, c)
    ensures Below(Made(Do(w, step).core), c) == Below(Made(w.core), c)
  {
    CoreStep(w, step);
    hide Ok, Grounded, Closed;
    match step
    case Write(at, agent, key, value, now) =>
      ClockStaysOk(w.core, at, Written(w.core.rooms[at], agent, key, value, now), c);
    case Send(_, _) =>
    case Deliver(_, _, _) =>
    case Forget(_) =>
  }

  lemma SentOk(w: World, step: Step)
    requires Inv(w) && step.Send? && Enabled(w, step)
    ensures PacketOk(Do(w, step), Packet(step.entries, w.core.rooms[step.at].clock, w.heard[step.at]))
  {
    OkRoom(w.core, step.at);
  }

  lemma WireKept(w: World, step: Step, p: Packet)
    requires Inv(w) && Enabled(w, step) && p in Do(w, step).wire
    ensures PacketOk(Do(w, step), p)
  {
    if p in w.wire {
      assert PacketOk(w, p);
      hide Ok, ClockOk;
      ClockSurvives(w, step, p.clock);
    } else {
      SentOk(w, step);
    }
  }

  lemma DeliveredHeard(w: World, step: Step)
    requires Inv(w) && step.Deliver? && Enabled(w, step)
    ensures Receive(w.core, step.at, step.order).seen[step.at] <= w.heard[step.at] + step.packet.heard
  {
    hide Grounded, Closed, Causal, DistinctClocks;
    assert PacketOk(w, step.packet);
    forall v | v in PastOf(w.core.past, step.order) ensures v in step.packet.heard {
      var e :| e in step.order && e in w.core.past && v in w.core.past[e];
      assert e in step.packet.entries;
      OkWrite(w.core, e);
      hide Ok, ClockOk;
      LeqTransitive(v.clock, e.clock, step.packet.clock);
      assert v in Below(Made(w.core), step.packet.clock);
    }
  }

  lemma HeardKept(w: World, step: Step)
    requires Inv(w) && Enabled(w, step)
    ensures Sized(Do(w, step)) && HeardOk(Do(w, step))
  {
    hide Ok, PacketOk, Apply, ApplyAll;
    if step.Deliver? {
      DeliveredHeard(w, step);
    }
  }

  lemma StepKeepsInv(w: World, step: Step)
    requires Inv(w) && Enabled(w, step)
    ensures Inv(Do(w, step))
  {
    CoreStep(w, step);
    HeardKept(w, step);
    hide Ok, HeardOk, PacketOk, Do;
    forall p | p in Do(w, step).wire ensures PacketOk(Do(w, step), p) {
      WireKept(w, step, p);
    }
  }

  lemma {:induction false} RunInv(ws: seq<World>, steps: seq<Step>, i: nat)
    requires Run(ws, steps) && i <= |steps|
    ensures Inv(ws[i])
  {
    if i == 0 {
      assert Inv(ws[0]);
    } else {
      RunInv(ws, steps, i - 1);
      StepKeepsInv(ws[i - 1], steps[i - 1]);
    }
  }

  lemma ReachableInv(w: World)
    requires Reachable(w)
    ensures Inv(w)
  {
    var ws, steps :| Run(ws, steps) && ws[|steps|] == w;
    RunInv(ws, steps, |steps|);
  }

  // ---------------------------------------------------------------------------
  // The order that entries carry
  // ---------------------------------------------------------------------------

  /** In every reachable world the writes a write's clock covers are those its author had incorporated. */
  lemma PastIsCovered(w: World, e: Entry)
    requires Reachable(w) && e in Made(w.core)
    ensures Causal(Made(w.core)) && DistinctClocks(Made(w.core))
    ensures w.core.past[e] == Below(Made(w.core), e.clock)
  {
    ReachableInv(w);
    OkWrite(w.core, e);
  }

  /**
   In every reachable world, whatever the wall clocks read and whatever was delivered to whom,
   comparing the clocks of two writes tells exactly which of them the other's author had
   incorporated, and equal clocks mean the same write.
   */
  lemma ClocksDecideCausality(w: World, x: Entry, y: Entry)
    requires Reachable(w) && x in Made(w.core) && y in Made(w.core)
    ensures Compare(x.clock, y.clock) == Equal <==> x == y
    ensures Compare(x.clock, y.clock) == Before <==> x in w.core.past[y] && x != y
    ensures Compare(x.clock, y.clock) == After <==> y in w.core.past[x] && x != y
    ensures Compare(x.clock, y.clock) == Concurrent <==> x !in w.core.past[y] && y !in w.core.past[x]
  {
    PastIsCovered(w, x);
    PastIsCovered(w, y);
    CompareIsPartialOrder(x.clock, y.clock, x.clock);
    assert Leq(x.clock, y.clock) <==> x in w.core.past[y];
    assert Leq(y.clock, x.clock) <==> y in w.core.past[x];
  }

  /** One component suffices: a write has been incorporated exactly when its own tick has been reached. */
  lemma OwnTickSuffices(w: World, x: Entry, y: Entry, j: nat)
    requires Reachable(w) && x in Made(w.core) && y in Made(w.core) && j < |w.core.rooms| == |w.core.seen|
    ensures WriteTick(x) <= Get(w.core.rooms[j].clock, x.author) <==> x in w.core.seen[j]
    ensures Leq(x.clock, w.core.rooms[j].clock) <==> x in w.core.seen[j]
    ensures WriteTick(x) <= Get(y.clock, x.author) <==> x in w.core.past[y]
  {
    ReachableInv(w);
    OkRoom(w.core, j);
    OkWrite(w.core, y);
    hide Ok, Grounded;
    assert x in w.core.seen[j] <==> x in Below(Made(w.core), w.core.rooms[j].clock);
    assert x in w.core.past[y] <==> x in Below(Made(w.core), y.clock);
  }

  /** What has been incorporated had been heard of, so a clock never orders writes that messages do not. */
  lemma ClocksNeverOverstate(w: World, x: Entry, y: Entry)
    requires Reachable(w) && x in Made(w.core) && y in Made(w.core)
    ensures y in w.before
    ensures Compare(x.clock, y.clock) == Before ==> x in w.before[y]
  {
    ReachableInv(w);
    ClocksDecideCausality(w, x, y);
  }

  // ---------------------------------------------------------------------------
  // The order of messages
  // ---------------------------------------------------------------------------

  /** The delivery leaves the receiver's clock at or above what the sender's was. */
  ghost predicate Covers(w: World, step: Step)
    requires Enabled(w, step)
  {
    step.Deliver? ==> Leq(step.packet.clock, ApplyAll(w.core.rooms[step.at], step.order).clock)
  }

  /** All that replicas have heard of they have incorporated. */
  ghost predicate Agreed(w: World) {
    && w.heard == w.core.seen && w.before == w.core.past
    && forall p :: p in w.wire ==> p.heard == Below(Made(w.core), p.clock)
  }

  /** What a delivery brings the receiver to incorporate and to have heard of, in terms of clocks. */
  lemma DeliveryInClocks(w: World, step: Step)
    requires Inv(w) && Agreed(w) && step.Deliver? && Enabled(w, step)
    ensures var H, c := Made(w.core), ApplyAll(w.core.rooms[step.at], step.order).clock;
      && ClockOk(w.core, step.packet.clock) && ClockOk(w.core, c)
      && Receive(w.core, step.at, step.order).seen[step.at] == Below(H, c)
      && w.heard[step.at] <= Below(H, c) <= w.heard[step.at] + step.packet.heard
      && step.packet.heard == Below(H, step.packet.clock)
  {
    hide Grounded, Closed, Causal, DistinctClocks;
    assert PacketOk(w, step.packet);
    CoreStep(w, step);
    DeliveredHeard(w, step);
    ReceivedRoom(w.core, step.at, step.order);
    assert w.heard[step.at] <= Receive(w.core, step.at, step.order).seen[step.at];
  }

  lemma DeliveryAgrees(w: World, step: Step)
    requires Inv(w) && Agreed(w) && step.Deliver? && Enabled(w, step)
    ensures Do(w, step).heard == Do(w, step).core.seen <==> Covers(w, step)
  {
    var c, p := ApplyAll(w.core.rooms[step.at], step.order).clock, step.packet;
    var heard, seen := w.heard[step.at] + p.heard, Receive(w.core, step.at, step.order).seen[step.at];
    DeliveryInClocks(w, step);
    assert Do(w, step).heard == w.heard[step.at := heard] && Do(w, step).core.seen == w.heard[step.at := seen];
    assert w.heard[step.at := heard][step.at] == heard && w.heard[step.at := seen][step.at] == seen;
    hide Inv, Agreed, Do, Receive, Below, Grounded, Closed, ApplyAll;
    ClocksAreTheirWrites(Made(w.core), p.clock, c);
    assert seen == heard <==> p.heard <= seen;
  }

  lemma AgreedStep(w: World, step: Step)
    requires Inv(w) && Agreed(w) && Enabled(w, step)
    requires Do(w, step).heard == Do(w, step).core.seen
    ensures Agreed(Do(w, step))
  {
    hide Inv, Apply, ApplyAll, Below, CaughtUp;
    forall p | p in Do(w, step).wire ensures p.heard == Below(Made(Do(w, step).core), p.clock) {
      AgreedPacket(w, step, p);
    }
  }

  lemma AgreedPacket(w: World, step: Step, p: Packet)
    requires Inv(w) && Agreed(w) && Enabled(w, step) && p in Do(w, step).wire
    ensures p.heard == Below(Made(Do(w, step).core), p.clock)
  {
    hide Ok, Apply, ApplyAll, Grounded, Closed, Sound, CaughtUp, HeardOk;
    if p in w.wire {
      assert PacketOk(w, p);
      ClockSurvives(w, step, p.clock);
    } else {
      OkRoom(w.core, step.at);
    }
  }

  lemma QuietStepAgrees(w: World, step: Step)
    requires Inv(w) && Agreed(w) && Enabled(w, step) && !step.Deliver?
    ensures Do(w, step).heard == Do(w, step).core.seen
  {
  }

  lemma {:induction false} CoveredRunAgrees(ws: seq<World>, steps: seq<Step>, i: nat)
    requires Run(ws, steps) && i <= |steps|
    requires forall k :: 0 <= k < i ==> Covers(ws[k], steps[k])
    ensures Agreed(ws[i])
  {
    if i > 0 {
      CoveredRunAgrees(ws, steps, i - 1);
      RunInv(ws, steps, i - 1);
      if steps[i - 1].Deliver? {
        DeliveryAgrees(ws[i - 1], steps[i - 1]);
      } else {
        QuietStepAgrees(ws[i - 1], steps[i - 1]);
      }
      AgreedStep(ws[i - 1], steps[i - 1]);
    }
  }

  lemma {:induction false} AgreedRunCovers(ws: seq<World>, steps: seq<Step>, i: nat)
    requires Run(ws, steps) && i <= |steps|
    requires forall k :: 0 <= k <= i ==> ws[k].heard == ws[k].core.seen
    ensures Agreed(ws[i]) && forall k :: 0 <= k < i ==> Covers(ws[k], steps[k])
  {
    if i > 0 {
      AgreedRunCovers(ws, steps, i - 1);
      RunInv(ws, steps, i - 1);
      assert ws[i] == Do(ws[i - 1], steps[i - 1]) && ws[i].heard == ws[i].core.seen;
      AgreedStep(ws[i - 1], steps[i - 1]);
      if steps[i - 1].Deliver? {
        DeliveryAgrees(ws[i - 1], steps[i - 1]);
      }
    }
  }

  /**
   Along a run, replicas have incorporated all that messages told them of exactly when every
   delivery left its receiver's clock at or above what the sender's was.
   */
  lemma MessageOrderKeptExactly(ws: seq<World>, steps: seq<Step>)
    requires Run(ws, steps)
    ensures (forall i :: 0 <= i <= |steps| ==> ws[i].heard == ws[i].core.seen) <==>
      (forall i :: 0 <= i < |steps| ==> Covers(ws[i], steps[i]))
  {
    if forall i :: 0 <= i <= |steps| ==> ws[i].heard == ws[i].core.seen {
      AgreedRunCovers(ws, steps, |steps|);
    }
    if forall i :: 0 <= i < |steps| ==> Covers(ws[i], steps[i]) {
      forall i | 0 <= i <= |steps| ensures ws[i].heard == ws[i].core.seen {
        CoveredRunAgrees(ws, steps, i);
      }
    }
  }

  /** After such a run, clocks decide the order of messages too. */
  lemma ClocksDecideMessageOrder(ws: seq<World>, steps: seq<Step>, x: Entry, y: Entry)
    requires Run(ws, steps) && forall i :: 0 <= i < |steps| ==> Covers(ws[i], steps[i])
    requires x in ws[|steps|].before && y in ws[|steps|].before
    ensures Compare(x.clock, y.clock) == Before <==> x in ws[|steps|].before[y] && x != y
    ensures Compare(x.clock, y.clock) == Concurrent <==>
      x !in ws[|steps|].before[y] && y !in ws[|steps|].before[x]
  {
    CoveredRunAgrees(ws, steps, |steps|);
    ClocksDecideCausality(ws[|steps|], x, y);
  }

  lemma StepReachable(w: World, step: Step)
    requires Reachable(w) && Enabled(w, step)
    ensures Reachable(Do(w, step))
  {
    hide Do, Enabled;
    var ws, steps :| Run(ws, steps) && ws[|steps|] == w;
    var ws', steps' := ws + [Do(w, step)], steps + [step];
    assert ws'[0] == ws[0];
    forall i | 0 <= i < |steps'| ensures Enabled(ws'[i], steps'[i]) && ws'[i + 1] == Do(ws'[i], steps'[i]) {
      if i < |steps| {
        assert Enabled(ws[i], steps[i]) && ws[i + 1] == Do(ws[i], steps[i]);
      }
    }
    assert Run(ws', steps') && ws'[|steps'|] == Do(w, step);
  }

  /** A step in which agents write at their homes and no room is removed. */
  predicate AtHome(step: Step, home: Agent -> nat) {
    !step.Forget? && (step.Write? ==> step.at == home(step.agent))
  }

  lemma {:induction false} HomesStayCaughtUp(ws: seq<World>, steps: seq<Step>, home: Agent -> nat, i: nat)
    requires Run(ws, steps) && i <= |steps| && forall k :: 0 <= k < i ==> AtHome(steps[k], home)
    ensures HomesCaughtUp(ws[i].core, home)
  {
    if i > 0 {
      var w, step := ws[i - 1], steps[i - 1];
      HomesStayCaughtUp(ws, steps, home, i - 1);
      RunInv(ws, steps, i - 1);
      CoreStep(w, step);
      assert ws[i] == Do(w, step);
      hide Ok, HomesCaughtUp, Run, HeardOk, PacketOk;
      match step
      case Write(at, agent, key, value, now) =>
        WriteKeepsHomes(w.core, home, at, Written(w.core.rooms[at], agent, key, value, now));
      case Send(_, _) =>
      case Deliver(at, _, order) => ReceiveKeepsHomes(w.core, home, at, order);
    }
  }

  /** While each agent keeps to one replica and no room is removed, any agent may write at its own at any time. */
  lemma HomeIsCaughtUp(ws: seq<World>, steps: seq<Step>, home: Agent -> nat, agent: Agent, key: Key, value: Value, now: Time)
    requires Run(ws, steps) && forall k :: 0 <= k < |steps| ==> AtHome(steps[k], home)
    requires home(agent) < |ws[|steps|].core.rooms|
    ensures Enabled(ws[|steps|], Write(home(agent), agent, key, value, now))
  {
    RunInv(ws, steps, |steps|);
    HomesStayCaughtUp(ws, steps, home, |steps|);
  }

  /**
   In every reachable world, after any agent's new write at any replica ticks still decide what is in
   the past of what exactly when that replica has caught up with the agent's earlier writes.
   */
  lemma MayWriteExactly(w: World, at: nat, e: Entry)
    requires Reachable(w) && at < |w.core.rooms| == |w.core.seen|
    requires e !in w.core.past && e.clock == Ticked(w.core.rooms[at].clock, e.author)
    ensures OwnTicksDecide(WriteAt(w.core, at, e)) <==> CaughtUp(w.core, e.author, at)
  {
    ReachableInv(w);
    hide Ok, OwnTicksDecide, CaughtUp, Ticked, WriteAt;
    CaughtUpExactly(w.core, at, e);
  }

  /** One replica sends another an entry on its own, and it arrives. */
  lemma Exchange(w: World, from: nat, to: nat, e: Entry) returns (mid: World, step: Step)
    requires Reachable(w) && Sized(w) && from < |w.heard| && to < |w.heard|
    requires e in w.core.seen[from] && e in w.core.past
    ensures step == Deliver(to, Packet({e}, w.core.rooms[from].clock, w.heard[from]), [e])
    ensures mid == w.(wire := w.wire + {step.packet})
    ensures Reachable(mid) && Enabled(mid, step) && Reachable(Do(mid, step))
    ensures Do(mid, step).core == w.core.(
      rooms := w.core.rooms[to := Apply(w.core.rooms[to], e)],
      seen := w.core.seen[to := w.core.seen[to] + w.core.past[e]])
    ensures Do(mid, step).heard == w.heard[to := w.heard[to] + w.heard[from]]
  {
    StepReachable(w, Send(from, {e}));
    mid := Do(w, Send(from, {e}));
    step := Deliver(to, Packet({e}, w.core.rooms[from].clock, w.heard[from]), [e]);
    assert (set x | x in [e]) == {e};
    assert PastOf(w.core.past, [e]) == w.core.past[e];
    assert ApplyAll(w.core.rooms[to], [e]) == Apply(w.core.rooms[to], e);
    hide Reachable;
    StepReachable(mid, step);
  }

  lemma ThreeReplicas() returns (w: World)
    ensures Reachable(w)
    ensures w == World(Replicas([EMPTY_ROOM, EMPTY_ROOM, EMPTY_ROOM], [{}, {}, {}], map[]), [{}, {}, {}], map[], {})
  {
    w := Init(3);
    assert Run([w], []) && [w][0] == w;
  }

  lemma Wrote(w: World, at: nat, e: Entry) returns (w': World)
    requires Reachable(w) && Sized(w) && at < |w.core.rooms| && CaughtUp(w.core, e.author, at)
    requires e.clock == Ticked(w.core.rooms[at].clock, e.author)
    ensures Reachable(w')
    ensures w' == World(WriteAt(w.core, at, e), w.heard[at := w.heard[at] + {e}], w.before[e := w.heard[at] + {e}], w.wire)
  {
    var step := Write(at, e.author, e.key, e.value, e.updatedAt);
    assert Written(w.core.rooms[at], e.author, e.key, e.value, e.updatedAt) == e;
    hide Reachable;
    StepReachable(w, step);
    w' := Do(w, step);
  }

  /** Two concurrent first writes to one key, at replicas 0 and 1 of three. */
  lemma TwoWrites(x: Entry, y: Entry) returns (w: World)
    requires x == Entry("k", "1", "a", map["a" := 1], 1) && y == Entry("k", "2", "b", map["b" := 1], 2)
    ensures Reachable(w)
    ensures w.core.rooms == [Apply(EMPTY_ROOM, x), Apply(EMPTY_ROOM, y), EMPTY_ROOM]
    ensures w.core.seen == w.heard == [{x}, {y}, {}]
    ensures w.core.past == w.before == map[x := {x}, y := {y}]
  {
    hide Reachable, Apply;
    var none: set<Entry> := {};
    assert none + {x} == {x} && none + {y} == {y};
    w := ThreeReplicas();
    w := Wrote(w, 0, x);
    w := Wrote(w, 1, y);
  }

  lemma RefusedRoom(x: Entry, y: Entry)
    requires x == Entry("k", "1", "a", map["a" := 1], 1) && y == Entry("k", "2", "b", map["b" := 1], 2)
    ensures Apply(Apply(EMPTY_ROOM, y), x).entries == map["k" := y]
    ensures Get(Apply(Apply(EMPTY_ROOM, y), x).clock, "a") == 1
    ensures Get(Apply(EMPTY_ROOM, y).clock, "a") == 0
    ensures ApplyAll(EMPTY_ROOM, [y]) == Apply(EMPTY_ROOM, y)
  {
    assert Get(x.clock, "a") == 1 && Get(y.clock, "a") == 0 && Get(x.clock, "b") == 0 && Get(y.clock, "b") == 1;
  }

  /**
   A snapshot need not carry its sender's clock, and then the order of messages is lost: a write
   that the sender of a snapshot had received compares as concurrent with the next write of the
   replica that restored it.
   */
  lemma SnapshotCanLoseMessageOrder() returns (w: World, step: Step, next: Step, x: Entry, z: Entry)
    ensures Reachable(w) && step.Deliver? && Enabled(w, step) && !Covers(w, step)
    ensures |w.core.rooms| > 1 && step.packet.clock == w.core.rooms[1].clock
    ensures step.packet.entries == set k | k in w.core.rooms[1].entries :: w.core.rooms[1].entries[k]
    ensures next.Write? && Enabled(Do(w, step), next)
    ensures var w' := Do(Do(w, step), next);
      && x in w'.core.past && z in w'.core.past && z in w'.before
      && x in w'.before[z] && Compare(x.clock, z.clock) == Concurrent
  {
    hide Apply, Reachable, ApplyAll;
    x := Entry("k", "1", "a", map["a" := 1], 1);
    var y := Entry("k", "2", "b", map["b" := 1], 2);
    var w2 := TwoWrites(x, y);
    var w3, s3 := Exchange(w2, 0, 1, x);
    w, step := Exchange(Do(w3, s3), 1, 2, y);
    RefusedRoom(x, y);
    var held := w.core.rooms[1].entries;
    assert held == map["k" := y] && held["k"] == y;
    assert (set k | k in held :: held[k]) == {y};
    next := Write(2, "c", "k", "3", 3);
    var r := Apply(EMPTY_ROOM, y);
    z := Written(r, "c", "k", "3", 3);
    LostOrder(w, step, next, r, x, z);
  }

  lemma LostOrder(w: World, step: Step, next: Step, r: Room, x: Entry, z: Entry)
    requires step.Deliver? && Enabled(w, step) && next == Write(2, "c", "k", "3", 3) && step.at == 2
    requires |w.core.rooms| == 3 && r == ApplyAll(w.core.rooms[2], step.order) && (forall v :: v in w.core.past ==> v.author != "c")
    requires z == Written(r, "c", "k", "3", 3) && x.clock == map["a" := 1] && x in w.core.past
    requires x in step.packet.heard && Get(r.clock, "a") == 0 && Get(step.packet.clock, "a") == 1
    ensures !Covers(w, step) && Enabled(Do(w, step), next)
    ensures var w' := Do(Do(w, step), next);
      && x in w'.core.past && z in w'.core.past && z in w'.before
      && x in w'.before[z] && Compare(x.clock, z.clock) == Concurrent
  {
    hide Apply, ApplyAll;
    assert Get(step.packet.clock, "a") > Get(r.clock, "a");
    assert Get(z.clock, "a") == 0 && Get(z.clock, "c") >= 1 && Get(x.clock, "a") == 1 && Get(x.clock, "c") == 0;
    assert Do(w, step).core.rooms[2] == r && x in Do(w, step).heard[2];
  }
}
