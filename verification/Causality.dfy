/**
 What vector clocks say about causality (`p2p/src/room_state.rs`) when nothing is assumed of wall
 clocks or of what is delivered to whom: replicas write with any timestamps and send each other
 any entries they have come by, over a network that may lose, delay, duplicate and reorder.

 One hypothesis, about ticks: an agent writes only at a replica that has caught up with its earlier
 writes.  It holds where each agent keeps to one replica that never forgets the room, and also where
 agents move, or rooms are removed and created again, if the replica is synchronised first.
 */
module Causality {
  import opened Clocks
  import opened Rooms
  import opened RoomLaws
  import opened History

  // ---------------------------------------------------------------------------
  // Replicas and the flow of entries
  // ---------------------------------------------------------------------------

  /**
   `seen` is the set of writes each replica has incorporated and `past` maps every write made so
   far to those its author had incorporated, itself included.  Both follow the flow of entries
   alone: an entry brings its own past with it, and no clock is looked at.
   */
  datatype Replicas = Replicas(rooms: seq<Room>, seen: seq<set<Entry>>, past: map<Entry, set<Entry>>)

  function Start(n: nat): Replicas {
    Replicas(seq(n, _ => EMPTY_ROOM), seq(n, _ => {}), map[])
  }

  ghost function Made(s: Replicas): set<Entry> {
    s.past.Keys
  }

  ghost function PastOf(past: map<Entry, set<Entry>>, order: seq<Entry>): set<Entry> {
    set e, v | e in order && e in past && v in past[e] :: v
  }

  /** The replica's clock has reached every tick the agent has written. */
  ghost predicate CaughtUp(s: Replicas, agent: Agent, at: nat)
    requires at < |s.rooms|
  {
    forall v :: v in Made(s) && v.author == agent ==> WriteTick(v) <= Get(s.rooms[at].clock, agent)
  }

  ghost function WriteAt(s: Replicas, at: nat, e: Entry): Replicas
    requires at < |s.rooms| == |s.seen|
  {
    Replicas(
      s.rooms[at := Apply(s.rooms[at], e)],
      s.seen[at := s.seen[at] + {e}],
      s.past[e := s.seen[at] + {e}])
  }

  ghost function Receive(s: Replicas, at: nat, order: seq<Entry>): Replicas
    requires at < |s.rooms| == |s.seen|
  {
    s.(rooms := s.rooms[at := ApplyAll(s.rooms[at], order)],
       seen := s.seen[at := s.seen[at] + PastOf(s.past, order)])
  }

  /** The room is removed and created again. */
  function Forget(s: Replicas, at: nat): Replicas
    requires at < |s.rooms| == |s.seen|
  {
    s.(rooms := s.rooms[at := EMPTY_ROOM], seen := s.seen[at := {}])
  }

  /** A clock whose ticks are writes, that covers every write whose tick it has reached. */
  ghost predicate ClockOk(s: Replicas, c: Clock) {
    Grounded(Made(s), c) && Closed(Made(s), c)
  }

  ghost predicate RoomOk(s: Replicas, r: Room, seen: set<Entry>) {
    Sound(Made(s), r) && ClockOk(s, r.clock) && seen == Below(Made(s), r.clock)
  }

  ghost predicate WriteOk(s: Replicas, e: Entry)
    requires e in s.past
  {
    ClockOk(s, e.clock) && s.past[e] == Below(Made(s), e.clock)
  }

  ghost predicate Ok(s: Replicas) {
    && |s.seen| == |s.rooms|
    && Causal(Made(s)) && DistinctClocks(Made(s))
    && (forall j :: 0 <= j < |s.rooms| ==> RoomOk(s, s.rooms[j], s.seen[j]))
    && (forall e :: e in s.past ==> WriteOk(s, e))
  }

  lemma OkRoom(s: Replicas, j: nat)
    requires Ok(s) && j < |s.rooms|
    ensures |s.seen| == |s.rooms| && RoomOk(s, s.rooms[j], s.seen[j])
  {
  }

  lemma OkWrite(s: Replicas, e: Entry)
    requires Ok(s) && e in Made(s)
    ensures WriteOk(s, e)
  {
  }

  // ---------------------------------------------------------------------------
  // Writing
  // ---------------------------------------------------------------------------

  /** `e` is a write that `set` can make at replica `at`. */
  ghost predicate CanWrite(s: Replicas, at: nat, e: Entry) {
    && |s.seen| == |s.rooms| && at < |s.rooms|
    && e.clock == Ticked(s.rooms[at].clock, e.author)
    && CaughtUp(s, e.author, at)
  }

  /** No clock whose ticks are writes has reached a new write's tick. */
  lemma WriterAhead(s: Replicas, at: nat, e: Entry, c: Clock)
    requires CanWrite(s, at, e) && Grounded(Made(s), c)
    ensures Get(c, e.author) <= Get(s.rooms[at].clock, e.author) < WriteTick(e)
  {
    if Get(c, e.author) > 0 {
      var v :| v in Made(s) && v.author == e.author && WriteTick(v) == Get(c, e.author);
    }
  }

  lemma WriterAheadOfWrites(s: Replicas, at: nat, e: Entry)
    requires Ok(s) && CanWrite(s, at, e)
    ensures forall v :: v in Made(s) ==> Get(v.clock, e.author) <= Get(s.rooms[at].clock, e.author) < WriteTick(e)
  {
    forall v | v in Made(s)
      ensures Get(v.clock, e.author) <= Get(s.rooms[at].clock, e.author) < WriteTick(e)
    {
      OkWrite(s, v);
      hide Ok, Grounded, CanWrite;
      WriterAhead(s, at, e, v.clock);
    }
  }

  lemma WriterRoom(s: Replicas, at: nat, e: Entry)
    requires Ok(s) && CanWrite(s, at, e)
    ensures Sound(Made(s) + {e}, Apply(s.rooms[at], e)) && Same(Apply(s.rooms[at], e).clock, e.clock)
    ensures Below(Made(s) + {e}, Apply(s.rooms[at], e).clock) == s.seen[at] + {e}
    ensures Below(Made(s) + {e}, e.clock) == s.seen[at] + {e}
    ensures e !in Made(s) && Closed(Made(s) + {e}, e.clock)
  {
    var r := s.rooms[at];
    OkRoom(s, at);
    WriterAheadOfWrites(s, at, e);
    hide Apply, Ticked, DistinctClocks, Causal;
    WriterSound(Made(s), r, e);
    WriteBelow(Made(s), r, e);
    WriteClosed(Made(s), r, e);
  }

  /** Clocks already in the system are untouched by a new write, and cover what they covered. */
  lemma ClockStaysOk(s: Replicas, at: nat, e: Entry, c: Clock)
    requires Ok(s) && CanWrite(s, at, e) && ClockOk(s, c)
    ensures ClockOk(WriteAt(s, at, e), c)
    ensures Below(Made(s) + {e}, c) == Below(Made(s), c)
    ensures Made(WriteAt(s, at, e)) == Made(s) + {e}
  {
    hide Grounded;
    WritePast(s, at, e);
    hide Ok, WriteAt;
    WriterAhead(s, at, e, c);
    hide CanWrite;
    OthersClosed(Made(s), c, e);
    CompareIsPartialOrder(c, c, c);
    GroundedIn(Made(s), Made(s) + {e}, c, c);
  }

  lemma NewClockOk(s: Replicas, at: nat, e: Entry, c: Clock)
    requires Ok(s) && CanWrite(s, at, e) && Same(e.clock, c)
    ensures ClockOk(WriteAt(s, at, e), c)
  {
    hide Grounded;
    OkRoom(s, at);
    WritePast(s, at, e);
    hide Ok, WriteAt, Apply;
    WriterRoom(s, at, e);
    hide CanWrite, Sound, Below;
    WriteGrounded(Made(s), s.rooms[at].clock, e);
    GroundedIn(Made(s) + {e}, Made(s) + {e}, e.clock, c);
    ClosedUpToSame(Made(s) + {e}, e.clock, c);
  }

  lemma WriteKeepsRoom(s: Replicas, at: nat, e: Entry, j: nat)
    requires Ok(s) && CanWrite(s, at, e) && j < |s.rooms|
    ensures RoomOk(WriteAt(s, at, e), WriteAt(s, at, e).rooms[j], WriteAt(s, at, e).seen[j])
  {
    hide Grounded, Closed;
    OkRoom(s, j);
    WritePast(s, at, e);
    if j == at {
      WriterRoom(s, at, e);
      CompareIsPartialOrder(e.clock, Apply(s.rooms[at], e).clock, e.clock);
      NewClockOk(s, at, e, Apply(s.rooms[at], e).clock);
    } else {
      ClockStaysOk(s, at, e, s.rooms[j].clock);
    }
  }

  lemma WritePast(s: Replicas, at: nat, e: Entry)
    requires |s.seen| == |s.rooms| && at < |s.rooms|
    ensures var s' := WriteAt(s, at, e);
      && Made(s') == Made(s) + {e} && s'.past[e] == s.seen[at] + {e}
      && forall v :: v in s.past && v != e ==> s'.past[v] == s.past[v]
  {
  }

  lemma WriteKeepsWrite(s: Replicas, at: nat, e: Entry, v: Entry)
    requires Ok(s) && CanWrite(s, at, e) && v in Made(s) + {e}
    ensures v in WriteAt(s, at, e).past && WriteOk(WriteAt(s, at, e), v)
  {
    WritePast(s, at, e);
    hide Ok, WriteAt, Apply, ClockOk, Closed, Grounded, Below, CanWrite;
    if v == e {
      WriterRoom(s, at, e);
      CompareIsPartialOrder(e.clock, e.clock, e.clock);
      NewClockOk(s, at, e, e.clock);
    } else {
      OkWrite(s, v);
      ClockStaysOk(s, at, e, v.clock);
    }
  }

  lemma WriteKeepsHistory(s: Replicas, at: nat, e: Entry)
    requires Ok(s) && CanWrite(s, at, e)
    ensures Causal(Made(s) + {e}) && DistinctClocks(Made(s) + {e})
  {
    OkRoom(s, at);
    WriterAheadOfWrites(s, at, e);
    WriteCausal(Made(s), s.rooms[at], e);
    WriteKeepsClocksDistinct(Made(s), e);
  }

  lemma WriteKeepsOk(s: Replicas, at: nat, e: Entry)
    requires Ok(s) && CanWrite(s, at, e)
    ensures Ok(WriteAt(s, at, e))
  {
    hide RoomOk, WriteOk, Apply, Causal, DistinctClocks, Ticked, CaughtUp;
    var s' := WriteAt(s, at, e);
    WritePast(s, at, e);
    WriteKeepsHistory(s, at, e);
    forall j | 0 <= j < |s'.rooms| ensures RoomOk(s', s'.rooms[j], s'.seen[j]) {
      WriteKeepsRoom(s, at, e, j);
    }
    forall v | v in s'.past ensures WriteOk(s', v) {
      WriteKeepsWrite(s, at, e, v);
    }
  }

  // ---------------------------------------------------------------------------
  // Receiving
  // ---------------------------------------------------------------------------

  ghost predicate CanReceive(s: Replicas, at: nat, order: seq<Entry>) {
    |s.seen| == |s.rooms| && at < |s.rooms| && (set e | e in order) <= Made(s)
  }

  lemma ReceivedSeen(s: Replicas, at: nat, order: seq<Entry>)
    requires Ok(s) && CanReceive(s, at, order)
    ensures Receive(s, at, order).seen[at] == Below(Made(s), ApplyAll(s.rooms[at], order).clock)
  {
    OkRoom(s, at);
    var H, r := Made(s), s.rooms[at];
    forall v ensures v in Receive(s, at, order).seen[at] <==> v in Below(H, ApplyAll(r, order).clock) {
      ReceivedOne(s, at, order, v);
    }
  }

  lemma ReceivedOne(s: Replicas, at: nat, order: seq<Entry>, v: Entry)
    requires Ok(s) && CanReceive(s, at, order)
    ensures v in s.seen[at] + PastOf(s.past, order) <==> v in Below(Made(s), ApplyAll(s.rooms[at], order).clock)
  {
    OkRoom(s, at);
    var H, r := Made(s), s.rooms[at];
    if v in H {
      DeliveryBelow(H, r, order, v);
    }
    hide ApplyAll;
    if e :| e in order && v in H && Leq(v.clock, e.clock) {
      assert e in H && WriteOk(s, e) && v in s.past[e];
    }
    if v in PastOf(s.past, order) {
      var e :| e in order && e in s.past && v in s.past[e];
      assert WriteOk(s, e);
    }
  }

  lemma ReceivedRoom(s: Replicas, at: nat, order: seq<Entry>)
    requires Ok(s) && CanReceive(s, at, order)
    ensures RoomOk(s, ApplyAll(s.rooms[at], order), Receive(s, at, order).seen[at])
  {
    OkRoom(s, at);
    ReceivedSeen(s, at, order);
    forall e | e in order ensures Grounded(Made(s), e.clock) {
      assert e in Made(s) && WriteOk(s, e);
    }
    hide ApplyAll, Below, Grounded, Causal, DistinctClocks;
    DeliverySound(Made(s), s.rooms[at], order);
    DeliveryGrounded(Made(s), s.rooms[at], order);
  }

  lemma ReceiveKeepsRoom(s: Replicas, at: nat, order: seq<Entry>, j: nat)
    requires Ok(s) && CanReceive(s, at, order) && j < |s.rooms|
    ensures RoomOk(Receive(s, at, order), Receive(s, at, order).rooms[j], Receive(s, at, order).seen[j])
  {
    OkRoom(s, j);
    ReceivedRoom(s, at, order);
  }

  lemma ReceiveKeepsOk(s: Replicas, at: nat, order: seq<Entry>)
    requires Ok(s) && CanReceive(s, at, order)
    ensures Ok(Receive(s, at, order))
  {
    hide RoomOk, ApplyAll, Causal, DistinctClocks, Grounded, Closed;
    var s' := Receive(s, at, order);
    forall j | 0 <= j < |s'.rooms| ensures RoomOk(s', s'.rooms[j], s'.seen[j]) {
      ReceiveKeepsRoom(s, at, order, j);
    }
    forall v | v in s'.past ensures WriteOk(s', v) {
      OkWrite(s, v);
    }
  }

  // ---------------------------------------------------------------------------
  // Forgetting
  // ---------------------------------------------------------------------------

  lemma EmptyRoomOk(s: Replicas)
    requires Causal(Made(s))
    ensures RoomOk(s, EMPTY_ROOM, {})
  {
    EmptyIsDetermined(Made(s));
    forall v | v in Made(s) ensures !Leq(v.clock, map[]) {
      assert Leq(v.clock, EMPTY_ROOM.clock) ==> v.key in EMPTY_ROOM.entries;
    }
  }

  lemma ForgetKeepsOk(s: Replicas, at: nat)
    requires Ok(s) && at < |s.rooms|
    ensures Ok(Forget(s, at))
  {
    var s' := Forget(s, at);
    EmptyRoomOk(s);
    forall j | 0 <= j < |s'.rooms| ensures RoomOk(s', s'.rooms[j], s'.seen[j]) {
      OkRoom(s, j);
    }
    forall v | v in s'.past ensures WriteOk(s', v) {
      OkWrite(s, v);
    }
  }

  // ---------------------------------------------------------------------------
  // Why replicas must have caught up
  // ---------------------------------------------------------------------------

  /** A write is in the past of another exactly when the other's clock has reached its own tick. */
  ghost predicate OwnTicksDecide(s: Replicas) {
    forall x, y :: x in Made(s) && y in Made(s) ==> (WriteTick(x) <= Get(y.clock, x.author) <==> x in s.past[y])
  }

  lemma OkDecides(s: Replicas)
    requires Ok(s)
    ensures OwnTicksDecide(s)
  {
    forall x, y | x in Made(s) && y in Made(s)
      ensures WriteTick(x) <= Get(y.clock, x.author) <==> x in s.past[y]
    {
      OkDecidesOne(s, x, y);
    }
  }

  lemma OkDecidesOne(s: Replicas, x: Entry, y: Entry)
    requires Ok(s) && x in Made(s) && y in Made(s)
    ensures WriteTick(x) <= Get(y.clock, x.author) <==> x in s.past[y]
  {
    hide Grounded;
    OkWrite(s, y);
    hide Ok;
    assert x in s.past[y] <==> x in Below(Made(s), y.clock);
  }

  lemma UnseenInOthersPasts(s: Replicas, e: Entry, v: Entry)
    requires Ok(s) && e !in Made(s) && v in Made(s)
    ensures e !in s.past[v]
  {
    hide Grounded, Closed;
    OkWrite(s, v);
  }

  lemma TickedValue(c: Clock, a: Agent)
    ensures Get(Ticked(c, a), a) == Get(c, a) + 1
  {
  }

  /** An unseen write whose tick another has reached is misjudged. */
  lemma MisjudgedPair(s: Replicas, x: Entry, y: Entry)
    requires x in s.past && y in s.past && x !in s.past[y] && WriteTick(x) <= Get(y.clock, x.author)
    ensures !OwnTicksDecide(s)
  {
  }

  lemma BehindIsMisjudged(s: Replicas, at: nat, e: Entry, v: Entry)
    requires Ok(s) && at < |s.rooms| == |s.seen| && e !in Made(s) && e.clock == Ticked(s.rooms[at].clock, e.author)
    requires v in Made(s) && v.author == e.author && WriteTick(v) > Get(s.rooms[at].clock, e.author)
    ensures !OwnTicksDecide(WriteAt(s, at, e))
  {
    var s' := WriteAt(s, at, e);
    hide OwnTicksDecide, Ok, Apply;
    WritePast(s, at, e);
    UnseenInOthersPasts(s, e, v);
    TickedValue(s.rooms[at].clock, e.author);
    hide WriteAt, Ticked;
    MisjudgedPair(s', e, v);
  }

  /**
   After a new write at any replica, ticks still decide what is in the past of what exactly when that
   replica had caught up with the author's earlier writes.
   */
  lemma CaughtUpExactly(s: Replicas, at: nat, e: Entry)
    requires Ok(s) && at < |s.rooms| == |s.seen| && e !in Made(s) && e.clock == Ticked(s.rooms[at].clock, e.author)
    ensures OwnTicksDecide(WriteAt(s, at, e)) <==> CaughtUp(s, e.author, at)
  {
    hide OwnTicksDecide, Ok, WriteAt, Ticked;
    if CaughtUp(s, e.author, at) {
      WriteKeepsOk(s, at, e);
      OkDecides(WriteAt(s, at, e));
    } else {
      var v :| v in Made(s) && v.author == e.author && WriteTick(v) > Get(s.rooms[at].clock, e.author);
      BehindIsMisjudged(s, at, e, v);
    }
  }

  // ---------------------------------------------------------------------------
  // Agents that keep to one replica
  // ---------------------------------------------------------------------------

  /** Each agent's home has caught up with it. */
  ghost predicate HomesCaughtUp(s: Replicas, home: Agent -> nat) {
    forall a :: home(a) < |s.rooms| ==> CaughtUp(s, a, home(a))
  }

  lemma HomeGrows(s: Replicas, s': Replicas, home: Agent -> nat, a: Agent)
    requires HomesCaughtUp(s, home) && home(a) < |s.rooms| == |s'.rooms|
    requires Get(s.rooms[home(a)].clock, a) <= Get(s'.rooms[home(a)].clock, a)
    requires forall v :: v in Made(s') && v.author == a && v !in Made(s) ==> WriteTick(v) <= Get(s'.rooms[home(a)].clock, a)
    ensures CaughtUp(s', a, home(a))
  {
    assert CaughtUp(s, a, home(a));
  }

  lemma WriteKeepsHome(s: Replicas, home: Agent -> nat, at: nat, e: Entry, a: Agent)
    requires Ok(s) && CanWrite(s, at, e) && home(e.author) == at && HomesCaughtUp(s, home) && home(a) < |s.rooms|
    ensures |WriteAt(s, at, e).rooms| == |s.rooms| && CaughtUp(WriteAt(s, at, e), a, home(a))
  {
    hide Ok, Grounded, Closed, Sound, Apply, Below, HomesCaughtUp, CaughtUp;
    WritePast(s, at, e);
    WriterRoom(s, at, e);
    assert WriteAt(s, at, e).rooms == s.rooms[at := Apply(s.rooms[at], e)];
    assert Get(Apply(s.rooms[at], e).clock, a) == Get(e.clock, a) >= Get(s.rooms[at].clock, a);
    HomeGrows(s, WriteAt(s, at, e), home, a);
  }

  lemma WriteKeepsHomes(s: Replicas, home: Agent -> nat, at: nat, e: Entry)
    requires Ok(s) && CanWrite(s, at, e) && home(e.author) == at && HomesCaughtUp(s, home)
    ensures HomesCaughtUp(WriteAt(s, at, e), home)
  {
    hide Ok, CaughtUp, Apply;
    assert |WriteAt(s, at, e).rooms| == |s.rooms|;
    forall a | home(a) < |s.rooms| ensures CaughtUp(WriteAt(s, at, e), a, home(a)) {
      WriteKeepsHome(s, home, at, e, a);
    }
  }

  lemma ReceiveKeepsHomes(s: Replicas, home: Agent -> nat, at: nat, order: seq<Entry>)
    requires Ok(s) && CanReceive(s, at, order) && HomesCaughtUp(s, home)
    ensures HomesCaughtUp(Receive(s, at, order), home)
  {
    var s' := Receive(s, at, order);
    hide Grounded, Closed;
    OkRoom(s, at);
    AggregateClockLaw(s.rooms[at], order);
    assert Leq(s.rooms[at].clock, s'.rooms[at].clock);
    hide Ok, ApplyAll, IsLub, CanReceive;
    forall a | home(a) < |s.rooms| ensures CaughtUp(s', a, home(a)) {
      assert Get(s.rooms[at].clock, a) <= Get(s'.rooms[at].clock, a);
      hide HomesCaughtUp, CaughtUp, Leq;
      HomeGrows(s, s', home, a);
    }
  }
}
