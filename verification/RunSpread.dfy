/**
 Any number of replicas and any schedule of deltas, snapshots and single writes between them, with
 messages from before still arriving (`p2p/src/room_state.rs`): what has been heard spreads, and replicas that
 have heard from all hold the newest of all writes.
 */
module RunSpread {
  import opened Clocks
  import opened Rooms
  import opened RoomLaws
  import opened History
  import opened Causality
  import opened Replication
  import opened Hearing

  /**
   Which replicas each one has heard from, directly or through others, and which the sender of
   each message had.
   */
  datatype Book = Book(heard: seq<set<nat>>, mail: map<Message, set<nat>>)

  function Told(b: Book, m: Message): set<nat> {
    if m in b.mail then b.mail[m] else {}
  }

  /** At first each replica has heard from itself, and of messages on their way nothing is known. */
  function Opening(n: nat): Book {
    Book(Selves(n), map[])
  }

  ghost function Posted(b: Book, at: nat, m: Message): Book
    requires at < |b.heard|
  {
    b.(mail := b.mail[m := Told(b, m) + b.heard[at]])
  }

  /** A delta or snapshot passes on what its sender has heard from, and applying it takes that over. */
  ghost function Noted(w: World, b: Book, step: Step): (r: Book)
    requires step.at < |w.rooms| == |b.heard|
    ensures |r.heard| == |b.heard|
  {
    match step
    case Answer(at, since, listing) => Posted(b, at, Delta(since, w.rooms[at].clock, listing))
    case TakeSnapshot(at) => Posted(b, at, Snapshot(w.rooms[at].clock, w.rooms[at].entries))
    case Deliver(at, message, order) => b.(heard := b.heard[at := b.heard[at] + Told(b, message)])
    case Write(_, _, _, _, _) => b
    case Forget(_) => b
  }

  ghost function Heard(w: World, b: Book, steps: seq<Step>): (hs: seq<set<nat>>)
    requires |w.seen| == |w.rooms| == |b.heard| && Legal(w, steps)
    ensures |hs| == |b.heard|
    decreases |steps|
  {
    if steps == [] then b.heard else Heard(Do(w, steps[0]), Noted(w, b, steps[0]), steps[1..])
  }

  /** Nobody writes and no room is removed. */
  ghost predicate Quiet(steps: seq<Step>) {
    forall i :: 0 <= i < |steps| ==> !steps[i].Write? && !steps[i].Forget?
  }

  // ---------------------------------------------------------------------------
  // What a clock brings
  // ---------------------------------------------------------------------------

  /** A clock covers a write to the key of `e` that is at least as new. */
  ghost predicate Supersedes(H: set<Entry>, c: Clock, e: Entry) {
    exists x :: x in H && x.key == e.key && Leq(x.clock, c) && AtLeast(x, e)
  }

  ghost predicate Brings(H: set<Entry>, c: Clock, q: Room) {
    forall k :: k in q.entries ==> Supersedes(H, c, q.entries[k])
  }

  ghost predicate BringsAll(H: set<Entry>, c: Clock, start: seq<Room>, heard: set<nat>) {
    forall j :: j in heard ==> j < |start| && Brings(H, c, start[j])
  }

  lemma SupersedesGrows(H: set<Entry>, c: Clock, d: Clock, e: Entry)
    requires Supersedes(H, c, e) && Leq(c, d)
    ensures Supersedes(H, d, e)
  {
    var x :| x in H && x.key == e.key && Leq(x.clock, c) && AtLeast(x, e);
    LeqTransitive(x.clock, c, d);
  }

  lemma BringsAllGrows(H: set<Entry>, c: Clock, d: Clock, start: seq<Room>, heard: set<nat>)
    requires BringsAll(H, c, start, heard) && Leq(c, d)
    ensures BringsAll(H, d, start, heard)
  {
    forall j, k | j in heard && k in start[j].entries ensures Supersedes(H, d, start[j].entries[k]) {
      assert Brings(H, c, start[j]);
      hide Leq;
      SupersedesGrows(H, c, d, start[j].entries[k]);
    }
  }

  /** Whatever a message's sender covered, its receiver covers something at least as new afterwards. */
  lemma MessageSupersedes(H: set<Entry>, r: Room, s: seq<Entry>, floor: Clock, upto: Clock, e: Entry)
    requires WellFormed(r) && Leq(floor, r.clock) && Carries(H, floor, upto, (set x | x in s)) && Supersedes(H, upto, e)
    ensures Supersedes(H, ApplyAll(r, s).clock, e)
  {
    var x :| x in H && x.key == e.key && Leq(x.clock, upto) && AtLeast(x, e);
    var c := ApplyAll(r, s).clock;
    AggregateClockLaw(r, s);
    assert Covered(H, floor, (set y | y in s), x);
    hide ApplyAll, WellFormed, Carries;
    if d :| d in s && d.key == x.key && AtLeast(d, x) {
      assert d.clock in ReceivedClocks(r, s) && d in (set y | y in s);
      AtLeastTransitive(d, x, e);
    } else {
      var v :| v in H && v.key == x.key && Leq(v.clock, floor) && AtLeast(v, x);
      AtLeastTransitive(v, x, e);
      assert r.clock in ReceivedClocks(r, s);
      LeqTransitive(v.clock, floor, r.clock);
      LeqTransitive(v.clock, r.clock, c);
    }
  }

  lemma MessageBrings(H: set<Entry>, r: Room, s: seq<Entry>, floor: Clock, upto: Clock, start: seq<Room>, heard: set<nat>)
    requires WellFormed(r) && Leq(floor, r.clock) && Carries(H, floor, upto, (set x | x in s))
    requires BringsAll(H, upto, start, heard)
    ensures BringsAll(H, ApplyAll(r, s).clock, start, heard)
  {
    hide ApplyAll, WellFormed, Carries, Leq, Supersedes;
    forall j, k | j in heard && k in start[j].entries
      ensures Supersedes(H, ApplyAll(r, s).clock, start[j].entries[k])
    {
      assert Brings(H, upto, start[j]);
      MessageSupersedes(H, r, s, floor, upto, start[j].entries[k]);
    }
  }

  lemma WithMessage(H: set<Entry>, r: Room, s: seq<Entry>, floor: Clock, upto: Clock, start: seq<Room>, heard: set<nat>, told: set<nat>)
    requires WellFormed(r) && Leq(floor, r.clock) && Carries(H, floor, upto, (set x | x in s))
    requires BringsAll(H, r.clock, start, heard) && BringsAll(H, upto, start, told)
    ensures BringsAll(H, ApplyAll(r, s).clock, start, heard + told)
  {
    AggregateClockLaw(r, s);
    assert r.clock in ReceivedClocks(r, s);
    hide ApplyAll, WellFormed, Carries, Brings;
    BringsAllGrows(H, r.clock, ApplyAll(r, s).clock, start, heard);
    MessageBrings(H, r, s, floor, upto, start, told);
  }

  // ---------------------------------------------------------------------------
  // Along a quiet run
  // ---------------------------------------------------------------------------

  ghost predicate BookOk(start: seq<Room>, w: World, b: Book) {
    && |b.heard| == |w.rooms| == |start|
    && (forall i :: 0 <= i < |w.rooms| ==> BringsAll(Writes(w), w.rooms[i].clock, start, b.heard[i]))
    && (forall m :: m in b.mail ==> BringsAll(Writes(w), Upto(m), start, b.mail[m]))
  }

  lemma ReceiverOk(start: seq<Room>, w: World, b: Book, step: Step)
    requires Inv(w) && step.Deliver? && Enabled(w, step) && BookOk(start, w, b)
    ensures BringsAll(Writes(w), Do(w, step).rooms[step.at].clock, start, b.heard[step.at] + Told(b, step.message))
  {
    hide Inv, BringsAll, Coherent, Closed, Grounded, ApplyAll, Carries, WellFormed;
    DeliverFacts(w, step);
    assert BringsAll(Writes(w), w.rooms[step.at].clock, start, b.heard[step.at]);
    JointlyBrings(Writes(w), Upto(step.message), start, {}, {});
    assert BringsAll(Writes(w), Upto(step.message), start, Told(b, step.message));
    hide BookOk;
    RoomPart(w, step.at);
    WithMessage(Writes(w), w.rooms[step.at], step.order, Floor(step.message), Upto(step.message), start,
                b.heard[step.at], Told(b, step.message));
  }

  lemma BookStaysOk(start: seq<Room>, w: World, b: Book, step: Step)
    requires Inv(w) && |w.seen| == |w.rooms| && Enabled(w, step) && !step.Write? && !step.Forget? && BookOk(start, w, b)
    ensures BookOk(start, Do(w, step), Noted(w, b, step))
  {
    hide Inv, BringsAll, ApplyAll;
    if step.Deliver? {
      ReceiverOk(start, w, b, step);
    } else {
      assert BringsAll(Writes(w), w.rooms[step.at].clock, start, b.heard[step.at]);
      forall m | m in Noted(w, b, step).mail ensures BringsAll(Writes(w), Upto(m), start, Noted(w, b, step).mail[m]) {
        JointlyBrings(Writes(w), Upto(m), start, b.heard[step.at], Told(b, m));
      }
    }
  }

  lemma JointlyBrings(H: set<Entry>, c: Clock, start: seq<Room>, heard: set<nat>, told: set<nat>)
    ensures BringsAll(H, c, start, {})
    ensures BringsAll(H, c, start, heard) && BringsAll(H, c, start, told) ==> BringsAll(H, c, start, told + heard)
  {
  }

  lemma {:induction false} RunSpreads(start: seq<Room>, w: World, b: Book, steps: seq<Step>)
    requires Inv(w) && |w.seen| == |w.rooms| && Legal(w, steps) && Quiet(steps) && BookOk(start, w, b)
    ensures Inv(Exec(w, steps)) && Writes(Exec(w, steps)) == Writes(w) && |Exec(w, steps).rooms| == |start|
    ensures forall i :: 0 <= i < |start| ==>
      BringsAll(Writes(w), Exec(w, steps).rooms[i].clock, start, Heard(w, b, steps)[i])
    decreases |steps|
  {
    hide Inv, BringsAll, Supersedes;
    if steps != [] {
      StepKeepsInv(w, steps[0]);
      BookStaysOk(start, w, b, steps[0]);
      assert Writes(Do(w, steps[0])) == Writes(w);
      hide BookOk, Writes, Do, Noted;
      RunSpreads(start, Do(w, steps[0]), Noted(w, b, steps[0]), steps[1..]);
    }
  }

  // ---------------------------------------------------------------------------
  // The newest of all writes
  // ---------------------------------------------------------------------------

  /** The room holds, for every key ever written, the greatest stamp of all its writes. */
  ghost predicate HoldsNewest(H: set<Entry>, r: Room) {
    && (forall k :: k in r.entries ==> r.entries[k] in H && r.entries[k].key == k)
    && (forall v :: v in H ==> v.key in r.entries && AtLeast(r.entries[v.key], v))
  }

  lemma NewestIsUnique(H: set<Entry>, r: Room, q: Room)
    requires HoldsNewest(H, r) && HoldsNewest(H, q)
    ensures r.entries == q.entries
  {
    forall k | k in r.entries ensures k in q.entries && r.entries[k] == q.entries[k] {
      assert r.entries[k] in H && q.entries[k] in H;
      NewerIsStrictOrder(r.entries[k], q.entries[k], r.entries[k]);
    }
    forall k | k in q.entries ensures k in r.entries {
      assert q.entries[k] in H;
    }
  }

  /** Every write is covered by some replica, as it is while no room is removed. */
  ghost predicate NothingLost(w: World) {
    forall v :: v in Writes(w) ==> Kept(w, v)
  }

  ghost predicate Kept(w: World, v: Entry) {
    exists j :: 0 <= j < |w.rooms| && Leq(v.clock, w.rooms[j].clock)
  }

  lemma WriterCovers(w: World, step: Step)
    requires Inv(w) && |w.seen| == |w.rooms| && step.Write? && Enabled(w, step)
    ensures Kept(Do(w, step), NewEntry(w, step))
  {
    hide Inv;
    RoomPart(w, step.at);
    ApplyKeepsWellFormed(w.rooms[step.at], NewEntry(w, step));
    hide WellFormed, Leq, Apply, CaughtUp;
    assert Do(w, step).rooms[step.at] == Apply(w.rooms[step.at], NewEntry(w, step));
  }

  lemma KeptStep(w: World, step: Step, v: Entry)
    requires Inv(w) && |w.seen| == |w.rooms| && Enabled(w, step) && !step.Forget? && NothingLost(w)
    requires v in Writes(Do(w, step))
    ensures Kept(Do(w, step), v)
  {
    hide Inv;
    if v in Writes(w) {
      assert Kept(w, v);
      var j :| 0 <= j < |w.rooms| && Leq(v.clock, w.rooms[j].clock);
      ClockGrows(w, step, j);
      hide Do, Enabled;
      LeqTransitive(v.clock, w.rooms[j].clock, Do(w, step).rooms[j].clock);
    } else {
      WriterCovers(w, step);
    }
  }

  lemma {:induction false} NothingLostWithoutForgetting(w: World, steps: seq<Step>)
    requires Inv(w) && |w.seen| == |w.rooms| && Legal(w, steps) && NothingLost(w)
    requires forall i :: 0 <= i < |steps| ==> !steps[i].Forget?
    ensures NothingLost(Exec(w, steps))
    decreases |steps|
  {
    if steps != [] {
      StepKeepsInv(w, steps[0]);
      forall v | v in Writes(Do(w, steps[0])) ensures Kept(Do(w, steps[0]), v) {
        KeptStep(w, steps[0], v);
      }
      hide Inv, Kept;
      NothingLostWithoutForgetting(Do(w, steps[0]), steps[1..]);
    }
  }

  lemma NewestFromAll(H: set<Entry>, start: seq<Room>, r: Room, v: Entry)
    requires Determined(H, r) && v in H
    requires exists j :: 0 <= j < |start| && Leq(v.clock, start[j].clock)
    requires forall j :: 0 <= j < |start| ==> Determined(H, start[j]) && Brings(H, r.clock, start[j])
    ensures v.key in r.entries && AtLeast(r.entries[v.key], v)
  {
    var j :| 0 <= j < |start| && Leq(v.clock, start[j].clock);
    assert Determined(H, start[j]) && Brings(H, r.clock, start[j]);
    var e := start[j].entries[v.key];
    assert Supersedes(H, r.clock, e);
    var x :| x in H && x.key == e.key && Leq(x.clock, r.clock) && AtLeast(x, e);
    hide Closed, Leq, WellFormed;
    AtLeastTransitive(x, e, v);
    AtLeastTransitive(r.entries[v.key], x, v);
  }

  lemma OwnBrings(H: set<Entry>, r: Room)
    requires Determined(H, r)
    ensures Brings(H, r.clock, r)
  {
    forall k | k in r.entries ensures Supersedes(H, r.clock, r.entries[k]) {
      var x := r.entries[k];
      assert x in H && Leq(x.clock, r.clock) && AtLeast(x, x);
    }
  }

  lemma OpeningOk(w: World)
    requires Reachable(w)
    ensures BookOk(w.rooms, w, Opening(|w.rooms|))
  {
    forall i | 0 <= i < |w.rooms| ensures BringsAll(Writes(w), w.rooms[i].clock, w.rooms, {i}) {
      ReachableRoom(w, i);
      hide Reachable, Determined;
      OwnBrings(Writes(w), w.rooms[i]);
    }
  }

  /**
   From any reachable state that has lost no write, after any schedule of messages without new writes
   through which a replica has heard from every replica, it holds the newest of all writes ever made
   to each key.  Deltas against any clocks, snapshots, single writes and whatever was on its way
   before may arrive in between, stale, repeated and out of order.
   */
  lemma HearingFromAllIsEnough(w: World, steps: seq<Step>, i: nat)
    requires Reachable(w) && |w.seen| == |w.rooms| && Legal(w, steps) && Quiet(steps) && NothingLost(w)
    requires i < |w.rooms| && FromAll(Heard(w, Opening(|w.rooms|), steps)[i], |w.rooms|)
    ensures |Exec(w, steps).rooms| == |w.rooms| && HoldsNewest(Writes(w), Exec(w, steps).rooms[i])
    ensures forall v :: v in Writes(w) ==> NoLater(v, Exec(w, steps).rooms[i].entries[v.key])
  {
    hide Reachable, Inv, Legal, Exec, Heard, Brings, BringsAll, Quiet, Determined;
    var H, b, r := Writes(w), Opening(|w.rooms|), Exec(w, steps).rooms[i];
    ReachableInv(w);
    OpeningOk(w);
    RunSpreads(w.rooms, w, b, steps);
    EndDetermined(Exec(w, steps), i);
    hide BookOk;
    HeardBrings(w, H, r.clock, Heard(w, b, steps)[i]);
    assert forall k :: k in r.entries ==> r.entries[k] in H && r.entries[k].key == k by {
      DeterminedHolds(H, r);
    }
    forall v | v in H ensures v.key in r.entries && AtLeast(r.entries[v.key], v) {
      assert Kept(w, v);
      NewestFromAll(H, w.rooms, r, v);
    }
    forall v | v in H ensures NoLater(v, r.entries[v.key]) {
      AtLeastMeans(r.entries[v.key], v);
    }
  }

  lemma DeterminedHolds(H: set<Entry>, r: Room)
    requires Determined(H, r)
    ensures forall k :: k in r.entries ==> r.entries[k] in H && r.entries[k].key == k
  {
  }

  lemma HeardBrings(w: World, H: set<Entry>, c: Clock, heard: set<nat>)
    requires Reachable(w) && H == Writes(w) && BringsAll(H, c, w.rooms, heard) && FromAll(heard, |w.rooms|)
    ensures forall j :: 0 <= j < |w.rooms| ==> Determined(H, w.rooms[j]) && Brings(H, c, w.rooms[j])
  {
    hide Reachable, Determined, Brings;
    forall j | 0 <= j < |w.rooms| ensures Determined(H, w.rooms[j]) && Brings(H, c, w.rooms[j]) {
      ReachableRoom(w, j);
    }
  }

  lemma EndDetermined(w: World, i: nat)
    requires Inv(w) && i < |w.rooms|
    ensures Determined(Writes(w), w.rooms[i])
  {
    hide Ok, NetworkOk, Determined;
  }

  /** Hence replicas that have each heard from all hold identical entries, whatever their clocks. */
  lemma AnyRunConverges(w: World, steps: seq<Step>, i: nat, j: nat)
    requires Reachable(w) && |w.seen| == |w.rooms| && Legal(w, steps) && Quiet(steps) && NothingLost(w)
    requires i < |w.rooms| && FromAll(Heard(w, Opening(|w.rooms|), steps)[i], |w.rooms|)
    requires j < |w.rooms| && FromAll(Heard(w, Opening(|w.rooms|), steps)[j], |w.rooms|)
    ensures |Exec(w, steps).rooms| == |w.rooms|
    ensures Exec(w, steps).rooms[i].entries == Exec(w, steps).rooms[j].entries
  {
    HearingFromAllIsEnough(w, steps, i);
    HearingFromAllIsEnough(w, steps, j);
    hide *;
    NewestIsUnique(Writes(w), Exec(w, steps).rooms[i], Exec(w, steps).rooms[j]);
  }

  // ---------------------------------------------------------------------------
  // Hearing
  // ---------------------------------------------------------------------------

  /** The steps of one sync: `from` answers the clock of `to`, and `to` applies the answer. */
  ghost function SyncSteps(w: World, to: nat, from: nat, listing: seq<Entry>): seq<Step>
    requires to < |w.rooms| && from < |w.rooms|
  {
    [Answer(from, w.rooms[to].clock, listing),
     Deliver(to, Delta(w.rooms[to].clock, w.rooms[from].clock, listing), listing)]
  }

  /** One sync can always be made, and through it the receiver hears from all that the sender had heard from. */
  lemma SyncHears(w: World, b: Book, to: nat, from: nat, listing: seq<Entry>)
    requires |w.seen| == |w.rooms| == |b.heard| && to < |w.rooms| && from < |w.rooms|
    requires Lists(listing, Rooms.Delta(w.rooms[from], w.rooms[to].clock))
    ensures Legal(w, SyncSteps(w, to, from, listing)) && Quiet(SyncSteps(w, to, from, listing))
    ensures b.heard[to] + b.heard[from] <= Heard(w, b, SyncSteps(w, to, from, listing))[to]
  {
    var steps := SyncSteps(w, to, from, listing);
    CompareIsPartialOrder(w.rooms[to].clock, w.rooms[to].clock, w.rooms[to].clock);
    hide ApplyAll, Lists;
    var w1, b1 := Do(w, steps[0]), Noted(w, b, steps[0]);
    assert steps[1..][0] == steps[1] && steps[1..][1..] == [];
    assert Enabled(w1, steps[1]);
    var w2, b2 := Do(w1, steps[1]), Noted(w1, b1, steps[1]);
    assert Legal(w2, []) && Legal(w1, steps[1..]);
    assert Heard(w2, b2, []) == b2.heard;
    assert Heard(w1, b1, steps[1..]) == Heard(w2, b2, steps[1..][1..]);
  }
}
