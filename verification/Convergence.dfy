/**
 What holds in every world that replicas of a room can reach (`p2p/src/room_state.rs`):
 a replica's entries are a function of its clock, and incremental sync is as good as a full
 transfer.  At the end, why each hypothesis is there.
 */
module Convergence {
  import opened Times
  import opened Clocks
  import opened Rooms
  import opened RoomLaws
  import opened History
  import opened Causality
  import opened Replication
  import CausalRuns

  // ---------------------------------------------------------------------------
  // State is a function of the clock
  // ---------------------------------------------------------------------------

  /** `x` is the greatest-stamped write of `k` among those a clock covers. */
  ghost predicate GreatestBelow(H: set<Entry>, c: Clock, k: Key, x: Entry) {
    && x in H && x.key == k && Leq(x.clock, c)
    && forall v :: v in H && v.key == k && Leq(v.clock, c) && v != x ==> Newer(x, v)
  }

  lemma GreatestIsUnique(H: set<Entry>, c: Clock, k: Key, x: Entry, y: Entry)
    requires GreatestBelow(H, c, k, x) && GreatestBelow(H, c, k, y)
    ensures x == y
  {
    NewerIsStrictOrder(x, y, x);
  }

  lemma DeterminedMeans(H: set<Entry>, r: Room, k: Key)
    requires Determined(H, r)
    ensures k in r.entries <==> exists v :: v in H && v.key == k && Leq(v.clock, r.clock)
    ensures k in r.entries ==> GreatestBelow(H, r.clock, k, r.entries[k])
  {
  }

  /**
   In every reachable world, each replica's entry for a key is the greatest-stamped write of
   that key its clock covers, and it has an entry exactly when its clock covers some write.
   */
  lemma StateIsFunctionOfClock(w: World, j: nat, k: Key)
    requires Reachable(w) && j < |w.rooms|
    ensures k in w.rooms[j].entries <==> exists v :: v in Writes(w) && v.key == k && Leq(v.clock, w.rooms[j].clock)
    ensures k in w.rooms[j].entries ==> GreatestBelow(Writes(w), w.rooms[j].clock, k, w.rooms[j].entries[k])
    ensures k in w.rooms[j].entries ==> forall v :: v in Writes(w) && v.key == k && Leq(v.clock, w.rooms[j].clock) ==>
      NoLater(v, w.rooms[j].entries[k])
  {
    ReachableRoom(w, j);
    DeterminedMeans(Writes(w), w.rooms[j], k);
    hide Reachable, Determined, Coherent;
    if k in w.rooms[j].entries {
      forall v | v in Writes(w) && v.key == k && Leq(v.clock, w.rooms[j].clock)
        ensures NoLater(v, w.rooms[j].entries[k])
      {
        AtLeastMeans(w.rooms[j].entries[k], v);
      }
    }
  }

  lemma SameClockSameEntry(H: set<Entry>, ri: Room, rj: Room, k: Key)
    requires Determined(H, ri) && Determined(H, rj)
    requires Below(H, ri.clock) == Below(H, rj.clock)
    ensures k in ri.entries <==> k in rj.entries
    ensures k in ri.entries ==> ri.entries[k] == rj.entries[k]
  {
    assert forall v :: v in H ==> (Leq(v.clock, ri.clock) <==> v in Below(H, rj.clock));
    DeterminedMeans(H, ri, k);
    DeterminedMeans(H, rj, k);
    if k in ri.entries && k in rj.entries {
      GreatestIsUnique(H, rj.clock, k, ri.entries[k], rj.entries[k]);
    }
  }

  lemma EqualClocksEqualEntry(w: World, i: nat, j: nat, k: Key)
    requires Reachable(w) && i < |w.rooms| && j < |w.rooms|
    requires Same(w.rooms[i].clock, w.rooms[j].clock)
    ensures k in w.rooms[i].entries <==> k in w.rooms[j].entries
    ensures k in w.rooms[i].entries ==> w.rooms[i].entries[k] == w.rooms[j].entries[k]
  {
    ReachableRoom(w, i);
    ReachableRoom(w, j);
    ClosedUpToSame(Writes(w), w.rooms[i].clock, w.rooms[j].clock);
    SameClockSameEntry(Writes(w), w.rooms[i], w.rooms[j], k);
  }

  /** Hence replicas with equal clocks hold identical entries. */
  lemma EqualClocksEqualEntries(w: World, i: nat, j: nat)
    requires Reachable(w) && i < |w.rooms| && j < |w.rooms|
    requires Same(w.rooms[i].clock, w.rooms[j].clock)
    ensures w.rooms[i].entries == w.rooms[j].entries
  {
    forall k
      ensures k in w.rooms[i].entries <==> k in w.rooms[j].entries
      ensures k in w.rooms[i].entries ==> w.rooms[i].entries[k] == w.rooms[j].entries[k]
    {
      EqualClocksEqualEntry(w, i, j, k);
    }
  }

  // ---------------------------------------------------------------------------
  // Synchronisation
  // ---------------------------------------------------------------------------

  /** Whatever a replica's clock covers can no longer change that replica. */
  lemma CoveredIsRefused(H: set<Entry>, r: Room, e: Entry)
    requires Coherent(H) && Determined(H, r) && e in H && Leq(e.clock, r.clock)
    ensures e.key in r.entries && !Accepts(r, e)
  {
    CoherentStamps(H);
    var held := r.entries[e.key];
    if held != e {
      BeatsIsNewer(H, e, held);
      NewerIsStrictOrder(e, held, e);
    } else {
      BeatsIsIrreflexive(e);
    }
  }

  lemma BeatsIsIrreflexive(e: Entry)
    ensures !Beats(e, e)
  {
    if Beats(e, e) {
      BeatsIsAsymmetric(e, e);
    }
  }

  lemma DeltaIsEnough(H: set<Entry>, ri: Room, rj: Room, since: Clock, s: seq<Entry>, t: seq<Entry>, k: Key)
    requires Coherent(H) && Determined(H, ri) && Determined(H, rj) && Leq(since, rj.clock)
    requires Lists(s, Rooms.Delta(ri, since)) && Lists(t, ri.entries)
    ensures k in ApplyAll(rj, s).entries <==> k in ApplyAll(rj, t).entries
    ensures k in ApplyAll(rj, s).entries ==> ApplyAll(rj, s).entries[k] == ApplyAll(rj, t).entries[k]
    ensures k in Updated(rj, s) <==> k in Updated(rj, t)
  {
    hide ApplyAll, Updated, Coherent, Determined;
    WellFormedOf(H, ri);
    WellFormedOf(H, rj);
    DistinctKeys(rj, s, k);
    DistinctKeys(rj, t, k);
    hide WellFormed;
    if k in ri.entries {
      var e := ri.entries[k];
      assert e in t;
      ListedSince(ri, since, s, k);
      if NewFor(e, since) {
        assert e in s;
      } else {
        NewForMeaning(e, since);
        LeqTransitive(e.clock, since, rj.clock);
        CoveredIsRefused(H, rj, e) by {
          WrittenOf(H, ri, k);
        }
      }
    } else {
      assert forall x :: x in s ==> x.key != k;
      assert forall x :: x in t ==> x.key != k;
    }
  }

  lemma WellFormedOf(H: set<Entry>, r: Room)
    requires Determined(H, r)
    ensures WellFormed(r)
  {
  }

  lemma WrittenOf(H: set<Entry>, r: Room, k: Key)
    requires Determined(H, r) && k in r.entries
    ensures r.entries[k] in H && r.entries[k].key == k
  {
  }

  /** A delta lists an entry exactly when it is new, and nothing else under its key. */
  lemma ListedSince(r: Room, since: Clock, s: seq<Entry>, k: Key)
    requires WellFormed(r) && Lists(s, Rooms.Delta(r, since)) && k in r.entries
    ensures r.entries[k].key == k
    ensures NewFor(r.entries[k], since) ==> r.entries[k] in s
    ensures !NewFor(r.entries[k], since) ==> forall x :: x in s ==> x.key != k
  {
    hide NewFor;
    if NewFor(r.entries[k], since) {
      assert Rooms.Delta(r, since)[k] in s;
    }
  }

  lemma DeltaClockIsEnough(ri: Room, rj: Room, since: Clock, s: seq<Entry>, t: seq<Entry>)
    requires WellFormed(ri) && WellFormed(rj) && Leq(since, rj.clock)
    requires Lists(s, Rooms.Delta(ri, since)) && Lists(t, ri.entries)
    ensures Same(ApplyAll(rj, s).clock, ApplyAll(rj, t).clock)
  {
    hide ApplyAll, WellFormed;
    var cs, ct := ApplyAll(rj, s).clock, ApplyAll(rj, t).clock;
    AggregateClockLaw(rj, s);
    AggregateClockLaw(rj, t);
    forall d | d in ReceivedClocks(rj, s) ensures Leq(d, ct) {
      if d != rj.clock {
        var e :| e in s && e.clock == d;
        assert ri.entries[e.key] in t;
      }
      assert d in ReceivedClocks(rj, t);
    }
    forall d | d in ReceivedClocks(rj, t) ensures Leq(d, cs) {
      if d != rj.clock {
        var e :| e in t && e.clock == d;
        NewForMeaning(e, since);
        if NewFor(e, since) {
          assert Rooms.Delta(ri, since)[e.key] in s;
          assert d in ReceivedClocks(rj, s);
        } else {
          LeqTransitive(d, since, rj.clock);
          LeqTransitive(d, rj.clock, cs);
        }
      }
    }
    CompareIsPartialOrder(cs, ct, cs);
  }

  /** A room as it was at some point of a run, and a room at its end, both determined by their clocks. */
  lemma ThenAndNow(w: World, steps: seq<Step>, i: nat, j: nat)
    requires Reachable(w) && |w.seen| == |w.rooms| && Legal(w, steps) && i < |w.rooms| && j < |w.rooms|
    ensures var H, now := Writes(Exec(w, steps)), Exec(w, steps).rooms;
      j < |now| && Coherent(H) && Determined(H, w.rooms[i]) && Determined(H, now[j])
  {
    ReachableInv(w);
    OkPart(w);
    OkRoom(Core(w), i) by {
      hide Inv;
    }
    ReachableRoom(w, i);
    StaysDetermined(w, steps, w.rooms[i]) by {
      hide Ok, Inv, Determined, Grounded, Closed, Coherent;
    }
    RunKeepsInv(w, steps);
    hide Ok, NetworkOk, Determined, Coherent, Reachable;
  }

  lemma SyncKey(w: World, steps: seq<Step>, i: nat, j: nat, since: Clock, s: seq<Entry>, t: seq<Entry>, k: Key)
    requires Reachable(w) && |w.seen| == |w.rooms| && Legal(w, steps) && i < |w.rooms| && j < |w.rooms|
    requires Leq(since, Exec(w, steps).rooms[j].clock)
    requires Lists(s, Rooms.Delta(w.rooms[i], since)) && Lists(t, w.rooms[i].entries)
    ensures var r := Exec(w, steps).rooms[j];
      && (k in ApplyAll(r, s).entries <==> k in ApplyAll(r, t).entries)
      && (k in ApplyAll(r, s).entries ==> ApplyAll(r, s).entries[k] == ApplyAll(r, t).entries[k])
      && (k in Updated(r, s) <==> k in Updated(r, t))
  {
    ThenAndNow(w, steps, i, j);
    hide Reachable, Legal, Exec, Determined, Coherent, ApplyAll, Updated, Lists;
    DeltaIsEnough(Writes(Exec(w, steps)), w.rooms[i], Exec(w, steps).rooms[j], since, s, t, k);
  }

  lemma SyncClock(w: World, steps: seq<Step>, i: nat, j: nat, since: Clock, s: seq<Entry>, t: seq<Entry>)
    requires Reachable(w) && |w.seen| == |w.rooms| && Legal(w, steps) && i < |w.rooms| && j < |w.rooms|
    requires Leq(since, Exec(w, steps).rooms[j].clock)
    requires Lists(s, Rooms.Delta(w.rooms[i], since)) && Lists(t, w.rooms[i].entries)
    ensures Same(ApplyAll(Exec(w, steps).rooms[j], s).clock, ApplyAll(Exec(w, steps).rooms[j], t).clock)
  {
    ThenAndNow(w, steps, i, j);
    hide Reachable, Legal, Exec, Coherent, Closed, ApplyAll, Lists;
    DeltaClockIsEnough(w.rooms[i], Exec(w, steps).rooms[j], since, s, t);
  }

  /**
   Incremental sync refines full transfer: a delta built against any clock the receiver has by the
   time it applies it, its current one or an earlier one, has the same effect on the receiver, and
   the same report, as restoring the snapshot the sender would have taken instead.
   */
  lemma IncrementalSyncRefinesFullTransfer(
      w: World, steps: seq<Step>, i: nat, j: nat, since: Clock, s: seq<Entry>, t: seq<Entry>)
    requires Reachable(w) && |w.seen| == |w.rooms| && Legal(w, steps) && i < |w.rooms| && j < |w.rooms|
    requires Leq(since, Exec(w, steps).rooms[j].clock)
    requires Lists(s, Rooms.Delta(w.rooms[i], since)) && Lists(t, w.rooms[i].entries)
    ensures var r := Exec(w, steps).rooms[j];
      && ApplyAll(r, s).entries == ApplyAll(r, t).entries
      && Same(ApplyAll(r, s).clock, ApplyAll(r, t).clock)
      && forall k :: k in Updated(r, s) <==> k in Updated(r, t)
  {
    hide Reachable, Legal, ApplyAll, Updated, Lists, Same, Leq;
    var r := Exec(w, steps).rooms[j];
    SyncClock(w, steps, i, j, since, s, t);
    forall k
      ensures k in ApplyAll(r, s).entries <==> k in ApplyAll(r, t).entries
      ensures k in ApplyAll(r, s).entries ==> ApplyAll(r, s).entries[k] == ApplyAll(r, t).entries[k]
      ensures k in Updated(r, s) <==> k in Updated(r, t)
    {
      SyncKey(w, steps, i, j, since, s, t, k);
    }
  }

  /** After `s`, the receiver holds something at least as new as every entry of the sender. */
  lemma ReceiverCatchesUp(H: set<Entry>, ri: Room, rj: Room, s: seq<Entry>, k: Key)
    requires Coherent(H) && Determined(H, ri) && Determined(H, rj)
    requires Lists(s, Rooms.Delta(ri, rj.clock)) && k in ri.entries
    ensures k in ApplyAll(rj, s).entries && AtLeast(ApplyAll(rj, s).entries[k], ri.entries[k])
  {
    var e := ri.entries[k];
    DeltaCarries(H, ri, rj.clock, s);
    DeliverySurvivor(H, rj, s, k);
    NewForMeaning(e, rj.clock);
    if NewFor(e, rj.clock) {
      assert Rooms.Delta(ri, rj.clock)[k] in s;
      assert e in Contenders(rj, s, k);
    } else {
      assert rj.entries[k] in Contenders(rj, s, k);
      AtLeastTransitive(ApplyAll(rj, s).entries[k], rj.entries[k], e);
    }
  }

  /** What the sender ends up with, the receiver already has something at least as new as. */
  lemma SenderGainsNothingElse(H: set<Entry>, ri: Room, rj: Room, s: seq<Entry>, t: seq<Entry>, k: Key)
    requires Coherent(H) && Determined(H, ri) && Determined(H, rj)
    requires Lists(s, Rooms.Delta(ri, rj.clock)) && Lists(t, Rooms.Delta(ApplyAll(rj, s), ri.clock))
    requires k in ApplyAll(ri, t).entries
    ensures k in ApplyAll(rj, s).entries && AtLeast(ApplyAll(rj, s).entries[k], ApplyAll(ri, t).entries[k])
  {
    var x := ApplyAll(ri, t).entries[k];
    assert x in Contenders(ri, t, k) by {
      Survivor(ri, t, k);
    }
    if x in t {
      assert x == ApplyAll(rj, s).entries[x.key];
    } else {
      ReceiverCatchesUp(H, ri, rj, s, k);
    }
  }

  lemma OneSyncEachWayKey(w: World, i: nat, j: nat, s: seq<Entry>, t: seq<Entry>, k: Key)
    requires Reachable(w) && i < |w.rooms| && j < |w.rooms|
    requires Lists(s, Rooms.Delta(w.rooms[i], w.rooms[j].clock))
    requires Lists(t, Rooms.Delta(ApplyAll(w.rooms[j], s), w.rooms[i].clock))
    ensures k in ApplyAll(w.rooms[i], t).entries <==> k in ApplyAll(w.rooms[j], s).entries
    ensures k in ApplyAll(w.rooms[i], t).entries ==>
      ApplyAll(w.rooms[i], t).entries[k] == ApplyAll(w.rooms[j], s).entries[k]
  {
    ReachableRoom(w, i);
    ReachableRoom(w, j);
    var H, ri, rj := Writes(w), w.rooms[i], w.rooms[j];
    DeltaCarries(H, ri, rj.clock, s);
    CompareIsPartialOrder(rj.clock, rj.clock, rj.clock);
    Delivery(H, rj, s, rj.clock, ri.clock);
    if k in ApplyAll(rj, s).entries {
      ReceiverCatchesUp(H, ApplyAll(rj, s), ri, t, k);
    }
    if k in ApplyAll(ri, t).entries {
      SenderGainsNothingElse(H, ri, rj, s, t, k);
      NewerIsStrictOrder(ApplyAll(ri, t).entries[k], ApplyAll(rj, s).entries[k], ApplyAll(ri, t).entries[k]);
    }
  }

  /** One sync each way leaves both replicas with identical entries, whatever their clocks. */
  lemma OneSyncEachWay(w: World, i: nat, j: nat, s: seq<Entry>, t: seq<Entry>)
    requires Reachable(w) && i < |w.rooms| && j < |w.rooms|
    requires Lists(s, Rooms.Delta(w.rooms[i], w.rooms[j].clock))
    requires Lists(t, Rooms.Delta(ApplyAll(w.rooms[j], s), w.rooms[i].clock))
    ensures ApplyAll(w.rooms[i], t).entries == ApplyAll(w.rooms[j], s).entries
  {
    forall k
      ensures k in ApplyAll(w.rooms[i], t).entries <==> k in ApplyAll(w.rooms[j], s).entries
      ensures k in ApplyAll(w.rooms[i], t).entries ==>
        ApplyAll(w.rooms[i], t).entries[k] == ApplyAll(w.rooms[j], s).entries[k]
    {
      OneSyncEachWayKey(w, i, j, s, t, k);
    }
  }

  // ---------------------------------------------------------------------------
  // These runs among all runs
  // ---------------------------------------------------------------------------

  /** `c` has the same replicas as `w`, and a packet on the wire for every message of `w`. */
  ghost predicate Mirrors(w: World, c: CausalRuns.World) {
    && CausalRuns.Sized(c) && c.core == Core(w)
    && forall m :: m in w.network ==> Carried(c, m)
  }

  ghost predicate Carried(c: CausalRuns.World, m: Message) {
    exists p :: p in c.wire && p.entries == Payload(m)
  }

  /** What a replica holds it has incorporated, so it may be sent. */
  lemma HeldIsSeen(w: World, at: nat, k: Key)
    requires Inv(w) && at < |w.rooms| && k in w.rooms[at].entries
    ensures |w.seen| == |w.rooms| && w.rooms[at].entries[k] in w.seen[at]
  {
    OkRoom(Core(w), at);
    hide Ok, Grounded, Closed;
  }

  lemma SendMirrored(w: World, step: Step, c: CausalRuns.World, m: Message) returns (c': CausalRuns.World)
    requires |w.seen| == |w.rooms| && Enabled(w, step) && Mirrors(w, c) && CausalRuns.Reachable(c)
    requires Payload(m) <= w.seen[step.at]
    requires Do(w, step) == w.(network := w.network + {m})
    ensures Mirrors(Do(w, step), c') && CausalRuns.Reachable(c')
  {
    var send := CausalRuns.Send(step.at, Payload(m));
    hide CausalRuns.Reachable;
    CausalRuns.StepReachable(c, send);
    c' := CausalRuns.Do(c, send);
    forall n | n in Do(w, step).network ensures Carried(c', n) {
      if n in w.network {
        assert Carried(c, n);
        var p :| p in c.wire && p.entries == Payload(n);
        assert p in c'.wire;
      } else {
        assert CausalRuns.Packet(Payload(m), c.core.rooms[step.at].clock, c.heard[step.at]) in c'.wire;
      }
    }
  }

  lemma WrittenInCausalRun(w: World, step: Step, c: CausalRuns.World) returns (c1: CausalRuns.World)
    requires Inv(w) && step.Write? && |w.seen| == |w.rooms| && Enabled(w, step)
    requires CausalRuns.Sized(c) && c.core == Core(w) && CausalRuns.Reachable(c)
    ensures CausalRuns.Reachable(c1) && CausalRuns.Sized(c1)
    ensures c1.core == Core(Do(w, step)) && c1.wire == c.wire
    ensures |c1.core.rooms| == |w.rooms| && NewEntry(w, step) in c1.core.seen[step.at]
  {
    hide CausalRuns.Reachable, Inv, Apply, Ticked;
    var write := CausalRuns.Write(step.at, step.agent, step.key, step.value, step.now);
    CausalRuns.StepReachable(c, write);
    c1 := CausalRuns.Do(c, write);
    WriteStep(w, step);
  }

  lemma WriteMirrored(w: World, step: Step, c: CausalRuns.World) returns (c': CausalRuns.World)
    requires Inv(w) && step.Write? && |w.seen| == |w.rooms| && Enabled(w, step)
    requires Mirrors(w, c) && CausalRuns.Reachable(c)
    ensures Mirrors(Do(w, step), c') && CausalRuns.Reachable(c')
  {
    hide CausalRuns.Reachable, Inv, Apply, CanWrite, WriteAt, Ticked, CaughtUp;
    var e := NewEntry(w, step);
    WriteStep(w, step);
    var c1 := WrittenInCausalRun(w, step, c);
    var send := CausalRuns.Send(step.at, {e});
    CausalRuns.StepReachable(c1, send);
    c' := CausalRuns.Do(c1, send);
    forall m | m in Do(w, step).network ensures Carried(c', m) {
      if m in w.network {
        assert Carried(c, m);
        var p :| p in c.wire && p.entries == Payload(m);
        assert p in c'.wire;
      } else {
        assert CausalRuns.Packet({e}, c1.core.rooms[step.at].clock, c1.heard[step.at]) in c'.wire;
      }
    }
  }

  lemma DeliverMirrored(w: World, step: Step, c: CausalRuns.World) returns (c': CausalRuns.World)
    requires Inv(w) && step.Deliver? && |w.seen| == |w.rooms| && Enabled(w, step)
    requires Mirrors(w, c) && CausalRuns.Reachable(c)
    ensures Mirrors(Do(w, step), c') && CausalRuns.Reachable(c')
  {
    hide CausalRuns.Reachable, Inv, ApplyAll, MessageOk, Coherent, Determined;
    DeliverFacts(w, step);
    assert Carried(c, step.message);
    var p :| p in c.wire && p.entries == Payload(step.message);
    var deliver := CausalRuns.Deliver(step.at, p, step.order);
    CausalRuns.StepReachable(c, deliver);
    c' := CausalRuns.Do(c, deliver);
    forall m | m in Do(w, step).network ensures Carried(c', m) {
      assert Carried(c, m);
      var q :| q in c.wire && q.entries == Payload(m);
      assert q in c'.wire;
    }
  }

  lemma ForgetMirrored(w: World, step: Step, c: CausalRuns.World) returns (c': CausalRuns.World)
    requires step.Forget? && |w.seen| == |w.rooms| && Enabled(w, step) && Mirrors(w, c) && CausalRuns.Reachable(c)
    ensures Mirrors(Do(w, step), c') && CausalRuns.Reachable(c')
  {
    hide CausalRuns.Reachable;
    CausalRuns.StepReachable(c, CausalRuns.Forget(step.at));
    c' := CausalRuns.Do(c, CausalRuns.Forget(step.at));
    forall m | m in Do(w, step).network ensures Carried(c', m) {
      assert Carried(c, m);
    }
  }

  lemma StepMirrored(w: World, step: Step, c: CausalRuns.World) returns (c': CausalRuns.World)
    requires Inv(w) && |w.seen| == |w.rooms| && Enabled(w, step) && Mirrors(w, c) && CausalRuns.Reachable(c)
    ensures Mirrors(Do(w, step), c') && CausalRuns.Reachable(c')
  {
    match step
    case Write(_, _, _, _, _) => c' := WriteMirrored(w, step, c);
    case Deliver(_, _, _) => c' := DeliverMirrored(w, step, c);
    case Answer(at, since, listing) =>
      forall e | e in listing ensures e in w.seen[at] {
        HeldIsSeen(w, at, e.key);
      }
      c' := SendMirrored(w, step, c, Delta(since, w.rooms[at].clock, listing));
    case Forget(_) => c' := ForgetMirrored(w, step, c);
    case TakeSnapshot(at) =>
      forall k | k in w.rooms[at].entries ensures w.rooms[at].entries[k] in w.seen[at] {
        HeldIsSeen(w, at, k);
      }
      c' := SendMirrored(w, step, c, Snapshot(w.rooms[at].clock, w.rooms[at].entries));
  }

  lemma {:induction false} RunMirrored(w: World, steps: seq<Step>, c: CausalRuns.World) returns (c': CausalRuns.World)
    requires Inv(w) && |w.seen| == |w.rooms| && Legal(w, steps) && Mirrors(w, c) && CausalRuns.Reachable(c)
    ensures Mirrors(Exec(w, steps), c') && CausalRuns.Reachable(c')
    decreases |steps|
  {
    if steps == [] {
      c' := c;
    } else {
      var c1 := StepMirrored(w, steps[0], c);
      StepKeepsInv(w, steps[0]);
      hide Inv, Mirrors, CausalRuns.Reachable;
      c' := RunMirrored(Do(w, steps[0]), steps[1..], c1);
    }
  }

  /** Every run here is one of `CausalRuns`: all that is proved there of clocks and causality holds of these too. */
  lemma RunsAreCausal(w: World) returns (c: CausalRuns.World)
    requires Reachable(w)
    ensures CausalRuns.Reachable(c) && c.core == Core(w)
  {
    var n: nat, steps :| Legal(Init(n), steps) && Exec(Init(n), steps) == w;
    var c0 := CausalRuns.Init(n);
    StartMirrored(n, c0);
    hide Inv, Mirrors, CausalRuns.Reachable;
    c := RunMirrored(Init(n), steps, c0);
    assert c.core == Core(w) by {
      MirrorsMeans(w, c);
    }
  }

  lemma MirrorsMeans(w: World, c: CausalRuns.World)
    requires Mirrors(w, c)
    ensures c.core == Core(w)
  {
  }

  lemma StartMirrored(n: nat, c: CausalRuns.World)
    requires c == CausalRuns.Init(n)
    ensures Inv(Init(n)) && Mirrors(Init(n), c) && CausalRuns.Reachable(c)
  {
    assert CausalRuns.Run([c], []) && [c][0] == c;
  }

  // ---------------------------------------------------------------------------
  // Why the hypotheses
  // ---------------------------------------------------------------------------

  /**
   After a write with any timestamp, the writing replica's entry is still the greatest-stamped
   write its clock covers exactly when the write's stamp beats the entry it replaced.
   */
  lemma WriteNeedsFreshStamp(w: World, at: nat, agent: Agent, key: Key, value: Value, now: Time)
    requires Reachable(w) && at < |w.rooms| == |w.seen| && CaughtUp(Core(w), agent, at)
    ensures var r := w.rooms[at];
      var e := Written(r, agent, key, value, now);
      GreatestBelow(Writes(w) + {e}, Apply(r, e).clock, key, Apply(r, e).entries[key])
      <==> (key in r.entries ==> Newer(e, r.entries[key]))
  {
    var r := w.rooms[at];
    var e := Written(r, agent, key, value, now);
    LocalWriteWins(r, agent, key, value, now) by {
      ReachableRoom(w, at);
    }
    if key in r.entries && !Newer(e, r.entries[key]) {
      OverwrittenIsCovered(w, at, agent, key, value, now);
    } else {
      FreshWriteDetermined(w, at, agent, key, value, now);
      DeterminedMeans(Writes(w) + {e}, Apply(r, e), key);
    }
  }

  /** That follows whenever the clock read is later than every timestamp the replica holds. */
  lemma LaterClockMayWrite(w: World, at: nat, agent: Agent, key: Key, value: Value, now: Time)
    requires at < |w.rooms| == |w.seen| && CaughtUp(Core(w), agent, at)
    requires forall k :: k in w.rooms[at].entries ==> w.rooms[at].entries[k].updatedAt < now
    ensures Enabled(w, Write(at, agent, key, value, now))
  {
  }

  lemma OverwrittenIsCovered(w: World, at: nat, agent: Agent, key: Key, value: Value, now: Time)
    requires Reachable(w) && at < |w.rooms| && key in w.rooms[at].entries
    ensures var r := w.rooms[at];
      var held, e := r.entries[key], Written(r, agent, key, value, now);
      held in Writes(w) && held.key == key && Leq(held.clock, Apply(r, e).clock) && held != e
  {
    ReachableRoom(w, at);
    var r := w.rooms[at];
    var e := Written(r, agent, key, value, now);
    LocalWriteWins(r, agent, key, value, now);
    ApplyKeepsWellFormed(r, e);
    LeqTransitive(r.entries[key].clock, r.clock, Apply(r, e).clock);
  }

  lemma FreshWriteDetermined(w: World, at: nat, agent: Agent, key: Key, value: Value, now: Time)
    requires Reachable(w) && at < |w.rooms| == |w.seen| && CaughtUp(Core(w), agent, at)
    requires key in w.rooms[at].entries ==>
      Newer(Written(w.rooms[at], agent, key, value, now), w.rooms[at].entries[key])
    ensures var e := Written(w.rooms[at], agent, key, value, now);
      Determined(Writes(w) + {e}, Apply(w.rooms[at], e))
  {
    ReachableInv(w);
    WriterFacts(w, Write(at, agent, key, value, now));
    WriterDetermined(Writes(w), w.rooms[at], Written(w.rooms[at], agent, key, value, now));
  }

  /** An agent writing at two replicas can make one clock mean two writes; then order matters. */
  lemma TwoHomesDiverge(x: Entry, y: Entry)
    requires x.key == y.key && x != y && Same(x.clock, y.clock)
    ensures !OrderFree({x, y})
  {
    CompareIsPartialOrder(x.clock, y.clock, x.clock);
    assert Compare(x.clock, y.clock) == Equal && Compare(y.clock, x.clock) == Equal;
    forall m ensures !Champion(m, {x, y}) {
      assert x in {x, y} && y in {x, y};
    }
    OrderFreeIffChampion({x, y}, x.key);
  }

  /** So it does: an agent's first writes at two replicas share a clock. */
  lemma FirstWritesAtTwoHomesDiverge(agent: Agent, key: Key, v1: Value, t1: Time, v2: Value, t2: Time)
    requires v1 != v2 || t1 != t2
    ensures !OrderFree({Written(EMPTY_ROOM, agent, key, v1, t1), Written(EMPTY_ROOM, agent, key, v2, t2)})
  {
    TwoHomesDiverge(Written(EMPTY_ROOM, agent, key, v1, t1), Written(EMPTY_ROOM, agent, key, v2, t2));
  }

  /**
   A replica that receives only the latest write of another, raw, is sent nothing by it then:
   everything the sender wrote or held before stays hidden.
   */
  lemma RawBroadcastHidesTheRest(r: Room, agent: Agent, key: Key, value: Value, now: Time)
    requires WellFormed(r)
    ensures var w := Written(r, agent, key, value, now);
      && Rooms.Delta(Apply(r, w), Apply(EMPTY_ROOM, w).clock) == map[]
      && Apply(EMPTY_ROOM, w).entries == map[key := w]
  {
    var w := Written(r, agent, key, value, now);
    assert Apply(EMPTY_ROOM, w).entries == map[key := w];
    hide NewFor, Apply, WellFormed, Written;
    forall k | k in Apply(r, w).entries ensures !NewFor(Apply(r, w).entries[k], Apply(EMPTY_ROOM, w).clock) {
      RestIsHidden(r, agent, key, value, now, k);
    }
  }

  /**
   And for good: whatever either does later, a delta from any replica that still holds one of these
   entries, built against any clock the receiver then has, leaves that entry out.
   */
  lemma HiddenForGood(r: Room, agent: Agent, key: Key, value: Value, now: Time, later: Room, since: Clock, k: Key)
    requires WellFormed(r)
    requires var w := Written(r, agent, key, value, now);
      && Leq(Apply(EMPTY_ROOM, w).clock, since)
      && k in Apply(r, w).entries && k in later.entries && later.entries[k] == Apply(r, w).entries[k]
    ensures k !in Rooms.Delta(later, since)
  {
    var w := Written(r, agent, key, value, now);
    var e := later.entries[k];
    LocalWriteWins(r, agent, key, value, now);
    ApplyKeepsWellFormed(r, w);
    ApplyKeepsWellFormed(EMPTY_ROOM, w);
    NewForMeaning(e, since);
    hide Apply, WellFormed;
    CompareIsPartialOrder(w.clock, Apply(r, w).clock, w.clock);
    LeqTransitive(e.clock, Apply(r, w).clock, w.clock);
    LeqTransitive(e.clock, w.clock, Apply(EMPTY_ROOM, w).clock);
    LeqTransitive(e.clock, Apply(EMPTY_ROOM, w).clock, since);
  }

  lemma NextWriteIsNew(r1: Room, w: Entry, agent: Agent, key: Key, value: Value, now: Time)
    requires w.author == agent && Same(r1.clock, w.clock)
    ensures NewFor(Written(r1, agent, key, value, now), Apply(EMPTY_ROOM, w).clock)
  {
    var w2, c := Written(r1, agent, key, value, now), Apply(EMPTY_ROOM, w).clock;
    LoneClock(w);
    NewForMeaning(w2, c);
    hide NewFor, Apply;
    assert Get(w2.clock, agent) == Get(r1.clock, agent) + 1 > Get(c, agent);
  }

  lemma RestIsHidden(r: Room, agent: Agent, key: Key, value: Value, now: Time, k: Key)
    requires WellFormed(r)
    requires k in Apply(r, Written(r, agent, key, value, now)).entries
    ensures var w := Written(r, agent, key, value, now);
      !NewFor(Apply(r, w).entries[k], Apply(EMPTY_ROOM, w).clock)
  {
    var w := Written(r, agent, key, value, now);
    var c := Apply(EMPTY_ROOM, w).clock;
    hide NewFor, Written, Apply, WellFormed;
    CompareIsPartialOrder(c, c, c);
    HiddenForGood(r, agent, key, value, now, Apply(r, w), c, k);
  }

  /** What the sender writes next is sent, and nothing else of what it holds. */
  lemma OnlyNextWriteIsSent(r: Room, agent: Agent, key: Key, value: Value, now: Time, key2: Key, value2: Value, now2: Time)
    requires WellFormed(r)
    ensures var w := Written(r, agent, key, value, now);
      var w2 := Written(Apply(r, w), agent, key2, value2, now2);
      Rooms.Delta(Apply(Apply(r, w), w2), Apply(EMPTY_ROOM, w).clock) == map[key2 := w2]
  {
    var w := Written(r, agent, key, value, now);
    var r1, c := Apply(r, w), Apply(EMPTY_ROOM, w).clock;
    var w2 := Written(r1, agent, key2, value2, now2);
    hide Apply, WellFormed, NewFor;
    LocalWriteWins(r, agent, key, value, now);
    ApplyKeepsWellFormed(r, w);
    LocalWriteWins(r1, agent, key2, value2, now2);
    NextWriteIsNew(r1, w, agent, key2, value2, now2);
    hide Same, Accepts, Written, Compare;
    forall k | k in r1.entries ensures !NewFor(r1.entries[k], c) {
      RestIsHidden(r, agent, key, value, now, k);
    }
    OneNewEntry(r1, Apply(r1, w2), key2, w2, c);
  }

  lemma OneNewEntry(r: Room, r': Room, k: Key, e: Entry, since: Clock)
    requires r'.entries == r.entries[k := e] && NewFor(e, since)
    requires forall k' :: k' in r.entries ==> !NewFor(r.entries[k'], since)
    ensures Rooms.Delta(r', since) == map[k := e]
  {
    hide NewFor;
  }

  lemma LoneClock(w: Entry)
    ensures Same(Apply(EMPTY_ROOM, w).clock, w.clock)
  {
    forall a ensures Get(Join(map[], w.clock), a) == Get(w.clock, a) {
      GetJoin(map[], w.clock, a);
    }
  }

  /** The room an agent alone makes by its writes, each a key, a value and the time it read. */
  ghost function Solo(agent: Agent, writes: seq<(Key, Value, Time)>): Room {
    if writes == [] then EMPTY_ROOM
    else
      var before, last := Solo(agent, writes[..|writes| - 1]), writes[|writes| - 1];
      Apply(before, Written(before, agent, last.0, last.1, last.2))
  }

  lemma {:induction false} SoloClock(agent: Agent, writes: seq<(Key, Value, Time)>)
    ensures WellFormed(Solo(agent, writes))
    ensures Get(Solo(agent, writes).clock, agent) == |writes|
    ensures forall a :: a != agent ==> Get(Solo(agent, writes).clock, a) == 0
  {
    if writes != [] {
      var before, last := Solo(agent, writes[..|writes| - 1]), writes[|writes| - 1];
      var e := Written(before, agent, last.0, last.1, last.2);
      SoloClock(agent, writes[..|writes| - 1]);
      LocalWriteWins(before, agent, last.0, last.1, last.2);
      ApplyKeepsWellFormed(before, e);
      hide Apply, WellFormed;
      forall a ensures Get(Apply(before, e).clock, a) == Get(e.clock, a) {
      }
    }
  }

  /**
   A write to any room `from`, re-created or not and whatever was restored into it, is accepted by
   any room exactly when no entry for its key is held there, or the held entry knows of fewer of the
   author's ticks or lacks something `from` knew, and moreover knows of nothing beyond or is older.
   */
  lemma AnyWriteAccepted(r: Room, from: Room, agent: Agent, key: Key, value: Value, now: Time)
    ensures var w := Written(from, agent, key, value, now);
      Accepts(r, w) <==> (key in r.entries ==>
        var d := r.entries[key].clock;
        && (Get(d, agent) < WriteTick(w) || exists a :: a != agent && Get(d, a) < Get(from.clock, a))
        && ((Get(d, agent) <= WriteTick(w) && forall a :: a != agent ==> Get(d, a) <= Get(from.clock, a))
            || Newer(w, r.entries[key])))
  {
    var w := Written(from, agent, key, value, now);
    if key in r.entries {
      var d := r.entries[key].clock;
      TickedLeq(from.clock, agent, d);
    }
  }

  lemma TickedLeq(c: Clock, agent: Agent, d: Clock)
    ensures Leq(Ticked(c, agent), d) <==>
      Get(c, agent) < Get(d, agent) && forall a :: a != agent ==> Get(c, a) <= Get(d, a)
    ensures Leq(d, Ticked(c, agent)) <==>
      Get(d, agent) <= Get(c, agent) + 1 && forall a :: a != agent ==> Get(d, a) <= Get(c, a)
  {
    var t := Ticked(c, agent);
    assert Get(t, agent) == Get(c, agent) + 1 && forall a :: a != agent ==> Get(t, a) == Get(c, a);
    hide Ticked;
    if Leq(t, d) {
      assert Get(t, agent) <= Get(d, agent);
      forall a | a != agent ensures Get(c, a) <= Get(d, a) {
        assert Get(t, a) <= Get(d, a);
      }
    }
    if Leq(d, t) {
      assert Get(d, agent) <= Get(t, agent);
      forall a | a != agent ensures Get(d, a) <= Get(c, a) {
        assert Get(d, a) <= Get(t, a);
      }
    }
  }

  /**
   A room removed and created again, into which nothing is restored, restarts its author's ticks.
   What the author alone then writes is refused by a room that holds an entry for the key which knows of as many of its old ticks, and
   also if the entry knows of other agents' ticks and is not older.
   */
  lemma RecreatedRoomIsIgnored(r: Room, agent: Agent, writes: seq<(Key, Value, Time)>, key: Key, value: Value, now: Time)
    ensures var w := Written(Solo(agent, writes), agent, key, value, now);
      && WriteTick(w) == |writes| + 1
      && (Accepts(r, w) <==>
           (key in r.entries ==>
             && Get(r.entries[key].clock, agent) < WriteTick(w)
             && ((forall a :: a != agent ==> Get(r.entries[key].clock, a) == 0) || Newer(w, r.entries[key]))))
      && (key in r.entries && WriteTick(w) <= Get(r.entries[key].clock, agent) ==> Apply(r, w) == r)
  {
    var w := Written(Solo(agent, writes), agent, key, value, now);
    SoloClock(agent, writes);
    assert Get(w.clock, agent) == |writes| + 1;
    forall a | a != agent ensures Get(w.clock, a) == 0 {
      assert Get(Solo(agent, writes).clock, a) == 0;
    }
    hide Solo, Leq;
    if key in r.entries {
      SoloCompare(w.clock, agent, r.entries[key].clock);
    }
  }

  /** How a clock with one component compares with any other. */
  lemma SoloCompare(c: Clock, agent: Agent, d: Clock)
    requires Get(c, agent) > 0 && forall a :: a != agent ==> Get(c, a) == 0
    ensures Leq(c, d) <==> Get(c, agent) <= Get(d, agent)
    ensures Leq(d, c) <==> Get(d, agent) <= Get(c, agent) && forall a :: a != agent ==> Get(d, a) == 0
  {
    if Leq(d, c) {
      forall a | a != agent ensures Get(d, a) == 0 {
        assert Get(d, a) <= Get(c, a);
      }
    }
  }

  /** Between two rooms that only the one author wrote, the write is refused exactly until its tick is new. */
  lemma RecreatedSoloRoomIsIgnored(
      agent: Agent, earlier: seq<(Key, Value, Time)>, writes: seq<(Key, Value, Time)>, key: Key, value: Value, now: Time)
    requires key in Solo(agent, earlier).entries
    ensures var r, w := Solo(agent, earlier), Written(Solo(agent, writes), agent, key, value, now);
      !Accepts(r, w) <==> WriteTick(w) <= Get(r.entries[key].clock, agent)
  {
    var r := Solo(agent, earlier);
    SoloClock(agent, earlier);
    RecreatedRoomIsIgnored(r, agent, writes, key, value, now);
    forall a | a != agent ensures Get(r.entries[key].clock, a) == 0 {
      assert Leq(r.entries[key].clock, r.clock);
      assert Get(r.entries[key].clock, a) <= Get(r.clock, a);
    }
  }
}
