/**
 Writes sent on their own, as the entry that `set` returns can be (`p2p/src/room_state.rs`): when a
 replica can apply one knowing no more than its own clock and the clock the write was made on.
 */
module RawWrites {
  import opened Clocks
  import opened Rooms
  import opened RoomLaws
  import opened History
  import opened Replication
  import opened Causality

  /**
   A set of writes that may be all there are, for a replica that holds `r` and a write `e` made on top
   of the clock `prior`.
   */
  ghost predicate Possible(H: set<Entry>, r: Room, e: Entry, prior: Clock) {
    && Coherent(H) && DistinctClocks(H) && Determined(H, r)
    && e in H && e.clock == Ticked(prior, e.author) && Grounded(H, prior)
  }

  /** Whatever has been written, `r` is still determined by its clock after applying `e`. */
  ghost predicate AlwaysSafe(r: Room, e: Entry, prior: Clock) {
    forall H :: Possible(H, r, e, prior) ==> Determined(H, ApplyAll(r, [e]))
  }

  // ---------------------------------------------------------------------------
  // A replica that has the prior clock
  // ---------------------------------------------------------------------------

  /** A write that `e` claims, other than `e` itself, is one that `prior` claims. */
  lemma OthersArePrior(H: set<Entry>, r: Room, e: Entry, prior: Clock, w: Entry)
    requires Possible(H, r, e, prior) && w in H && w != e && Leq(w.clock, e.clock)
    ensures WriteTick(w) <= Get(prior, w.author)
  {
    hide Determined, Grounded;
    assert WriteTick(w) <= Get(e.clock, w.author);
    assert Closed(H, w.clock);
    assert WriteTick(e) <= Get(w.clock, e.author) ==> Leq(e.clock, w.clock);
  }

  lemma PriorIsEnough(H: set<Entry>, r: Room, e: Entry, prior: Clock)
    requires Possible(H, r, e, prior) && Leq(prior, r.clock)
    ensures Determined(H, ApplyAll(r, [e]))
  {
    forall w | w in H && Leq(w.clock, e.clock) && w.key != e.key
      ensures w.key in r.entries && AtLeast(r.entries[w.key], w)
    {
      OthersArePrior(H, r, e, prior, w);
      assert Get(prior, w.author) <= Get(r.clock, w.author);
      hide Coherent, Grounded, DistinctClocks;
      assert Leq(w.clock, r.clock);
    }
    hide Determined, Coherent, Grounded, DistinctClocks, ApplyAll;
    RawDeliveryExact(H, r, e);
  }

  // ---------------------------------------------------------------------------
  // A replica that lacks part of it
  // ---------------------------------------------------------------------------

  lemma {:induction false} LongerThanAll(S: set<string>) returns (n: nat)
    ensures forall s :: s in S ==> |s| < n
  {
    if S == {} {
      n := 0;
    } else {
      var s :| s in S;
      n := LongerThanAll(S - {s});
      n := if |s| < n then n else |s| + 1;
    }
  }

  lemma FreshKey(H: set<Entry>) returns (k: Key)
    ensures forall v :: v in H ==> v.key != k
  {
    var keys := set v | v in H :: v.key;
    var n := LongerThanAll(keys);
    k := seq(n, _ => 'x');
    forall v | v in H ensures v.key != k {
      assert v.key in keys;
    }
  }

  /** The same writes, but `v` was to key `k`. */
  ghost function Rekeyed(H: set<Entry>, v: Entry, k: Key): set<Entry> {
    H - {v} + {v.(key := k)}
  }

  ghost predicate CanRekey(H: set<Entry>, v: Entry, k: Key) {
    v in H && forall x :: x in H ==> x.key != k
  }

  lemma RekeyedClosed(H: set<Entry>, v: Entry, k: Key, c: Clock)
    requires v in H && Closed(H, c)
    ensures Closed(Rekeyed(H, v, k), c)
  {
    assert WriteTick(v.(key := k)) == WriteTick(v);
  }

  lemma RekeyedCoherent(H: set<Entry>, v: Entry, k: Key)
    requires Coherent(H) && CanRekey(H, v, k)
    ensures Coherent(Rekeyed(H, v, k))
  {
    var H' := Rekeyed(H, v, k);
    forall w | w in H' ensures WriteTick(w) >= 1 && Closed(H', w.clock) {
      if w == v.(key := k) {
        assert WriteTick(w) == WriteTick(v);
        RekeyedClosed(H, v, k, v.clock);
      } else {
        RekeyedClosed(H, v, k, w.clock);
      }
    }
  }

  lemma RekeyedDistinct(H: set<Entry>, v: Entry, k: Key)
    requires DistinctClocks(H) && CanRekey(H, v, k)
    ensures DistinctClocks(Rekeyed(H, v, k))
  {
    var v' := v.(key := k);
    forall x, y | x in Rekeyed(H, v, k) && y in Rekeyed(H, v, k) && x != y
      ensures !(Leq(x.clock, y.clock) && Leq(y.clock, x.clock))
    {
      var x0, y0 := if x == v' then v else x, if y == v' then v else y;
      assert x0 in H && y0 in H && x0 != y0 && x0.clock == x.clock && y0.clock == y.clock;
    }
  }

  lemma RekeyedDetermined(H: set<Entry>, r: Room, v: Entry, k: Key)
    requires Determined(H, r) && CanRekey(H, v, k) && !Leq(v.clock, r.clock)
    ensures Determined(Rekeyed(H, v, k), r)
  {
    RekeyedClosed(H, v, k, r.clock);
    forall k' | k' in r.entries ensures r.entries[k'] in Rekeyed(H, v, k) {
      assert r.entries[k'] != v;
    }
  }

  lemma RekeyedGrounded(H: set<Entry>, v: Entry, k: Key, c: Clock)
    requires Grounded(H, c) && v in H
    ensures Grounded(Rekeyed(H, v, k), c)
  {
    var v' := v.(key := k);
    forall a | Get(c, a) > 0
      ensures exists x :: x in Rekeyed(H, v, k) && x.author == a && WriteTick(x) == Get(c, a)
    {
      var x :| x in H && x.author == a && WriteTick(x) == Get(c, a);
      var x' := if x == v then v' else x;
      assert x' in Rekeyed(H, v, k) && x'.author == a && WriteTick(x') == Get(c, a);
    }
  }

  lemma RekeyedPossible(H: set<Entry>, r: Room, e: Entry, prior: Clock, v: Entry, k: Key)
    requires Possible(H, r, e, prior) && CanRekey(H, v, k) && v != e && !Leq(v.clock, r.clock)
    ensures Possible(Rekeyed(H, v, k), r, e, prior)
  {
    hide Coherent, DistinctClocks, Determined, Grounded;
    RekeyedCoherent(H, v, k);
    RekeyedDistinct(H, v, k);
    RekeyedDetermined(H, r, v, k);
    RekeyedGrounded(H, v, k, prior);
  }

  /** A write that `prior` claims and `r` lacks. */
  lemma MissingWrite(H: set<Entry>, r: Room, e: Entry, prior: Clock) returns (v: Entry)
    requires Possible(H, r, e, prior) && !Leq(prior, r.clock)
    ensures v in H && v != e && Leq(v.clock, e.clock) && !Leq(v.clock, r.clock)
  {
    var a :| Get(prior, a) > Get(r.clock, a);
    v :| v in H && v.author == a && WriteTick(v) == Get(prior, a);
    hide Grounded, DistinctClocks, Determined;
    assert Get(e.clock, a) >= Get(prior, a) && WriteTick(e) == Get(prior, e.author) + 1;
    assert Closed(H, e.clock);
    assert Get(v.clock, a) > Get(r.clock, a);
  }

  lemma HeldKeysAreWritten(H: set<Entry>, r: Room, k: Key)
    requires Determined(H, r)
    ensures k in r.entries ==> exists v :: v in H && v.key == k
  {
    if k in r.entries {
      assert r.entries[k] in H && r.entries[k].key == k;
    }
  }

  /** Then nothing the receiver can see tells whether `e` is safe: the write it lacks may be to any key. */
  lemma PriorIsNeeded(H: set<Entry>, r: Room, e: Entry, prior: Clock) returns (H': set<Entry>)
    requires Possible(H, r, e, prior) && !Leq(prior, r.clock)
    ensures Possible(H', r, e, prior) && !Determined(H', ApplyAll(r, [e]))
  {
    var v := MissingWrite(H, r, e, prior);
    var k := FreshKey(H);
    var v' := v.(key := k);
    H' := Rekeyed(H, v, k);
    RekeyedPossible(H, r, e, prior, v, k);
    HeldKeysAreWritten(H, r, k) by {
      hide Coherent, DistinctClocks, Grounded;
    }
    hide Possible, Coherent, Determined, Grounded, DistinctClocks, ApplyAll, Leq;
    assert v' in H' && v'.key != e.key && v'.clock == v.clock;
    RawUnsafe(H', r, e, prior, v');
  }

  lemma RawUnsafe(H: set<Entry>, r: Room, e: Entry, prior: Clock, w: Entry)
    requires Possible(H, r, e, prior) && w in H && Leq(w.clock, e.clock) && w.key != e.key && w.key !in r.entries
    ensures !Determined(H, ApplyAll(r, [e]))
  {
    hide Coherent, Determined, Grounded, DistinctClocks, ApplyAll;
    RawDeliveryExact(H, r, e);
  }

  // ---------------------------------------------------------------------------
  // Result
  // ---------------------------------------------------------------------------

  /**
   Knowing only its own room and the clock a write was made on, a replica can apply the write on its
   own, and stay determined by its clock whatever else has been written, exactly when it has that
   clock: when its own is at or above it.
   */
  lemma SafeExactlyWithPrior(H: set<Entry>, r: Room, e: Entry, prior: Clock)
    requires Possible(H, r, e, prior)
    ensures AlwaysSafe(r, e, prior) <==> Leq(prior, r.clock)
  {
    hide Possible, Determined, ApplyAll;
    if Leq(prior, r.clock) {
      forall G | Possible(G, r, e, prior) ensures Determined(G, ApplyAll(r, [e])) {
        PriorIsEnough(G, r, e, prior);
      }
    } else {
      var G := PriorIsNeeded(H, r, e, prior);
    }
  }

  /** In every reachable world that is so of every write ever sent on its own and every replica. */
  lemma BroadcastSafeExactly(w: World, prior: Clock, e: Entry, j: nat)
    requires Reachable(w) && Broadcast(prior, e) in w.network && j < |w.rooms|
    ensures Possible(Writes(w), w.rooms[j], e, prior)
    ensures AlwaysSafe(w.rooms[j], e, prior) <==> Leq(prior, w.rooms[j].clock)
  {
    ReachableRoom(w, j);
    ReachableInv(w);
    SentWrite(w, prior, e);
    hide Inv, Reachable, Coherent, DistinctClocks, Determined, Grounded;
    assert Possible(Writes(w), w.rooms[j], e, prior);
    hide AlwaysSafe, Possible;
    SafeExactlyWithPrior(Writes(w), w.rooms[j], e, prior);
  }

  lemma SentWrite(w: World, prior: Clock, e: Entry)
    requires Inv(w) && Broadcast(prior, e) in w.network
    ensures e in Writes(w) && e.clock == Ticked(prior, e.author) && Grounded(Writes(w), prior)
  {
    hide Ok, StampsOk, Grounded, ClockOk;
    assert MessageOk(w, Broadcast(prior, e));
    assert e in Payload(Broadcast(prior, e));
  }
}
