/**
 Sets of writes as the replicas of one room make them, and what it takes for one
 replica's state to be determined by its clock (`p2p/src/room_state.rs`).
 */
module History {
  import opened Times
  import opened Clocks
  import opened Rooms
  import opened RoomLaws

  /** The position of a write among its author's writes. */
  ghost function WriteTick(w: Entry): nat {
    Get(w.clock, w.author)
  }

  /** Reaching a write's own tick means having its whole clock. */
  ghost predicate Closed(H: set<Entry>, c: Clock) {
    forall w :: w in H && WriteTick(w) <= Get(c, w.author) ==> Leq(w.clock, c)
  }

  /** The writes of `H` that a clock covers. */
  ghost function Below(H: set<Entry>, c: Clock): set<Entry> {
    set w | w in H && Leq(w.clock, c)
  }

  /** Every tick of a clock `c` stands for a write. */
  ghost predicate Grounded(H: set<Entry>, c: Clock) {
    forall a :: Get(c, a) > 0 ==> exists v :: v in H && v.author == a && WriteTick(v) == Get(c, a)
  }

  /** Each write is a tick of its author, and whoever has reached that tick has all that the write covers. */
  ghost predicate Causal(H: set<Entry>) {
    forall w :: w in H ==> WriteTick(w) >= 1 && Closed(H, w.clock)
  }

  /** Moreover, among writes to one key, what is causally later is stamped later. */
  ghost predicate Coherent(H: set<Entry>) {
    && Causal(H)
    && (forall w, v :: w in H && v in H && w.key == v.key && w != v && Leq(w.clock, v.clock) ==> Newer(v, w))
  }

  /** Distinct writes have distinct clocks. */
  ghost predicate DistinctClocks(H: set<Entry>) {
    forall w, v :: w in H && v in H && w != v ==> !(Leq(w.clock, v.clock) && Leq(v.clock, w.clock))
  }

  /** A room that holds writes only and covers, with any of an author's ticks, that write. */
  ghost predicate Sound(H: set<Entry>, r: Room) {
    WellFormed(r) && Closed(H, r.clock) && forall k :: k in r.entries ==> r.entries[k] in H
  }

  /** A room whose entry for each key is the greatest stamp among the writes its clock covers. */
  ghost predicate Determined(H: set<Entry>, r: Room) {
    && Sound(H, r)
    && (forall w :: w in H && Leq(w.clock, r.clock) ==> w.key in r.entries && AtLeast(r.entries[w.key], w))
  }

  /** Clocks whose ticks are writes are ordered as the sets of writes they cover. */
  lemma ClocksAreTheirWrites(H: set<Entry>, c: Clock, d: Clock)
    requires Closed(H, c) && Grounded(H, c) && Closed(H, d)
    ensures Leq(c, d) <==> Below(H, c) <= Below(H, d)
  {
    if Leq(c, d) {
      forall w | w in Below(H, c) ensures w in Below(H, d) {
        LeqTransitive(w.clock, c, d);
      }
    }
    if Below(H, c) <= Below(H, d) {
      forall a ensures Get(c, a) <= Get(d, a) {
        if Get(c, a) > 0 {
          var v :| v in H && v.author == a && WriteTick(v) == Get(c, a);
          assert v in Below(H, c);
          assert Leq(v.clock, d);
        }
      }
    }
  }

  lemma EmptyIsDetermined(H: set<Entry>)
    requires Causal(H)
    ensures Determined(H, EMPTY_ROOM)
  {
    forall v | v in H ensures !Leq(v.clock, map[]) {
      assert Get(v.clock, v.author) > Get(map[], v.author);
    }
  }

  lemma AtLeastTransitive(x: Entry, y: Entry, z: Entry)
    requires AtLeast(x, y) && AtLeast(y, z)
    ensures AtLeast(x, z)
  {
    NewerIsStrictOrder(x, y, z);
  }

  /** Coherent writes never tie and never contradict causality. */
  lemma CoherentStamps(H: set<Entry>)
    requires Coherent(H)
    ensures StampsFollowCauses(H)
  {
    forall x, y | x in H && y in H && x.key == y.key && x != y
      ensures Compare(x.clock, y.clock) != Equal
      ensures Newer(x, y) || Newer(y, x)
      ensures Compare(x.clock, y.clock) == Before ==> Newer(y, x)
    {
      NewerIsStrictOrder(x, y, x);
      if x.author == y.author {
        assert Closed(H, x.clock) && Closed(H, y.clock);
        assert WriteTick(x) <= WriteTick(y) || WriteTick(y) <= WriteTick(x);
      }
    }
  }

  // ---------------------------------------------------------------------------
  // Messages
  // ---------------------------------------------------------------------------

  /** Write `w` is superseded by an entry of the message or by a write under the message's floor. */
  ghost predicate Covered(H: set<Entry>, floor: Clock, P: set<Entry>, w: Entry) {
    || (exists d :: d in P && d.key == w.key && AtLeast(d, w))
    || (exists v :: v in H && v.key == w.key && Leq(v.clock, floor) && AtLeast(v, w))
  }

  /** Entries `P` carry everything up to clock `upto` to a replica that already has `floor`. */
  ghost predicate Carries(H: set<Entry>, floor: Clock, upto: Clock, P: set<Entry>) {
    && P <= H
    && (forall e :: e in P ==> Leq(e.clock, upto))
    && (forall w :: w in H && Leq(w.clock, upto) ==> Covered(H, floor, P, w))
  }

  /** A delta built against `since` carries its sender's whole state to anyone who has `since`. */
  lemma DeltaCarries(H: set<Entry>, r: Room, since: Clock, s: seq<Entry>)
    requires Determined(H, r) && Lists(s, Delta(r, since))
    ensures Carries(H, since, r.clock, set e | e in s)
  {
    var P := set e | e in s;
    forall w | w in H && Leq(w.clock, r.clock) ensures Covered(H, since, P, w) {
      var e := r.entries[w.key];
      if NewFor(e, since) {
        assert Delta(r, since)[w.key] == e;
        assert e in P;
      } else {
        NewForMeaning(e, since);
      }
    }
  }

  /** A snapshot carries its sender's whole state to anyone. */
  lemma SnapshotCarries(H: set<Entry>, r: Room)
    requires Determined(H, r)
    ensures Carries(H, map[], r.clock, set k | k in r.entries :: r.entries[k])
  {
    var P := set k | k in r.entries :: r.entries[k];
    forall w | w in H && Leq(w.clock, r.clock) ensures Covered(H, map[], P, w) {
      assert r.entries[w.key] in P;
    }
  }

  // ---------------------------------------------------------------------------
  // Delivery
  // ---------------------------------------------------------------------------

  /** A write the new clock covers was covered before or is covered by a received entry. */
  lemma NewlyCovered(H: set<Entry>, r: Room, s: seq<Entry>, w: Entry)
    requires Causal(H) && WellFormed(r) && Closed(H, r.clock) && (set e | e in s) <= H
    requires w in H && Leq(w.clock, ApplyAll(r, s).clock)
    ensures Leq(w.clock, r.clock) || exists e :: e in s && Leq(w.clock, e.clock)
  {
    var c := ClockAttained(r, s, w.author);
    assert WriteTick(w) <= Get(ApplyAll(r, s).clock, w.author);
    if c != r.clock {
      var e :| e in s && e.clock == c;
      assert e in H;
    }
  }

  lemma StaysCovered(r: Room, s: seq<Entry>, w: Entry)
    requires WellFormed(r)
    requires Leq(w.clock, r.clock) || exists e :: e in s && Leq(w.clock, e.clock)
    ensures Leq(w.clock, ApplyAll(r, s).clock)
  {
    AggregateClockLaw(r, s);
    if Leq(w.clock, r.clock) {
      LeqTransitive(w.clock, r.clock, ApplyAll(r, s).clock);
    } else {
      var e :| e in s && Leq(w.clock, e.clock);
      assert e.clock in ReceivedClocks(r, s);
      LeqTransitive(w.clock, e.clock, ApplyAll(r, s).clock);
    }
  }

  /** Delivery adds to what a replica covers exactly what the received entries cover. */
  lemma DeliveryBelow(H: set<Entry>, r: Room, s: seq<Entry>, w: Entry)
    requires Causal(H) && WellFormed(r) && Closed(H, r.clock) && (set e | e in s) <= H
    requires w in H
    ensures Leq(w.clock, ApplyAll(r, s).clock) <==>
      Leq(w.clock, r.clock) || exists e :: e in s && Leq(w.clock, e.clock)
  {
    if Leq(w.clock, ApplyAll(r, s).clock) {
      NewlyCovered(H, r, s, w);
    } else if Leq(w.clock, r.clock) || exists e :: e in s && Leq(w.clock, e.clock) {
      StaysCovered(r, s, w);
    }
  }

  lemma ContendersStamped(H: set<Entry>, r: Room, s: seq<Entry>, k: Key)
    requires Coherent(H) && (k in r.entries ==> r.entries[k] in H) && (set e | e in s) <= H
    ensures StampsFollowCauses(Contenders(r, s, k))
  {
    CoherentStamps(H);
    assert Contenders(r, s, k) <= H;
  }

  /** What survives for key `k` is at least as new as the entry held and every entry received. */
  lemma DeliverySurvivor(H: set<Entry>, r: Room, s: seq<Entry>, k: Key)
    requires Coherent(H) && WellFormed(r) && (k in r.entries ==> r.entries[k] in H) && (set e | e in s) <= H
    ensures k in ApplyAll(r, s).entries ==> ApplyAll(r, s).entries[k] in Contenders(r, s, k)
    ensures k in ApplyAll(r, s).entries <==> Contenders(r, s, k) != {}
    ensures forall y :: y in Contenders(r, s, k) ==> AtLeast(ApplyAll(r, s).entries[k], y)
  {
    Survivor(r, s, k);
    if Contenders(r, s, k) != {} {
      ContendersStamped(H, r, s, k);
      KeepsGreatestStamp(r, s, k);
    }
  }

  lemma DeliveryClosed(H: set<Entry>, r: Room, s: seq<Entry>)
    requires Causal(H) && WellFormed(r) && Closed(H, r.clock) && (set e | e in s) <= H
    ensures Closed(H, ApplyAll(r, s).clock)
  {
    var r' := ApplyAll(r, s);
    AggregateClockLaw(r, s);
    forall w | w in H && WriteTick(w) <= Get(r'.clock, w.author) ensures Leq(w.clock, r'.clock) {
      var c := ClockAttained(r, s, w.author);
      if c != r.clock {
        var e :| e in s && e.clock == c;
        assert e in H;
      }
      assert Closed(H, c);
      LeqTransitive(w.clock, c, r'.clock);
    }
  }

  lemma DeliveryKeepsWrites(H: set<Entry>, r: Room, s: seq<Entry>, k: Key)
    requires WellFormed(r) && (forall k :: k in r.entries ==> r.entries[k] in H) && (set e | e in s) <= H
    requires k in ApplyAll(r, s).entries
    ensures ApplyAll(r, s).entries[k] in H
  {
    Survivor(r, s, k);
    assert Contenders(r, s, k) <= H;
  }

  lemma DeliverySound(H: set<Entry>, r: Room, s: seq<Entry>)
    requires Causal(H) && Sound(H, r) && (set e | e in s) <= H
    ensures Sound(H, ApplyAll(r, s))
  {
    StaysWellFormed(r, s);
    DeliveryClosed(H, r, s);
    forall k | k in ApplyAll(r, s).entries ensures ApplyAll(r, s).entries[k] in H {
      DeliveryKeepsWrites(H, r, s, k);
    }
  }

  lemma DeliveryGrounded(H: set<Entry>, r: Room, s: seq<Entry>)
    requires WellFormed(r) && Grounded(H, r.clock)
    requires forall e :: e in s ==> Grounded(H, e.clock)
    ensures Grounded(H, ApplyAll(r, s).clock)
  {
    forall a | Get(ApplyAll(r, s).clock, a) > 0
      ensures exists v :: v in H && v.author == a && WriteTick(v) == Get(ApplyAll(r, s).clock, a)
    {
      var c := ClockAttained(r, s, a);
      assert Grounded(H, c);
    }
  }

  /** A message delivered to a replica that has its floor leaves that replica determined by its clock. */
  lemma Delivery(H: set<Entry>, r: Room, s: seq<Entry>, floor: Clock, upto: Clock)
    requires Coherent(H) && Determined(H, r)
    requires Carries(H, floor, upto, set e | e in s) && Leq(floor, r.clock)
    ensures Determined(H, ApplyAll(r, s))
  {
    var r' := ApplyAll(r, s);
    DeliverySound(H, r, s);
    forall w | w in H && Leq(w.clock, r'.clock)
      ensures w.key in r'.entries && AtLeast(r'.entries[w.key], w)
    {
      DeliveryCovers(H, r, s, floor, upto, w);
    }
  }

  lemma DeliveryCovers(H: set<Entry>, r: Room, s: seq<Entry>, floor: Clock, upto: Clock, w: Entry)
    requires Coherent(H) && Determined(H, r)
    requires Carries(H, floor, upto, set e | e in s) && Leq(floor, r.clock)
    requires w in H && Leq(w.clock, ApplyAll(r, s).clock)
    ensures w.key in ApplyAll(r, s).entries && AtLeast(ApplyAll(r, s).entries[w.key], w)
  {
    DeliveryBelow(H, r, s, w);
    DeliverySurvivor(H, r, s, w.key);
    var y := DeliveryWitness(H, r, s, floor, upto, w);
    AtLeastTransitive(ApplyAll(r, s).entries[w.key], y, w);
  }

  lemma DeliveryWitness(H: set<Entry>, r: Room, s: seq<Entry>, floor: Clock, upto: Clock, w: Entry) returns (y: Entry)
    requires Determined(H, r)
    requires Carries(H, floor, upto, set e | e in s) && Leq(floor, r.clock)
    requires w in H && (Leq(w.clock, r.clock) || exists e :: e in s && Leq(w.clock, e.clock))
    ensures y in Contenders(r, s, w.key) && AtLeast(y, w)
  {
    if Leq(w.clock, r.clock) {
      y := r.entries[w.key];
    } else {
      var e :| e in s && Leq(w.clock, e.clock);
      LeqTransitive(w.clock, e.clock, upto);
      y := CoveredWitness(H, r, s, floor, w);
    }
  }

  lemma CoveredWitness(H: set<Entry>, r: Room, s: seq<Entry>, floor: Clock, w: Entry) returns (y: Entry)
    requires Determined(H, r) && Leq(floor, r.clock)
    requires Covered(H, floor, (set e | e in s), w)
    ensures y in Contenders(r, s, w.key) && AtLeast(y, w)
  {
    if d :| d in s && d.key == w.key && AtLeast(d, w) {
      y := d;
    } else {
      var v :| v in H && v.key == w.key && Leq(v.clock, floor) && AtLeast(v, w);
      LeqTransitive(v.clock, floor, r.clock);
      y := r.entries[w.key];
      AtLeastTransitive(y, v, w);
    }
  }

  /** Every write the stamp of `e` claims, other than to its own key, is held or beaten already. */
  ghost predicate Prepared(H: set<Entry>, r: Room, e: Entry) {
    forall w :: w in H && Leq(w.clock, e.clock) && w.key != e.key ==>
      w.key in r.entries && AtLeast(r.entries[w.key], w)
  }

  lemma RawNeedsPredecessors(H: set<Entry>, r: Room, e: Entry)
    requires Coherent(H) && Determined(H, r) && e in H
    requires Determined(H, ApplyAll(r, [e]))
    ensures Prepared(H, r, e)
  {
    forall w | w in H && Leq(w.clock, e.clock) && w.key != e.key
      ensures w.key in r.entries && AtLeast(r.entries[w.key], w)
    {
      hide ApplyAll, Coherent;
      RawLeavesOthers(H, r, e, w);
    }
  }

  /**
   A single entry delivered with no regard to its causes: the replica stays determined by
   its clock exactly when, for every other key, it already holds something at least as new
   as each write the entry's clock claims.
   */
  lemma RawDeliveryExact(H: set<Entry>, r: Room, e: Entry)
    requires Coherent(H) && Determined(H, r) && e in H
    ensures Determined(H, ApplyAll(r, [e])) <==> Prepared(H, r, e)
  {
    hide ApplyAll, Coherent, Determined, Leq, Carries, Prepared;
    if Determined(H, ApplyAll(r, [e])) {
      RawNeedsPredecessors(H, r, e);
    }
    if Prepared(H, r, e) {
      RawCarries(H, r, e);
      assert (set x | x in [e]) == {e};
      Delivery(H, r, [e], r.clock, e.clock);
    }
  }

  lemma RawLeavesOthers(H: set<Entry>, r: Room, e: Entry, w: Entry)
    requires Coherent(H) && Determined(H, r) && e in H
    requires w in H && Leq(w.clock, e.clock) && w.key != e.key
    ensures Leq(w.clock, ApplyAll(r, [e]).clock)
    ensures w.key in ApplyAll(r, [e]).entries <==> w.key in r.entries
    ensures w.key in r.entries ==> ApplyAll(r, [e]).entries[w.key] == r.entries[w.key]
  {
    var s := [e];
    assert e in s;
    DeliveryBelow(H, r, s, w);
    DistinctKeys(r, s, w.key);
  }

  lemma RawCarries(H: set<Entry>, r: Room, e: Entry)
    requires Coherent(H) && Determined(H, r) && e in H
    requires Prepared(H, r, e)
    ensures Carries(H, r.clock, e.clock, {e}) && Leq(r.clock, r.clock)
  {
    forall w | w in H && Leq(w.clock, e.clock) ensures Covered(H, r.clock, {e}, w) {
      assert e in {e};
      if w.key != e.key {
        assert r.entries[w.key] in H;
      } else if w != e {
        assert Newer(e, w);
      }
    }
  }

  // ---------------------------------------------------------------------------
  // Local writes
  // ---------------------------------------------------------------------------

  /** The entry `set` builds. */
  ghost function Written(r: Room, agent: Agent, key: Key, value: Value, now: Time): Entry {
    Entry(key, value, agent, Ticked(r.clock, agent), now)
  }

  /**
   A write never loses to what its room holds: it is accepted, the room's clock becomes the
   write's clock, and the write is what the room then holds.
   */
  lemma LocalWriteWins(r: Room, agent: Agent, key: Key, value: Value, now: Time)
    requires WellFormed(r)
    ensures var w := Written(r, agent, key, value, now);
      && Accepts(r, w)
      && Apply(r, w).entries == r.entries[key := w]
      && Same(Apply(r, w).clock, w.clock)
      && forall k :: k in r.entries ==> Compare(w.clock, r.entries[k].clock) == After
  {
    var w := Written(r, agent, key, value, now);
    forall k | k in r.entries ensures Compare(w.clock, r.entries[k].clock) == After {
      TickIsAfter(r.clock, agent, r.entries[k].clock);
    }
    forall a ensures Get(Join(r.clock, w.clock), a) == Get(w.clock, a) {
      GetJoin(r.clock, w.clock, a);
    }
  }

  /** The writes a new write covers are those its replica had covered, and itself. */
  lemma WriteBelow(H: set<Entry>, r: Room, w: Entry)
    requires Closed(H, r.clock)
    requires w.clock == Ticked(r.clock, w.author)
    requires forall v :: v in H ==> Get(v.clock, w.author) <= Get(r.clock, w.author)
    ensures w !in H
    ensures Below(H + {w}, w.clock) == Below(H, r.clock) + {w}
  {
    assert WriteTick(w) == Get(r.clock, w.author) + 1;
    TickIsAfter(r.clock, w.author, map[]);
    forall v | v in H ensures Leq(v.clock, w.clock) <==> Leq(v.clock, r.clock) {
      if Leq(v.clock, r.clock) {
        LeqTransitive(v.clock, r.clock, w.clock);
      }
      if Leq(v.clock, w.clock) {
        assert WriteTick(v) <= Get(r.clock, v.author) by {
          assert Get(v.clock, v.author) <= Get(w.clock, v.author);
        }
      }
    }
  }

  lemma WriteCausal(H: set<Entry>, r: Room, w: Entry)
    requires Causal(H) && Closed(H, r.clock)
    requires w.clock == Ticked(r.clock, w.author)
    requires forall v :: v in H ==> Get(v.clock, w.author) <= Get(r.clock, w.author)
    ensures Causal(H + {w})
  {
    forall v | v in H + {w} ensures WriteTick(v) >= 1 && Closed(H + {w}, v.clock) {
      if v == w {
        WriteClosed(H, r, w);
      } else {
        OthersClosed(H, v.clock, w);
      }
    }
  }

  lemma WriteCoherent(H: set<Entry>, r: Room, w: Entry)
    requires Coherent(H) && Determined(H, r)
    requires w.clock == Ticked(r.clock, w.author)
    requires forall v :: v in H ==> Get(v.clock, w.author) <= Get(r.clock, w.author)
    requires w.key in r.entries ==> Newer(w, r.entries[w.key])
    ensures Coherent(H + {w})
  {
    var H' := H + {w};
    WriteBelow(H, r, w);
    WriteCausal(H, r, w);
    forall v | v in H ensures !Leq(w.clock, v.clock) {
      assert Get(w.clock, w.author) > Get(v.clock, w.author);
    }
    hide Causal, Closed;
    forall x, v | x in H' && v in H' && x.key == v.key && x != v && Leq(x.clock, v.clock) ensures Newer(v, x) {
      if v == w {
        assert x in Below(H', w.clock);
        AtLeastTransitive(w, r.entries[x.key], x);
        NewerIsStrictOrder(w, r.entries[x.key], x);
      }
    }
  }

  lemma WriteKeepsClocksDistinct(H: set<Entry>, w: Entry)
    requires DistinctClocks(H)
    requires forall v :: v in H ==> Get(v.clock, w.author) < WriteTick(w)
    ensures DistinctClocks(H + {w})
  {
    forall v | v in H ensures !Leq(w.clock, v.clock) {
      assert Get(w.clock, w.author) > Get(v.clock, w.author);
    }
  }

  lemma WriteClosed(H: set<Entry>, r: Room, w: Entry)
    requires Closed(H, r.clock)
    requires w.clock == Ticked(r.clock, w.author)
    requires forall v :: v in H ==> Get(v.clock, w.author) <= Get(r.clock, w.author)
    ensures Closed(H + {w}, w.clock)
  {
    TickIsAfter(r.clock, w.author, map[]);
    forall v | v in H && WriteTick(v) <= Get(w.clock, v.author) ensures Leq(v.clock, w.clock) {
      assert WriteTick(v) <= Get(r.clock, v.author);
      LeqTransitive(v.clock, r.clock, w.clock);
    }
  }

  lemma WriteGrounded(H: set<Entry>, c: Clock, w: Entry)
    requires Grounded(H, c) && w.clock == Ticked(c, w.author)
    ensures Grounded(H + {w}, w.clock)
  {
    forall a | Get(w.clock, a) > 0
      ensures exists v :: v in H + {w} && v.author == a && WriteTick(v) == Get(w.clock, a)
    {
      if a == w.author {
        assert WriteTick(w) == Get(w.clock, a);
      } else {
        assert Get(c, a) == Get(w.clock, a);
        var v :| v in H && v.author == a && WriteTick(v) == Get(c, a);
      }
    }
  }

  lemma GroundedIn(H: set<Entry>, H': set<Entry>, c: Clock, d: Clock)
    requires Grounded(H, c) && H <= H' && Same(c, d)
    ensures Grounded(H', d)
  {
    forall a | Get(d, a) > 0 ensures exists v :: v in H' && v.author == a && WriteTick(v) == Get(d, a) {
      assert Get(c, a) == Get(d, a);
      var v :| v in H && v.author == a && WriteTick(v) == Get(c, a);
    }
  }

  /** A clock that has not reached a write's tick neither covers it nor needs to. */
  lemma OthersClosed(H: set<Entry>, c: Clock, w: Entry)
    requires Closed(H, c) && Get(c, w.author) < WriteTick(w)
    ensures Closed(H + {w}, c)
    ensures Below(H + {w}, c) == Below(H, c)
  {
    assert !Leq(w.clock, c) by {
      assert Get(w.clock, w.author) > Get(c, w.author);
    }
  }

  lemma ClosedUpToSame(H: set<Entry>, c: Clock, d: Clock)
    requires Closed(H, c) && Same(c, d)
    ensures Closed(H, d)
    ensures Below(H, c) == Below(H, d)
  {
    forall w | w in H ensures Leq(w.clock, c) <==> Leq(w.clock, d) {
      CompareIsPartialOrder(c, d, c);
      if Leq(w.clock, c) {
        LeqTransitive(w.clock, c, d);
      }
      if Leq(w.clock, d) {
        LeqTransitive(w.clock, d, c);
      }
    }
  }

  /** The writing replica stays sound, and covers the write and what it covered before. */
  lemma WriterSound(H: set<Entry>, r: Room, w: Entry)
    requires Sound(H, r)
    requires w.clock == Ticked(r.clock, w.author)
    requires forall v :: v in H ==> Get(v.clock, w.author) <= Get(r.clock, w.author)
    ensures Sound(H + {w}, Apply(r, w)) && Same(Apply(r, w).clock, w.clock)
    ensures Below(H + {w}, Apply(r, w).clock) == Below(H, r.clock) + {w}
  {
    LocalWriteWins(r, w.author, w.key, w.value, w.updatedAt);
    ApplyKeepsWellFormed(r, w);
    WriteBelow(H, r, w);
    WriteClosed(H, r, w);
    CompareIsPartialOrder(w.clock, Apply(r, w).clock, w.clock);
    ClosedUpToSame(H + {w}, w.clock, Apply(r, w).clock);
  }

  lemma OverwriteDetermined(H: set<Entry>, r: Room, w: Entry, r': Room)
    requires Determined(H, r) && Sound(H + {w}, r')
    requires w.key in r.entries ==> Newer(w, r.entries[w.key])
    requires r'.entries == r.entries[w.key := w]
    requires Below(H + {w}, r'.clock) == Below(H, r.clock) + {w}
    ensures Determined(H + {w}, r')
  {
    var H' := H + {w};
    forall x | x in H' && Leq(x.clock, r'.clock) ensures x.key in r'.entries && AtLeast(r'.entries[x.key], x) {
      assert x in Below(H', r'.clock);
      if x != w && x.key == w.key {
        AtLeastTransitive(w, r.entries[x.key], x);
      }
    }
  }

  /** The writing replica stays determined by its clock. */
  lemma WriterDetermined(H: set<Entry>, r: Room, w: Entry)
    requires Coherent(H) && Determined(H, r)
    requires w.clock == Ticked(r.clock, w.author)
    requires forall v :: v in H ==> Get(v.clock, w.author) <= Get(r.clock, w.author)
    requires w.key in r.entries ==> Newer(w, r.entries[w.key])
    ensures Determined(H + {w}, Apply(r, w))
    ensures Below(H + {w}, Apply(r, w).clock) == Below(H, r.clock) + {w}
  {
    LocalWriteWins(r, w.author, w.key, w.value, w.updatedAt);
    WriterSound(H, r, w);
    OverwriteDetermined(H, r, w, Apply(r, w));
  }

  /** Every other replica, and every message, is untouched by the new write. */
  lemma OthersDetermined(H: set<Entry>, r: Room, w: Entry)
    requires Determined(H, r) && Get(r.clock, w.author) < WriteTick(w)
    ensures Determined(H + {w}, r)
  {
    OthersClosed(H, r.clock, w);
    forall x | x in H + {w} && Leq(x.clock, r.clock) ensures x.key in r.entries && AtLeast(r.entries[x.key], x) {
      assert x in Below(H + {w}, r.clock);
    }
  }

  lemma StillCarries(H: set<Entry>, floor: Clock, upto: Clock, P: set<Entry>, w: Entry)
    requires Carries(H, floor, upto, P) && Get(upto, w.author) < WriteTick(w)
    ensures Carries(H + {w}, floor, upto, P)
  {
    assert !Leq(w.clock, upto) by {
      assert Get(w.clock, w.author) > Get(upto, w.author);
    }
    forall x | x in H + {w} && Leq(x.clock, upto) ensures Covered(H + {w}, floor, P, x) {
      assert Covered(H, floor, P, x);
    }
  }

  /** A freshly written entry, sent raw, carries its clock to anyone who has the clock before it. */
  lemma BroadcastCarries(H: set<Entry>, r: Room, w: Entry)
    requires Coherent(H) && Determined(H, r)
    requires w.clock == Ticked(r.clock, w.author)
    requires forall v :: v in H ==> Get(v.clock, w.author) <= Get(r.clock, w.author)
    ensures Carries(H + {w}, r.clock, w.clock, {w})
  {
    var H' := H + {w};
    WriteBelow(H, r, w);
    forall a ensures Get(w.clock, a) <= Get(w.clock, a) {}
    forall x | x in H' && Leq(x.clock, w.clock) ensures Covered(H', r.clock, {w}, x) {
      assert x in Below(H', w.clock);
      if x == w {
        assert w in {w} && AtLeast(w, x);
      } else {
        assert x in H' && Leq(x.clock, r.clock) && AtLeast(x, x);
      }
    }
  }
}
