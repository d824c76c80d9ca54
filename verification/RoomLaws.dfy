/**
 Laws of applying many entries to one room, in any order and with any repetitions
 (`apply_delta` and `restore_snapshot` in `p2p/src/room_state.rs`).
 */
module RoomLaws {
  import opened Clocks
  import opened Rooms
  import Text

  // ---------------------------------------------------------------------------
  // The aggregate clock
  // ---------------------------------------------------------------------------

  ghost function ReceivedClocks(r: Room, s: seq<Entry>): set<Clock> {
    {r.clock} + set e | e in s :: e.clock
  }

  /** With no hypothesis on timestamps: the room clock is the join of everything received. */
  lemma {:induction false} AggregateClockLaw(r: Room, s: seq<Entry>)
    requires WellFormed(r)
    ensures WellFormed(ApplyAll(r, s))
    ensures IsLub(ApplyAll(r, s).clock, ReceivedClocks(r, s))
  {
    if s == [] {
      assert ReceivedClocks(r, s) == {r.clock};
    } else {
      var before, last := s[..|s| - 1], s[|s| - 1];
      var r1, r2 := ApplyAll(r, before), ApplyAll(r, s);
      AggregateClockLaw(r, before);
      ApplyKeepsWellFormed(r1, last);
      assert forall e :: e in s <==> e in before || e == last;
      assert ReceivedClocks(r, s) == ReceivedClocks(r, before) + {last.clock};
      forall d | d in ReceivedClocks(r, s) ensures Leq(d, r2.clock) {
        if d in ReceivedClocks(r, before) {
          LeqTransitive(d, r1.clock, r2.clock);
        }
      }
      forall u | forall d :: d in ReceivedClocks(r, s) ==> Leq(d, u) ensures Leq(r2.clock, u) {
        assert Leq(r1.clock, u) && Leq(last.clock, u);
        forall a ensures Get(r2.clock, a) <= Get(u, a) {
          GetJoin(r1.clock, last.clock, a);
        }
      }
    }
  }

  lemma StaysWellFormed(r: Room, s: seq<Entry>)
    requires WellFormed(r)
    ensures WellFormed(ApplyAll(r, s))
  {
    AggregateClockLaw(r, s);
  }

  /** What the last entry of a sequence does to the entries held and to the report. */
  lemma LastApplied(r: Room, s: seq<Entry>)
    requires WellFormed(r) && s != []
    ensures var r1, last := ApplyAll(r, s[..|s| - 1]), s[|s| - 1];
      && WellFormed(r1)
      && ApplyAll(r, s).entries == (if Accepts(r1, last) then r1.entries[last.key := last] else r1.entries)
      && Updated(r, s) == Updated(r, s[..|s| - 1]) + if Accepts(r1, last) then [last.key] else []
  {
    StaysWellFormed(r, s[..|s| - 1]);
    hide WellFormed, Accepts;
    ApplyKeepsWellFormed(ApplyAll(r, s[..|s| - 1]), s[|s| - 1]);
  }

  /** Two orders of the same entries leave the same clock. */
  lemma ClockOrderFree(r: Room, s: seq<Entry>, t: seq<Entry>)
    requires WellFormed(r)
    requires forall e :: e in s <==> e in t
    ensures Same(ApplyAll(r, s).clock, ApplyAll(r, t).clock)
  {
    AggregateClockLaw(r, s);
    AggregateClockLaw(r, t);
    assert ReceivedClocks(r, s) == ReceivedClocks(r, t);
    CompareIsPartialOrder(ApplyAll(r, s).clock, ApplyAll(r, t).clock, r.clock);
  }

  /** Each component of the resulting clock comes from one of the clocks received. */
  lemma {:induction false} ClockAttained(r: Room, s: seq<Entry>, a: Agent) returns (c: Clock)
    requires WellFormed(r)
    ensures c in ReceivedClocks(r, s)
    ensures Get(c, a) == Get(ApplyAll(r, s).clock, a)
  {
    if s == [] {
      c := r.clock;
    } else {
      var before, last := s[..|s| - 1], s[|s| - 1];
      var r1 := ApplyAll(r, before);
      AggregateClockLaw(r, before);
      ApplyKeepsWellFormed(r1, last);
      GetJoin(r1.clock, last.clock, a);
      c := ClockAttained(r, before, a);
      if Get(last.clock, a) > Get(r1.clock, a) {
        assert last in s;
        c := last.clock;
      } else if c != r.clock {
        var e :| e in before && e.clock == c;
        assert e in s;
      }
    }
  }

  /** The clocks of the entries a room holds. */
  ghost function HeldClocks(r: Room): set<Clock> {
    set k | k in r.entries :: r.entries[k].clock
  }

  /** Some clock of `cs` has reached `c` in component `a`. */
  ghost predicate Reaches(cs: set<Clock>, c: Clock, a: Agent) {
    exists d :: d in cs && Get(c, a) <= Get(d, a)
  }

  /** Each component of `c` has been reached by some clock of `cs`. */
  ghost predicate ReachedBy(c: Clock, cs: set<Clock>) {
    forall a :: Get(c, a) > 0 ==> Reaches(cs, c, a)
  }

  lemma UnreachedIsNotLeast(c: Clock, cs: set<Clock>, a: Agent)
    requires Get(c, a) > 0 && !Reaches(cs, c, a)
    ensures !IsLub(c, cs)
  {
    if forall d :: d in cs ==> Leq(d, c) {
      var u := c[a := Get(c, a) - 1];
      forall d | d in cs ensures Leq(d, u) {
        assert Leq(d, c) && Get(c, a) > Get(d, a);
      }
      assert !Leq(c, u) by {
        assert Get(u, a) < Get(c, a);
      }
    }
  }

  /** A bound of some clocks is their least one exactly when each of its components is reached by one of them. */
  lemma LubIsReached(c: Clock, cs: set<Clock>)
    ensures IsLub(c, cs) <==> (forall d :: d in cs ==> Leq(d, c)) && ReachedBy(c, cs)
  {
    if IsLub(c, cs) {
      forall a | Get(c, a) > 0 ensures Reaches(cs, c, a) {
        if !Reaches(cs, c, a) {
          UnreachedIsNotLeast(c, cs, a);
        }
      }
    }
    if (forall d :: d in cs ==> Leq(d, c)) && ReachedBy(c, cs) {
      forall u | forall d :: d in cs ==> Leq(d, u) ensures Leq(c, u) {
        forall a ensures Get(c, a) <= Get(u, a) {
          if Get(c, a) > 0 {
            assert Reaches(cs, c, a);
            var d :| d in cs && Get(c, a) <= Get(d, a);
            assert Leq(d, u);
          }
        }
      }
    }
  }

  /** The room clock is the join of the clocks of the entries held, no more. */
  ghost predicate Exact(r: Room) {
    IsLub(r.clock, HeldClocks(r))
  }

  /** The clocks of the entries held under other keys. */
  ghost function OtherClocks(r: Room, key: Key): set<Clock> {
    set k | k in r.entries && k != key :: r.entries[k].clock
  }

  lemma HeldAfter(r: Room, e: Entry)
    requires WellFormed(r) && Accepts(r, e)
    ensures HeldClocks(Apply(r, e)) == {e.clock} + OtherClocks(r, e.key)
  {
    ApplyKeepsWellFormed(r, e);
    hide Apply, Accepts, WellFormed;
    var r' := Apply(r, e);
    assert r'.entries == r.entries[e.key := e];
    assert r'.entries[e.key].clock in HeldClocks(r');
    forall d | d in OtherClocks(r, e.key) ensures d in HeldClocks(r') {
      var k :| k in r.entries && k != e.key && r.entries[k].clock == d;
      assert r'.entries[k].clock == d;
    }
  }

  lemma LubUpToSame(c: Clock, d: Clock, cs: set<Clock>)
    requires Same(c, d)
    ensures IsLub(c, cs) <==> IsLub(d, cs)
  {
    LubIsReached(c, cs);
    LubIsReached(d, cs);
    forall x ensures Leq(x, c) <==> Leq(x, d) {
      if Leq(x, c) {
        LeqTransitive(x, c, d);
      }
      if Leq(x, d) {
        LeqTransitive(x, d, c);
      }
    }
    forall a | Get(c, a) > 0 ensures Reaches(cs, c, a) <==> Reaches(cs, d, a) {
    }
  }

  /** A refused entry leaves an exact clock exact unless it raises it. */
  lemma RefusalKeepsExact(r: Room, e: Entry)
    requires WellFormed(r) && Exact(r) && !Accepts(r, e)
    ensures Exact(Apply(r, e)) <==> Leq(e.clock, r.clock)
  {
    var c := Apply(r, e).clock;
    ApplyKeepsWellFormed(r, e);
    assert HeldClocks(Apply(r, e)) == HeldClocks(r);
    if Leq(e.clock, r.clock) {
      JoinLaws(e.clock, r.clock, r.clock);
      JoinLaws(r.clock, e.clock, r.clock);
      hide Apply, Accepts, WellFormed, IsLub;
      LubUpToSame(c, r.clock, HeldClocks(r));
    } else if Exact(Apply(r, e)) {
      hide Apply, Accepts, WellFormed;
      LeqTransitive(e.clock, c, r.clock);
    }
  }

  /** An accepted entry leaves an exact clock exact unless the clock of the entry it replaced is then lost. */
  lemma AcceptanceKeepsExact(r: Room, e: Entry)
    requires WellFormed(r) && Exact(r) && Accepts(r, e)
    ensures Exact(Apply(r, e)) <==>
      (e.key in r.entries ==> ReachedBy(r.entries[e.key].clock, {e.clock} + OtherClocks(r, e.key)))
  {
    var r', held := Apply(r, e), {e.clock} + OtherClocks(r, e.key);
    ApplyKeepsWellFormed(r, e);
    LubIsReached(r.clock, HeldClocks(r));
    LubIsReached(r'.clock, HeldClocks(r'));
    HeldAfter(r, e);
    hide Apply, Accepts, IsLub, OtherClocks;
    if Exact(r') && e.key in r.entries {
      forall a | Get(r.entries[e.key].clock, a) > 0 ensures Reaches(held, r.entries[e.key].clock, a) {
        assert Get(r.entries[e.key].clock, a) <= Get(r.clock, a) <= Get(r'.clock, a);
        assert Reaches(held, r'.clock, a);
      }
    }
    if e.key in r.entries ==> ReachedBy(r.entries[e.key].clock, held) {
      forall d | d in held ensures Leq(d, r'.clock) {
        assert d in HeldClocks(r');
      }
      forall a | Get(r'.clock, a) > 0 ensures Reaches(held, r'.clock, a) {
        AcceptedComponent(r, e, a);
      }
    }
  }

  lemma AcceptedComponent(r: Room, e: Entry, a: Agent)
    requires WellFormed(r) && ReachedBy(r.clock, HeldClocks(r)) && Accepts(r, e)
    requires e.key in r.entries ==> ReachedBy(r.entries[e.key].clock, {e.clock} + OtherClocks(r, e.key))
    requires Get(Apply(r, e).clock, a) > 0
    ensures Reaches({e.clock} + OtherClocks(r, e.key), Apply(r, e).clock, a)
  {
    var r', held := Apply(r, e), {e.clock} + OtherClocks(r, e.key);
    ApplyKeepsWellFormed(r, e);
    GetJoin(r.clock, e.clock, a);
    assert Get(r'.clock, a) == Max(Get(r.clock, a), Get(e.clock, a));
    hide Apply, Accepts, WellFormed, Join;
    assert e.clock in held;
    if Get(e.clock, a) < Get(r.clock, a) {
      assert Reaches(HeldClocks(r), r.clock, a);
      var d :| d in HeldClocks(r) && Get(r.clock, a) <= Get(d, a);
      var k :| k in r.entries && r.entries[k].clock == d;
      if k == e.key {
        assert Reaches(held, d, a);
      } else {
        assert d in held;
      }
    }
  }

  /**
   The room clock is not always just the join of the clocks of the entries held.  It stops being so
   exactly when a concurrent entry for a held key arrives and either is refused although its
   clock is not covered, or wins while the clock it displaces is reached neither by its own nor by
   those held under other keys.
   */
  lemma ConcurrencyOutgrowsEntries(r: Room, e: Entry)
    requires WellFormed(r) && Exact(r)
    ensures Exact(Apply(r, e)) <==>
      (e.key in r.entries && Compare(e.clock, r.entries[e.key].clock) == Concurrent ==>
        if Newer(e, r.entries[e.key]) then ReachedBy(r.entries[e.key].clock, {e.clock} + OtherClocks(r, e.key))
        else Leq(e.clock, r.clock))
  {
    hide Exact, WellFormed, Apply, ReachedBy;
    if Accepts(r, e) {
      AcceptanceKeepsExact(r, e);
      if e.key in r.entries && Compare(e.clock, r.entries[e.key].clock) == After {
        DominatedIsReached(r.entries[e.key].clock, e.clock, {e.clock} + OtherClocks(r, e.key));
      }
    } else {
      RefusalKeepsExact(r, e);
      if Leq(e.clock, r.entries[e.key].clock) {
        HeldIsCovered(r, e.key);
        LeqTransitive(e.clock, r.entries[e.key].clock, r.clock);
      }
    }
  }

  lemma HeldIsCovered(r: Room, k: Key)
    requires WellFormed(r) && k in r.entries
    ensures Leq(r.entries[k].clock, r.clock)
  {
  }

  lemma DominatedIsReached(c: Clock, d: Clock, cs: set<Clock>)
    requires Leq(c, d) && d in cs
    ensures ReachedBy(c, cs)
  {
    forall a ensures Reaches(cs, c, a) {
      assert Get(c, a) <= Get(d, a);
    }
  }

  /** In a room of one key any concurrent entry does it, whichever of the two wins. */
  lemma OneKeyOutgrows(r: Room, e: Entry, x: Entry)
    requires r.entries == map[e.key := x] && x.key == e.key && Same(r.clock, x.clock)
    ensures Exact(Apply(r, e)) <==> Compare(e.clock, x.clock) != Concurrent
  {
    CompareIsPartialOrder(r.clock, x.clock, x.clock);
    assert r.entries[e.key] == x;
    assert HeldClocks(r) == {x.clock};
    LubOfOne(r.clock, x.clock);
    ConcurrencyOutgrowsEntries(r, e);
    assert {e.clock} + OtherClocks(r, e.key) == {e.clock};
    hide Apply, Exact, IsLub;
    if Compare(e.clock, x.clock) == Concurrent {
      if Newer(e, x) {
        var a :| Get(x.clock, a) > Get(e.clock, a);
        assert !Reaches({e.clock}, x.clock, a);
      } else if Leq(e.clock, r.clock) {
        LeqTransitive(e.clock, r.clock, x.clock);
      }
    }
  }

  lemma LubOfOne(c: Clock, d: Clock)
    ensures IsLub(c, {d}) <==> Same(c, d)
  {
    if IsLub(c, {d}) {
      assert d in {d};
      assert forall x :: x in {d} ==> Leq(x, d);
      CompareIsPartialOrder(c, d, c);
    }
    if Same(c, d) {
      forall u | forall x :: x in {d} ==> Leq(x, u) ensures Leq(c, u) {
        assert Leq(d, u);
      }
    }
  }

  // ---------------------------------------------------------------------------
  // Which entry survives
  // ---------------------------------------------------------------------------

  /** Everything that competes for key `k`: the entry held and the entries received. */
  ghost function Contenders(r: Room, s: seq<Entry>, k: Key): set<Entry> {
    (if k in r.entries then {r.entries[k]} else {}) + set e | e in s && e.key == k
  }

  ghost predicate Champion(m: Entry, S: set<Entry>) {
    m in S && forall y :: y in S && y != m ==> Beats(m, y)
  }

  /** The surviving entry is always a contender; an undefeated one survives once it has been applied. */
  lemma {:induction false} Survivor(r: Room, s: seq<Entry>, k: Key)
    requires WellFormed(r)
    ensures k in ApplyAll(r, s).entries <==> Contenders(r, s, k) != {}
    ensures k in ApplyAll(r, s).entries ==> ApplyAll(r, s).entries[k] in Contenders(r, s, k)
    ensures forall m :: Champion(m, Contenders(r, s, k)) ==> ApplyAll(r, s).entries[k] == m
  {
    if s == [] {
    } else {
      var before, last := s[..|s| - 1], s[|s| - 1];
      var r1 := ApplyAll(r, before);
      Survivor(r, before, k);
      AggregateClockLaw(r, before);
      ApplyKeepsWellFormed(r1, last);
      assert forall e :: e in s <==> e in before || e == last;
      assert Contenders(r, s, k) == Contenders(r, before, k) + if last.key == k then {last} else {};
      forall m | Champion(m, Contenders(r, s, k)) ensures ApplyAll(r, s).entries[k] == m {
        if m in Contenders(r, before, k) {
          assert Champion(m, Contenders(r, before, k));
        }
        if last.key == k && last != m {
          BeatsIsAsymmetric(m, last);
        }
      }
    }
  }

  /** Any order and any repetitions give the same room, provided every contested key has a champion. */
  lemma OrderIndependence(r: Room, s: seq<Entry>, t: seq<Entry>)
    requires WellFormed(r)
    requires forall e :: e in s <==> e in t
    requires forall k :: Contenders(r, s, k) != {} ==> exists m :: Champion(m, Contenders(r, s, k))
    ensures ApplyAll(r, s).entries == ApplyAll(r, t).entries
    ensures Same(ApplyAll(r, s).clock, ApplyAll(r, t).clock)
    ensures forall k, m :: Champion(m, Contenders(r, s, k)) ==>
      k in ApplyAll(r, s).entries && ApplyAll(r, s).entries[k] == m
  {
    ClockOrderFree(r, s, t);
    forall k
      ensures k in ApplyAll(r, s).entries <==> k in ApplyAll(r, t).entries
      ensures k in ApplyAll(r, s).entries ==> ApplyAll(r, s).entries[k] == ApplyAll(r, t).entries[k]
      ensures forall m :: Champion(m, Contenders(r, s, k)) ==>
        k in ApplyAll(r, s).entries && ApplyAll(r, s).entries[k] == m
    {
      assert Contenders(r, s, k) == Contenders(r, t, k);
      Survivor(r, s, k);
      Survivor(r, t, k);
    }
  }

  /** `s` is an ordering of the set `S`. */
  ghost predicate Enumerates(s: seq<Entry>, S: set<Entry>) {
    && (forall e :: e in s <==> e in S)
    && (forall i, j :: 0 <= i < j < |s| ==> s[i] != s[j])
  }

  ghost predicate OrderFree(S: set<Entry>) {
    forall s, t :: Enumerates(s, S) && Enumerates(t, S) ==>
      ApplyAll(EMPTY_ROOM, s).entries == ApplyAll(EMPTY_ROOM, t).entries
  }

  lemma {:induction false} SomeOrder(S: set<Entry>) returns (s: seq<Entry>)
    ensures Enumerates(s, S)
  {
    if S == {} {
      s := [];
    } else {
      var e :| e in S;
      var rest := SomeOrder(S - {e});
      s := rest + [e];
    }
  }

  /** Once `y` has displaced `m`, and `m` does not arrive again, `m` is not the survivor. */
  lemma {:induction false} Displaced(m: Entry, y: Entry, rest: seq<Entry>)
    requires m != y && m.key == y.key && m !in rest && !Beats(m, y)
    ensures y.key in ApplyAll(EMPTY_ROOM, [y, m] + rest).entries
    ensures ApplyAll(EMPTY_ROOM, [y, m] + rest).entries[y.key] != m
  {
    var s := [y, m] + rest;
    var before, last := s[..|s| - 1], s[|s| - 1];
    if rest == [] {
      assert before == [y] && before[..0] == [];
      assert ApplyAll(EMPTY_ROOM, before) == Apply(EMPTY_ROOM, y);
    } else {
      assert before == [y, m] + rest[..|rest| - 1];
      assert last == rest[|rest| - 1];
      Displaced(m, y, rest[..|rest| - 1]);
    }
  }

  lemma ChampionIsOrderFree(S: set<Entry>, k: Key, m: Entry)
    requires Champion(m, S) && forall e :: e in S ==> e.key == k
    ensures OrderFree(S)
  {
    forall s, t | Enumerates(s, S) && Enumerates(t, S)
      ensures ApplyAll(EMPTY_ROOM, s).entries == ApplyAll(EMPTY_ROOM, t).entries
    {
      forall k' | Contenders(EMPTY_ROOM, s, k') != {} ensures Champion(m, Contenders(EMPTY_ROOM, s, k')) {
        assert Contenders(EMPTY_ROOM, s, k') == S;
      }
      hide ApplyAll, Champion, Contenders;
      OrderIndependence(EMPTY_ROOM, s, t);
    }
  }

  lemma OnlySurvivorWins(S: set<Entry>, k: Key, s: seq<Entry>, y: Entry)
    requires OrderFree(S) && Enumerates(s, S) && y in S && forall e :: e in S ==> e.key == k
    requires k in ApplyAll(EMPTY_ROOM, s).entries && ApplyAll(EMPTY_ROOM, s).entries[k] in S
    requires y != ApplyAll(EMPTY_ROOM, s).entries[k]
    ensures Beats(ApplyAll(EMPTY_ROOM, s).entries[k], y)
  {
    hide ApplyAll, Beats;
    var m := ApplyAll(EMPTY_ROOM, s).entries[k];
    if !Beats(m, y) {
      var rest := SomeOrder(S - {y, m});
      var t := [y, m] + rest;
      assert Enumerates(t, S);
      Displaced(m, y, rest);
    }
  }

  /**
   The order in which a set of entries for one key arrives makes no difference exactly
   when one of them beats every other one.
   */
  lemma OrderFreeIffChampion(S: set<Entry>, k: Key)
    requires S != {} && forall e :: e in S ==> e.key == k
    ensures OrderFree(S) <==> exists m :: Champion(m, S)
  {
    hide OrderFree, ApplyAll, Beats;
    if m :| Champion(m, S) {
      ChampionIsOrderFree(S, k, m);
    }
    if OrderFree(S) {
      var s := SomeOrder(S);
      assert Contenders(EMPTY_ROOM, s, k) == S;
      Survivor(EMPTY_ROOM, s, k);
      var m := ApplyAll(EMPTY_ROOM, s).entries[k];
      forall y | y in S && y != m ensures Beats(m, y) {
        OnlySurvivorWins(S, k, s, y);
      }
      assert Champion(m, S);
    }
  }

  lemma Snoc(r: Room, s: seq<Entry>, e: Entry)
    ensures ApplyAll(r, s + [e]) == Apply(ApplyAll(r, s), e)
    ensures Updated(r, s + [e]) == Updated(r, s) + if Accepts(ApplyAll(r, s), e) then [e.key] else []
  {
    var t := s + [e];
    assert t[..|t| - 1] == s && t[|t| - 1] == e;
  }

  lemma BeatenIsReplaced(r: Room, e: Entry)
    requires e.key in r.entries && Beats(e, r.entries[e.key])
    ensures Apply(r, e).entries == r.entries[e.key := e] && Accepts(r, e)
  {
  }

  /** Two entries arriving after `r.entries[k]`, each beating the one before it. */
  lemma Chain(r: Room, b: Entry, c: Entry)
    requires b.key == c.key && b.key in r.entries
    requires Beats(b, r.entries[b.key]) && Beats(c, b)
    ensures ApplyAll(r, [b, c]).entries == r.entries[c.key := c]
    ensures Updated(r, [b, c]) == [b.key, c.key]
  {
    Snoc(r, [], b);
    BeatenIsReplaced(r, b);
    assert [] + [b] == [b];
    Snoc(r, [b], c);
    BeatenIsReplaced(ApplyAll(r, [b]), c);
    assert [b] + [c] == [b, c];
  }

  /**
   Three writes to one key under skewed wall clocks: `a` happens before `b` yet carries a
   later timestamp, and `c` is concurrent with both.  They beat each other in a circle.
   */
  lemma SkewedWrites() returns (a: Entry, b: Entry, c: Entry)
    ensures a.key == b.key == c.key
    ensures Compare(a.clock, b.clock) == Before && Newer(a, b)
    ensures Beats(b, a) && Beats(c, b) && Beats(a, c)
  {
    var ca: Clock, cb: Clock, cc: Clock := map["a" := 1], map["a" := 2], map["c" := 1];
    a := Entry("x", "1", "a", ca, 10);
    b := Entry("x", "2", "a", cb, 5);
    c := Entry("x", "3", "c", cc, 7);
    assert Get(ca, "a") == 1 && Get(cb, "a") == 2 && Get(cc, "a") == 0;
    assert Get(ca, "c") == 0 && Get(cb, "c") == 0 && Get(cc, "c") == 1;
    assert Leq(ca, cb);
    assert Beats(a, c) && Beats(c, b);
  }

  lemma BeatenIsNoChampion(m: Entry, x: Entry, S: set<Entry>)
    requires x in S && Beats(x, m)
    ensures !Champion(m, S)
  {
    BeatsIsAsymmetric(x, m);
  }

  /** Three entries that beat each other in a circle have no champion, so their order matters. */
  lemma CircleDiverges(a: Entry, b: Entry, c: Entry)
    requires a.key == b.key == c.key
    requires Beats(b, a) && Beats(c, b) && Beats(a, c)
    ensures !OrderFree({a, b, c})
  {
    BeatenIsNoChampion(a, b, {a, b, c});
    BeatenIsNoChampion(b, c, {a, b, c});
    BeatenIsNoChampion(c, a, {a, b, c});
    OrderFreeIffChampion({a, b, c}, a.key);
  }

  /** Without timestamps that respect causality, the order of arrival does matter. */
  lemma SkewedClocksDiverge() returns (a: Entry, b: Entry, c: Entry)
    ensures a.key == b.key == c.key
    ensures Compare(a.clock, b.clock) == Before && Newer(a, b)
    ensures !OrderFree({a, b, c})
  {
    a, b, c := SkewedWrites();
    CircleDiverges(a, b, c);
  }

  // ---------------------------------------------------------------------------
  // Timestamps that respect causality
  // ---------------------------------------------------------------------------

  /**
   Causally later entries for one key carry a newer stamp, equal clocks mean the same
   entry, and concurrent entries for one key differ in their stamps.
   */
  ghost predicate StampsFollowCauses(S: set<Entry>) {
    forall x, y :: x in S && y in S && x.key == y.key && x != y ==>
      && Compare(x.clock, y.clock) != Equal
      && (Newer(x, y) || Newer(y, x))
      && (Compare(x.clock, y.clock) == Before ==> Newer(y, x))
  }

  /** Then the code's resolution order is the lexicographic order of the stamps. */
  lemma BeatsIsNewer(S: set<Entry>, x: Entry, y: Entry)
    requires StampsFollowCauses(S) && x in S && y in S && x.key == y.key && x != y
    ensures Beats(x, y) <==> Newer(x, y)
  {
    CompareIsPartialOrder(x.clock, y.clock, x.clock);
    NewerIsStrictOrder(x, y, x);
  }

  /** Then every nonempty set of entries for one key has a champion, its greatest stamp. */
  lemma {:induction false} GreatestStampExists(S: set<Entry>, k: Key) returns (m: Entry)
    requires StampsFollowCauses(S) && S != {} && forall e :: e in S ==> e.key == k
    ensures m in S && forall y :: y in S && y != m ==> Newer(m, y)
    ensures Champion(m, S)
  {
    var e :| e in S;
    var rest := S - {e};
    if rest == {} {
      m := e;
    } else {
      m := GreatestStampExists(rest, k);
      if Newer(e, m) {
        forall y | y in S && y != e ensures Newer(e, y) {
          NewerIsStrictOrder(e, m, y);
        }
        m := e;
      }
    }
    forall y | y in S && y != m ensures Newer(m, y) && Beats(m, y) {
      assert y == e || y in rest;
      BeatsIsNewer(S, m, y);
    }
  }

  ghost predicate AtLeast(x: Entry, y: Entry) {
    x == y || Newer(x, y)
  }

  /** `y` is not later than `x`, nor of the same time by an author that does not come before. */
  predicate NoLater(y: Entry, x: Entry) {
    && y.updatedAt <= x.updatedAt
    && (y.updatedAt == x.updatedAt && y != x ==> Text.Less(y.author, x.author))
  }

  /** At least as new means no more and no less than that, in times and authors. */
  lemma AtLeastMeans(x: Entry, y: Entry)
    ensures AtLeast(x, y) ==> NoLater(y, x)
    ensures x.updatedAt > y.updatedAt ==> AtLeast(x, y)
    ensures x.updatedAt == y.updatedAt && Text.Less(y.author, x.author) ==> AtLeast(x, y)
    ensures x.updatedAt < y.updatedAt ==> !AtLeast(x, y)
    ensures x.updatedAt == y.updatedAt && x != y && !Text.Less(y.author, x.author) ==> !AtLeast(x, y)
  {
  }

  /**
   With stamps that follow causes, applying entries in any order keeps, for every key, the
   lexicographically greatest stamp among the entry held and the entries received.
   */
  lemma KeepsGreatestStamp(r: Room, s: seq<Entry>, k: Key)
    requires WellFormed(r)
    requires StampsFollowCauses(Contenders(r, s, k)) && Contenders(r, s, k) != {}
    ensures k in ApplyAll(r, s).entries
    ensures ApplyAll(r, s).entries[k] in Contenders(r, s, k)
    ensures forall y :: y in Contenders(r, s, k) ==> AtLeast(ApplyAll(r, s).entries[k], y)
    ensures forall y :: y in Contenders(r, s, k) ==> NoLater(y, ApplyAll(r, s).entries[k])
  {
    Survivor(r, s, k);
    var m := GreatestStampExists(Contenders(r, s, k), k);
  }

  /** Order independence for such entries, with no champion to exhibit. */
  lemma StampedOrderIndependence(r: Room, s: seq<Entry>, t: seq<Entry>)
    requires WellFormed(r)
    requires forall e :: e in s <==> e in t
    requires forall k :: StampsFollowCauses(Contenders(r, s, k))
    ensures ApplyAll(r, s).entries == ApplyAll(r, t).entries
    ensures Same(ApplyAll(r, s).clock, ApplyAll(r, t).clock)
  {
    forall k | Contenders(r, s, k) != {} ensures exists m :: Champion(m, Contenders(r, s, k)) {
      var m := GreatestStampExists(Contenders(r, s, k), k);
    }
    OrderIndependence(r, s, t);
  }

  // ---------------------------------------------------------------------------
  // Reported keys
  // ---------------------------------------------------------------------------

  /** The report on `k` is exact: it is listed if and only if its entry changed. */
  ghost predicate ReportExact(r: Room, s: seq<Entry>, k: Key) {
    k in Updated(r, s) <==>
      k in ApplyAll(r, s).entries && (k !in r.entries || ApplyAll(r, s).entries[k] != r.entries[k])
  }

  /** Whatever the entries, a key whose entry changed has been reported. */
  lemma {:induction false} ChangedKeysAreReported(r: Room, s: seq<Entry>, k: Key)
    requires WellFormed(r)
    requires k in ApplyAll(r, s).entries && (k !in r.entries || ApplyAll(r, s).entries[k] != r.entries[k])
    ensures k in Updated(r, s)
  {
    if s != [] {
      var before, last := s[..|s| - 1], s[|s| - 1];
      var r1 := ApplyAll(r, before);
      AggregateClockLaw(r, before);
      ApplyKeepsWellFormed(r1, last);
      if k in r1.entries && (k !in r.entries || r1.entries[k] != r.entries[k]) {
        ChangedKeysAreReported(r, before, k);
      }
    }
  }

  /** With stamps that follow causes the report is exact: it lists the keys that changed and no others. */
  lemma {:induction false} ReportedKeysChanged(r: Room, s: seq<Entry>, k: Key)
    requires WellFormed(r) && StampsFollowCauses(Contenders(r, s, k))
    ensures ReportExact(r, s, k)
  {
    if k in Updated(r, s) {
      ReportedKeyRose(r, s, k);
      if k in r.entries {
        NewerIsStrictOrder(r.entries[k], r.entries[k], r.entries[k]);
      }
    } else if k in ApplyAll(r, s).entries && (k !in r.entries || ApplyAll(r, s).entries[k] != r.entries[k]) {
      ChangedKeysAreReported(r, s, k);
    }
  }

  lemma {:induction false} ReportedKeyRose(r: Room, s: seq<Entry>, k: Key)
    requires WellFormed(r) && StampsFollowCauses(Contenders(r, s, k))
    ensures k in r.entries ==> k in ApplyAll(r, s).entries && AtLeast(ApplyAll(r, s).entries[k], r.entries[k])
    ensures k in Updated(r, s) ==>
      k in ApplyAll(r, s).entries && (k in r.entries ==> Newer(ApplyAll(r, s).entries[k], r.entries[k]))
  {
    if s != [] {
      var before, last := s[..|s| - 1], s[|s| - 1];
      var r1 := ApplyAll(r, before);
      assert Contenders(r, before, k) <= Contenders(r, s, k);
      ReportedKeyRose(r, before, k);
      AggregateClockLaw(r, before);
      ApplyKeepsWellFormed(r1, last);
      Survivor(r, before, k);
      if last.key == k && Accepts(r1, last) && k in r.entries {
        var held := r1.entries[k];
        CompareIsPartialOrder(last.clock, last.clock, last.clock);
        BeatsIsNewer(Contenders(r, s, k), last, held);
        NewerIsStrictOrder(last, held, r.entries[k]);
      }
    }
  }

  /** Without that hypothesis a key can be reported although its entry ends up as it began. */
  lemma ReportedButUnchanged(r: Room, b: Entry, c: Entry)
    requires b.key == c.key && b.key in r.entries && r.entries[b.key].key == b.key
    requires Beats(b, r.entries[b.key]) && Beats(c, b) && Beats(r.entries[b.key], c)
    ensures ApplyAll(r, [b, c, r.entries[b.key]]).entries == r.entries
    ensures b.key in Updated(r, [b, c, r.entries[b.key]])
  {
    var a := r.entries[b.key];
    Chain(r, b, c);
    Snoc(r, [b, c], a);
    BeatenIsReplaced(ApplyAll(r, [b, c]), a);
    assert [b, c] + [a] == [b, c, a];
  }

  /** A walk from `a` to `b` through entries of `S` in which each beats the one before it. */
  ghost predicate Ascent(path: seq<Entry>, S: set<Entry>, a: Entry, b: Entry) {
    && path != [] && path[0] == a && path[|path| - 1] == b
    && forall i {:trigger path[i]} :: 0 < i < |path| ==>
         path[i] in S && path[i].key == path[i - 1].key && Beats(path[i], path[i - 1])
  }

  /** `a` can be beaten step by step within `S` until it comes back. */
  ghost predicate Returns(S: set<Entry>, a: Entry) {
    exists path :: |path| > 1 && Ascent(path, S, a, a)
  }

  lemma AscentExtended(path: seq<Entry>, S: set<Entry>, a: Entry, b: Entry, e: Entry)
    requires Ascent(path, S, a, b) && e.key == b.key && Beats(e, b)
    ensures Ascent(path + [e], S + {e}, a, e)
  {
    hide Beats;
  }

  lemma AscentWithin(path: seq<Entry>, S: set<Entry>, T: set<Entry>, a: Entry, b: Entry)
    requires S <= T && Ascent(path, S, a, b)
    ensures Ascent(path, T, a, b)
  {
  }

  /** How the entry of a held key came about: by entries received that each beat the one before it. */
  lemma {:induction false} AscentOf(r: Room, s: seq<Entry>, k: Key) returns (path: seq<Entry>)
    requires WellFormed(r) && k in r.entries
    ensures k in ApplyAll(r, s).entries
    ensures Ascent(path, (set e | e in s), r.entries[k], ApplyAll(r, s).entries[k])
    ensures k in Updated(r, s) <==> |path| > 1
  {
    if s == [] {
      path := [r.entries[k]];
    } else {
      var before, last := s[..|s| - 1], s[|s| - 1];
      path := AscentOf(r, before, k);
      LastApplied(r, s);
      hide ApplyAll, Updated;
      var S, T := (set e | e in before), (set e | e in s);
      var a, b := r.entries[k], ApplyAll(r, before).entries[k];
      assert b.key == k;
      assert Ascent(path, S, a, b) && path != [];
      assert S + {last} == T;
      hide WellFormed, Leq, Beats, Apply, Ascent;
      if last.key == k && Accepts(ApplyAll(r, before), last) {
        AscentExtended(path, S, a, b, last);
        path := path + [last];
      } else {
        AscentWithin(path, S, T, a, b);
      }
    }
  }

  lemma {:induction false} NewKeyIsHeld(r: Room, s: seq<Entry>, k: Key)
    requires WellFormed(r) && k in Updated(r, s)
    ensures k in ApplyAll(r, s).entries
  {
    var before, last := s[..|s| - 1], s[|s| - 1];
    StaysWellFormed(r, before);
    ApplyKeepsWellFormed(ApplyAll(r, before), last);
    if k in Updated(r, before) {
      NewKeyIsHeld(r, before, k);
    }
  }

  /** A report can only be wrong about a key whose entry changed and then came back. */
  lemma WrongReportReturns(r: Room, s: seq<Entry>, k: Key)
    requires WellFormed(r) && !ReportExact(r, s, k)
    ensures k in r.entries && r.entries[k] in s && Returns((set e | e in s), r.entries[k])
  {
    if k !in Updated(r, s) {
      ChangedKeysAreReported(r, s, k);
    } else if k !in r.entries {
      NewKeyIsHeld(r, s, k);
    } else {
      var path := AscentOf(r, s, k);
    }
  }

  /** Whatever the timestamps, the report is exact for a key whose held entry is not sent again. */
  lemma UnsentIsReportedExactly(r: Room, s: seq<Entry>, k: Key)
    requires WellFormed(r) && (k in r.entries ==> r.entries[k] !in s)
    ensures ReportExact(r, s, k)
  {
    if !ReportExact(r, s, k) {
      WrongReportReturns(r, s, k);
    }
  }

  /** Whatever the timestamps, the report on any delta from `build_delta` and on any snapshot is exact for every key. */
  lemma DistinctKeysReportedExactly(r: Room, s: seq<Entry>, k: Key)
    requires WellFormed(r)
    requires forall i, j :: 0 <= i < j < |s| ==> s[i].key != s[j].key
    ensures ReportExact(r, s, k)
  {
    DistinctKeys(r, s, k);
    if e :| e in s && e.key == k {
      CompareIsPartialOrder(e.clock, e.clock, e.clock);
    }
  }

  lemma AscentFront(path: seq<Entry>, S: set<Entry>, a: Entry, b: Entry)
    requires Ascent(path, S, a, b) && |path| > 1
    ensures var front := path[..|path| - 1];
      && Ascent(front, S, a, front[|front| - 1])
      && b.key == front[|front| - 1].key && Beats(b, front[|front| - 1])
      && path[1..] == front[1..] + [b]
      && (|front| == 1 ==> front[1..] == [] && front[0] == a)
  {
    hide Beats;
    assert path[|path| - 1] == b;
  }

  lemma BeatenLast(r: Room, s: seq<Entry>, e: Entry)
    requires e.key in ApplyAll(r, s).entries && Beats(e, ApplyAll(r, s).entries[e.key])
    ensures ApplyAll(r, s + [e]).entries == ApplyAll(r, s).entries[e.key := e]
    ensures e.key in Updated(r, s + [e])
  {
    Snoc(r, s, e);
    BeatenIsReplaced(ApplyAll(r, s), e);
  }

  /** Applying a walk's entries in order accepts every one of them. */
  lemma {:induction false} AscentIsApplied(r: Room, path: seq<Entry>, S: set<Entry>, b: Entry, k: Key)
    requires k in r.entries && r.entries[k].key == k && Ascent(path, S, r.entries[k], b) && |path| > 1
    ensures b.key == k
    ensures ApplyAll(r, path[1..]).entries == r.entries[k := b]
    ensures k in Updated(r, path[1..])
  {
    var front := path[..|path| - 1];
    AscentFront(path, S, r.entries[k], b);
    if |front| == 1 {
      assert ApplyAll(r, []) == r;
    } else {
      AscentIsApplied(r, front, S, front[|front| - 1], k);
    }
    hide Ascent, Beats, ApplyAll, Updated;
    BeatenLast(r, front[1..], b);
  }

  lemma ReturnIsMisreported(r: Room, S: set<Entry>, k: Key) returns (s: seq<Entry>)
    requires WellFormed(r) && k in r.entries && Returns(S, r.entries[k])
    ensures (set e | e in s) <= S && !ReportExact(r, s, k)
  {
    var path :| |path| > 1 && Ascent(path, S, r.entries[k], r.entries[k]);
    s := path[1..];
    forall e | e in s ensures e in S {
      var i :| 0 <= i < |s| && s[i] == e;
      assert path[i + 1] in S;
    }
    AscentIsApplied(r, path, S, r.entries[k], k);
  }

  /**
   The report on `k` is exact for every delta drawn from a set of entries, in any order and with
   any repetitions, unless the held entry can be beaten step by step within the set and return.
   */
  lemma ReportsExactUnlessReturns(r: Room, S: set<Entry>, k: Key)
    requires WellFormed(r)
    ensures (forall s :: (set e | e in s) <= S ==> ReportExact(r, s, k)) <==>
      (k in r.entries ==> !Returns(S, r.entries[k]))
  {
    if k in r.entries && Returns(S, r.entries[k]) {
      var s := ReturnIsMisreported(r, S, k);
    } else {
      forall s | (set e | e in s) <= S ensures ReportExact(r, s, k) {
        NoReturnNoMisreport(r, S, s, k);
      }
    }
  }

  lemma NoReturnNoMisreport(r: Room, S: set<Entry>, s: seq<Entry>, k: Key)
    requires WellFormed(r) && (set e | e in s) <= S && (k in r.entries ==> !Returns(S, r.entries[k]))
    ensures ReportExact(r, s, k)
  {
    if k in r.entries {
      ReturnsWithin((set e | e in s), S, r.entries[k]);
    }
    if !ReportExact(r, s, k) {
      WrongReportReturns(r, s, k);
    }
  }

  lemma ReturnsWithin(S: set<Entry>, T: set<Entry>, a: Entry)
    requires S <= T
    ensures Returns(S, a) ==> Returns(T, a)
  {
    if path :| |path| > 1 && Ascent(path, S, a, a) {
      AscentWithin(path, S, T, a, a);
    }
  }

  /** So a report can be wrong: the three skewed writes make one, on the room that holds the first. */
  lemma SkewedWritesAreMisreported() returns (r: Room, s: seq<Entry>, k: Key)
    ensures WellFormed(r) && k in Updated(r, s) && ApplyAll(r, s).entries == r.entries
    ensures !ReportExact(r, s, k)
  {
    var a, b, c := SkewedWrites();
    r, s, k := Room(map[a.key := a], a.clock), [b, c, a], a.key;
    CompareIsPartialOrder(a.clock, a.clock, a.clock);
    hide Beats;
    ReportedButUnchanged(r, b, c);
  }

  /** Entries for distinct keys do not interact: each is resolved against what the room held. */
  lemma {:induction false} DistinctKeys(r: Room, s: seq<Entry>, k: Key)
    requires WellFormed(r)
    requires forall i, j :: 0 <= i < j < |s| ==> s[i].key != s[j].key
    ensures (forall e :: e in s ==> e.key != k) ==>
      && k !in Updated(r, s)
      && (k in ApplyAll(r, s).entries <==> k in r.entries)
      && (k in r.entries ==> ApplyAll(r, s).entries[k] == r.entries[k])
    ensures forall e :: e in s && e.key == k ==>
      && (k in Updated(r, s) <==> Accepts(r, e))
      && k in ApplyAll(r, s).entries
      && ApplyAll(r, s).entries[k] == if Accepts(r, e) then e else r.entries[k]
  {
    if s != [] {
      var before, last := s[..|s| - 1], s[|s| - 1];
      LastApplied(r, s);
      hide WellFormed, ApplyAll, Updated, Beats;
      DistinctKeys(r, before, k);
      assert forall e :: e in s <==> e in before || e == last;
      forall e | e in before ensures e.key != last.key {
        var i :| 0 <= i < |before| && before[i] == e;
      }
    }
  }

  // ---------------------------------------------------------------------------
  // Snapshots
  // ---------------------------------------------------------------------------

  lemma SnapshotClock(r: Room, s: seq<Entry>)
    requires WellFormed(r) && Lists(s, r.entries)
    ensures IsLub(ApplyAll(EMPTY_ROOM, s).clock, {map[]} + set k | k in r.entries :: r.entries[k].clock)
    ensures Leq(ApplyAll(EMPTY_ROOM, s).clock, r.clock)
  {
    AggregateClockLaw(EMPTY_ROOM, s);
    hide ApplyAll;
    assert ReceivedClocks(EMPTY_ROOM, s) == {map[]} + set k | k in r.entries :: r.entries[k].clock by {
      hide IsLub;
      forall k | k in r.entries ensures r.entries[k].clock in ReceivedClocks(EMPTY_ROOM, s) {
        assert r.entries[k] in s;
      }
    }
    forall d | d in ReceivedClocks(EMPTY_ROOM, s) ensures Leq(d, r.clock) {
    }
  }

  lemma SnapshotEntry(r: Room, s: seq<Entry>, k: Key)
    requires WellFormed(r) && Lists(s, r.entries)
    ensures k in ApplyAll(EMPTY_ROOM, s).entries <==> k in r.entries
    ensures k in r.entries ==> ApplyAll(EMPTY_ROOM, s).entries[k] == r.entries[k]
    ensures k in Updated(EMPTY_ROOM, s) <==> k in r.entries
  {
    hide ApplyAll, Updated;
    DistinctKeys(EMPTY_ROOM, s, k);
    if k in r.entries {
      assert r.entries[k] in s;
    }
  }

  /**
   Restoring a snapshot of `r` into a fresh room, in any order of its map, gives exactly
   its entries under the join of their clocks, which the snapshot's own clock bounds.
   */
  lemma SnapshotRoundTrip(r: Room, s: seq<Entry>)
    requires WellFormed(r) && Lists(s, r.entries)
    ensures ApplyAll(EMPTY_ROOM, s).entries == r.entries
    ensures IsLub(ApplyAll(EMPTY_ROOM, s).clock, {map[]} + set k | k in r.entries :: r.entries[k].clock)
    ensures Leq(ApplyAll(EMPTY_ROOM, s).clock, r.clock)
    ensures forall k :: k in Updated(EMPTY_ROOM, s) <==> k in r.entries
  {
    hide ApplyAll, Updated, IsLub, Leq, WellFormed, Lists;
    SnapshotClock(r, s);
    forall k
      ensures k in ApplyAll(EMPTY_ROOM, s).entries <==> k in r.entries
      ensures k in r.entries ==> ApplyAll(EMPTY_ROOM, s).entries[k] == r.entries[k]
      ensures k in Updated(EMPTY_ROOM, s) <==> k in r.entries
    {
      SnapshotEntry(r, s, k);
    }
  }

  /** The restored room has the snapshot's clock exactly when that was the join of the clocks of its entries. */
  lemma RestoredClockIsSameWhenExact(r: Room, s: seq<Entry>)
    requires WellFormed(r) && Lists(s, r.entries)
    ensures Same(ApplyAll(EMPTY_ROOM, s).clock, r.clock) <==> Exact(r)
  {
    var c := ApplyAll(EMPTY_ROOM, s).clock;
    SnapshotClock(r, s);
    hide ApplyAll;
    if Exact(r) {
      assert forall d :: d in HeldClocks(r) ==> d in {map[]} + HeldClocks(r);
      assert Leq(r.clock, c);
      CompareIsPartialOrder(c, r.clock, c);
    }
    if Same(c, r.clock) {
      forall u | forall d :: d in HeldClocks(r) ==> Leq(d, u) ensures Leq(r.clock, u) {
        assert Leq(c, u);
        LeqTransitive(r.clock, c, u);
      }
    }
  }

  lemma RestoredIsExact(r: Room, s: seq<Entry>)
    requires WellFormed(r) && Lists(s, r.entries)
    ensures Exact(ApplyAll(EMPTY_ROOM, s))
  {
    SnapshotRoundTrip(r, s);
    hide ApplyAll, Updated;
    var r' := ApplyAll(EMPTY_ROOM, s);
    assert HeldClocks(r') == HeldClocks(r);
    assert IsLub(r'.clock, {map[]} + HeldClocks(r'));
    forall u | forall d :: d in HeldClocks(r') ==> Leq(d, u) ensures Leq(r'.clock, u) {
      assert Leq(map[], u);
    }
  }

  /** A room that refused a concurrent entry: what its snapshot restores has a strictly lower clock. */
  lemma RestoredClockCanBeLower() returns (r: Room, received: seq<Entry>, s: seq<Entry>)
    ensures r == ApplyAll(EMPTY_ROOM, received) && Lists(s, r.entries)
    ensures Compare(ApplyAll(EMPTY_ROOM, s).clock, r.clock) == Before
  {
    var ca: Clock, cb: Clock := map["a" := 1], map["b" := 1];
    var y, x := Entry("x", "1", "b", cb, 2), Entry("x", "2", "a", ca, 1);
    received, s := [y, x], [y];
    assert Get(ca, "a") == 1 && Get(cb, "a") == 0 && Get(ca, "b") == 0 && Get(cb, "b") == 1;
    assert received[..1] == [y] && received[..1][..0] == [];
    assert ApplyAll(EMPTY_ROOM, s) == Apply(EMPTY_ROOM, y);
    r := ApplyAll(EMPTY_ROOM, received);
    var c := ApplyAll(EMPTY_ROOM, s).clock;
    assert r.entries == map["x" := y] && r.clock == Join(c, ca);
    JoinIsLub(c, ca);
    assert Get(r.clock, "a") == 1 && Get(c, "a") == 0;
  }

  /** Restoring it a second time, in any other order, changes nothing and reports nothing. */
  lemma SecondRestoreIsIdle(r: Room, s: seq<Entry>, t: seq<Entry>)
    requires WellFormed(r) && Lists(s, r.entries) && Lists(t, r.entries)
    ensures ApplyAll(ApplyAll(EMPTY_ROOM, s), t) == ApplyAll(EMPTY_ROOM, s)
    ensures Updated(ApplyAll(EMPTY_ROOM, s), t) == []
  {
    SnapshotRoundTrip(r, s);
    HeldEntriesAreIdle(ApplyAll(EMPTY_ROOM, s), t);
  }

  /** Entries the room already holds change nothing, not even its clock's representation. */
  lemma {:induction false} HeldEntriesAreIdle(r: Room, s: seq<Entry>)
    requires forall e :: e in s ==> e.key in r.entries && r.entries[e.key] == e
    ensures ApplyAll(r, s) == r
    ensures Updated(r, s) == []
  {
    if s != [] {
      HeldEntriesAreIdle(r, s[..|s| - 1]);
      CompareIsPartialOrder(s[|s| - 1].clock, s[|s| - 1].clock, s[|s| - 1].clock);
    }
  }

  // ---------------------------------------------------------------------------
  // Which messages bring the sender's clock
  // ---------------------------------------------------------------------------

  /** `s` selects entries of `r`, all but some that `since` covers. */
  ghost predicate SelectedSince(r: Room, since: Clock, s: seq<Entry>) {
    && (forall e :: e in s ==> e.key in r.entries && r.entries[e.key] == e)
    && (forall k :: k in r.entries ==> r.entries[k] in s || Leq(r.entries[k].clock, since))
  }

  lemma BroughtComponent(r: Room, since: Clock, s: seq<Entry>, q: Room, a: Agent)
    requires WellFormed(q) && Leq(since, q.clock) && SelectedSince(r, since, s)
    requires Reaches({since} + HeldClocks(r), r.clock, a)
    ensures Get(r.clock, a) <= Get(ApplyAll(q, s).clock, a)
  {
    AggregateClockLaw(q, s);
    hide ApplyAll;
    var c := ApplyAll(q, s).clock;
    assert q.clock in ReceivedClocks(q, s);
    LeqTransitive(since, q.clock, c);
    var d :| d in {since} + HeldClocks(r) && Get(r.clock, a) <= Get(d, a);
    if d != since {
      var k :| k in r.entries && r.entries[k].clock == d;
      if r.entries[k] in s {
        assert d in ReceivedClocks(q, s);
      } else {
        LeqTransitive(d, since, c);
      }
    }
    assert Leq(d, c);
  }

  lemma NeededComponent(r: Room, since: Clock, s: seq<Entry>, a: Agent)
    requires SelectedSince(r, since, s)
    requires Get(r.clock, a) <= Get(ApplyAll(Room(map[], since), s).clock, a)
    ensures Reaches({since} + HeldClocks(r), r.clock, a)
  {
    var c := ClockAttained(Room(map[], since), s, a);
    if c != since {
      var e :| e in s && e.clock == c;
      assert r.entries[e.key].clock in HeldClocks(r);
    }
    assert c in {since} + HeldClocks(r);
  }

  /**
   A selection of entries raises every receiver that has `since` to the sender's whole clock
   exactly when each component of that clock is reached by `since` or by an entry held.
   */
  lemma SelectionBringsClock(r: Room, since: Clock, s: seq<Entry>)
    requires SelectedSince(r, since, s)
    ensures (forall q :: WellFormed(q) && Leq(since, q.clock) ==> Leq(r.clock, ApplyAll(q, s).clock)) <==>
      ReachedBy(r.clock, {since} + HeldClocks(r))
  {
    hide ApplyAll, SelectedSince, HeldClocks, Reaches;
    if ReachedBy(r.clock, {since} + HeldClocks(r)) {
      forall q, a | WellFormed(q) && Leq(since, q.clock)
        ensures Get(r.clock, a) <= Get(ApplyAll(q, s).clock, a)
      {
        if Get(r.clock, a) > 0 {
          BroughtComponent(r, since, s, q, a);
        }
      }
    }
    if forall q :: WellFormed(q) && Leq(since, q.clock) ==> Leq(r.clock, ApplyAll(q, s).clock) {
      var q := Room(map[], since);
      CompareIsPartialOrder(since, since, since);
      assert WellFormed(q) && Leq(r.clock, ApplyAll(q, s).clock);
      forall a | Get(r.clock, a) > 0 ensures Reaches({since} + HeldClocks(r), r.clock, a) {
        assert Get(r.clock, a) <= Get(ApplyAll(q, s).clock, a);
        NeededComponent(r, since, s, a);
      }
    }
  }

  /** A delta does so for every receiver that has the clock it was built against. */
  lemma DeltaBringsClock(r: Room, since: Clock, s: seq<Entry>)
    requires Lists(s, Delta(r, since))
    ensures (forall q :: WellFormed(q) && Leq(since, q.clock) ==> Leq(r.clock, ApplyAll(q, s).clock)) <==>
      ReachedBy(r.clock, {since} + HeldClocks(r))
  {
    forall k | k in r.entries ensures r.entries[k] in s || Leq(r.entries[k].clock, since) {
      NewForMeaning(r.entries[k], since);
      if NewFor(r.entries[k], since) {
        assert Delta(r, since)[k] in s;
      }
    }
    hide ApplyAll, ReachedBy;
    SelectionBringsClock(r, since, s);
  }

  /** A snapshot does so for every receiver exactly when the sender's clock is the join of its entries' clocks. */
  lemma SnapshotBringsClock(r: Room, s: seq<Entry>)
    requires WellFormed(r) && Lists(s, r.entries)
    ensures (forall q :: WellFormed(q) ==> Leq(r.clock, ApplyAll(q, s).clock)) <==> Exact(r)
  {
    assert SelectedSince(r, map[], s) by {
      forall k | k in r.entries ensures r.entries[k] in s {
      }
    }
    hide ApplyAll, SelectedSince;
    SelectionBringsClock(r, map[], s);
    LubIsReached(r.clock, HeldClocks(r));
    assert forall q: Room :: Leq(map[], q.clock);
    forall a | Get(r.clock, a) > 0
      ensures Reaches({map[]} + HeldClocks(r), r.clock, a) <==> Reaches(HeldClocks(r), r.clock, a)
    {
    }
    forall d | d in HeldClocks(r) ensures Leq(d, r.clock) {
    }
  }
}
