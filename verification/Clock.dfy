/**
 Vector clocks (`p2p/src/room_state.rs`): the pointwise order on clocks, its least
 upper bound, and the class whose loops compute both in place.

 Clocks are compared through `Get`, where an absent agent counts as zero, and never by
 map equality.
 */
module Clocks {

  type Agent = string
  type Clock = map<Agent, nat>

  datatype Ordering = Before | After | Concurrent | Equal

  function Max(a: nat, b: nat): nat {
    if a >= b then a else b
  }

  function Get(c: Clock, a: Agent): nat {
    if a in c then c[a] else 0
  }

  ghost predicate Leq(c: Clock, d: Clock) {
    forall a :: Get(c, a) <= Get(d, a)
  }

  ghost predicate Same(c: Clock, d: Clock) {
    forall a :: Get(c, a) == Get(d, a)
  }

  function Join(c: Clock, d: Clock): Clock {
    map a | a in c.Keys + d.Keys :: Max(Get(c, a), Get(d, a))
  }

  function Ticked(c: Clock, a: Agent): Clock {
    c[a := Get(c, a) + 1]
  }

  /** What `partial_cmp_clock` decides, stated by the pointwise order alone. */
  ghost function Compare(c: Clock, d: Clock): Ordering {
    if Leq(c, d) && Leq(d, c) then Equal
    else if Leq(c, d) then Before
    else if Leq(d, c) then After
    else Concurrent
  }

  /** `c` is the least clock above every clock in `cs`. */
  ghost predicate IsLub(c: Clock, cs: set<Clock>) {
    && (forall d :: d in cs ==> Leq(d, c))
    && (forall u :: (forall d :: d in cs ==> Leq(d, u)) ==> Leq(c, u))
  }

  lemma LeqTransitive(c: Clock, d: Clock, e: Clock)
    requires Leq(c, d) && Leq(d, e)
    ensures Leq(c, e)
  {
    forall a ensures Get(c, a) <= Get(e, a) {
      assert Get(c, a) <= Get(d, a);
    }
  }

  lemma GetJoin(c: Clock, d: Clock, a: Agent)
    ensures Get(Join(c, d), a) == Max(Get(c, a), Get(d, a))
  {
  }

  /** The order on clocks is a partial order up to `Same`, and its verdicts are dual. */
  lemma CompareIsPartialOrder(c: Clock, d: Clock, e: Clock)
    ensures Compare(c, c) == Equal
    ensures Compare(c, d) == Equal <==> Same(c, d)
    ensures Compare(c, d) == Before <==> Compare(d, c) == After
    ensures Compare(c, d) == Concurrent <==> Compare(d, c) == Concurrent
    ensures Compare(c, d) == Before && Compare(d, e) == Before ==> Compare(c, e) == Before
  {
    if Leq(c, d) && Leq(d, e) {
      LeqTransitive(c, d, e);
      if Leq(e, c) {
        LeqTransitive(e, c, d);
      }
    }
    if Leq(c, d) && Leq(d, c) {
      forall a ensures Get(c, a) == Get(d, a) {
        assert Get(c, a) <= Get(d, a) && Get(d, a) <= Get(c, a);
      }
    }
  }

  /** The join is the least upper bound of the pointwise order. */
  lemma JoinIsLub(c: Clock, d: Clock)
    ensures IsLub(Join(c, d), {c, d})
  {
    forall a ensures Get(c, a) <= Get(Join(c, d), a) && Get(d, a) <= Get(Join(c, d), a) {
      GetJoin(c, d, a);
    }
    forall u | forall x :: x in {c, d} ==> Leq(x, u) ensures Leq(Join(c, d), u) {
      assert Leq(c, u) && Leq(d, u);
      forall a ensures Get(Join(c, d), a) <= Get(u, a) {
        GetJoin(c, d, a);
      }
    }
  }

  /** Merging is commutative, associative and idempotent on what `Get` observes. */
  lemma JoinLaws(c: Clock, d: Clock, e: Clock)
    ensures Same(Join(c, d), Join(d, c))
    ensures Same(Join(Join(c, d), e), Join(c, Join(d, e)))
    ensures Same(Join(c, c), c)
    ensures Leq(c, d) <==> Same(Join(c, d), d)
  {
    forall a
      ensures Get(Join(c, d), a) == Get(Join(d, c), a)
      ensures Get(Join(Join(c, d), e), a) == Get(Join(c, Join(d, e)), a)
      ensures Get(Join(c, c), a) == Get(c, a)
      ensures Get(c, a) <= Get(d, a) <==> Get(Join(c, d), a) == Get(d, a)
    {
      GetJoin(c, d, a);
      GetJoin(d, c, a);
      GetJoin(Join(c, d), e, a);
      GetJoin(c, Join(d, e), a);
      GetJoin(d, e, a);
      GetJoin(c, c, a);
    }
  }

  /** A tick makes a clock strictly later than everything at or below the old clock. */
  lemma TickIsAfter(c: Clock, a: Agent, d: Clock)
    requires Leq(d, c)
    ensures Compare(Ticked(c, a), d) == After
    ensures Leq(c, Ticked(c, a))
  {
    assert Get(Ticked(c, a), a) > Get(d, a) by {
      assert Get(d, a) <= Get(c, a);
    }
    forall x ensures Get(c, x) <= Get(Ticked(c, a), x) {
    }
    LeqTransitive(d, c, Ticked(c, a));
  }

  class VectorClock {
    var clocks: Clock

    constructor ()
      ensures clocks == map[]
    {
      clocks := map[];
    }

    /** A clone of another clock. */
    constructor From(c: Clock)
      ensures clocks == c
    {
      clocks := c;
    }

    method Tick(agent: Agent) returns (value: nat)
      modifies this
      ensures clocks == Ticked(old(clocks), agent)
      ensures value == Get(clocks, agent) == Get(old(clocks), agent) + 1
    {
      if agent !in clocks {
        clocks := clocks[agent := 0];
      }
      clocks := clocks[agent := clocks[agent] + 1];
      value := clocks[agent];
    }

    /** Visits the other clock's agents in any order, raising its own values in place. */
    method Merge(other: Clock)
      modifies this
      ensures clocks == Join(old(clocks), other)
    {
      var rest := other.Keys;
      while rest != {}
        invariant rest <= other.Keys
        invariant clocks.Keys == old(clocks).Keys + (other.Keys - rest)
        invariant forall a :: a in clocks ==>
          clocks[a] == if a in rest then Get(old(clocks), a) else Max(Get(old(clocks), a), Get(other, a))
        decreases rest
      {
        var agent :| agent in rest;
        if agent !in clocks {
          clocks := clocks[agent := 0];
        }
        clocks := clocks[agent := Max(clocks[agent], other[agent])];
        rest := rest - {agent};
      }
    }

    /** Visits all agents of both clocks in any order, updating the two flags. */
    method PartialCmp(other: Clock) returns (verdict: Ordering)
      ensures verdict == Compare(clocks, other)
    {
      var selfLeq, otherLeq := true, true;
      var rest := clocks.Keys + other.Keys;
      while rest != {}
        invariant rest <= clocks.Keys + other.Keys
        invariant selfLeq <==> forall a :: a in clocks.Keys + other.Keys - rest ==> Get(clocks, a) <= Get(other, a)
        invariant otherLeq <==> forall a :: a in clocks.Keys + other.Keys - rest ==> Get(other, a) <= Get(clocks, a)
        decreases rest
      {
        var key :| key in rest;
        var s, o := Get(clocks, key), Get(other, key);
        if s > o {
          selfLeq := false;
        }
        if o > s {
          otherLeq := false;
        }
        rest := rest - {key};
      }
      assert selfLeq <==> Leq(clocks, other) by {
        assert forall a :: a !in clocks.Keys + other.Keys ==> Get(clocks, a) == Get(other, a) == 0;
      }
      assert otherLeq <==> Leq(other, clocks) by {
        assert forall a :: a !in clocks.Keys + other.Keys ==> Get(clocks, a) == Get(other, a) == 0;
      }
      verdict := match (selfLeq, otherLeq)
        case (true, true) => Equal
        case (true, false) => Before
        case (false, true) => After
        case (false, false) => Concurrent;
    }
  }
}
