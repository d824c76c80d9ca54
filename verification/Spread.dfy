/**
 Any number of replicas and any schedule of incremental syncs between them
 (`build_delta` and `apply_delta` in `p2p/src/room_state.rs`).
 */
module Spread {
  import opened Clocks
  import opened Rooms
  import opened RoomLaws
  import opened History
  import opened Replication
  import opened Convergence
  import opened Hearing

  /** Replica `to` applies the delta that `from` builds against its clock, in some order. */
  datatype Sync = Sync(to: nat, from: nat, listing: seq<Entry>)

  ghost predicate CanSync(rs: seq<Room>, y: Sync) {
    y.to < |rs| && y.from < |rs| && Lists(y.listing, Rooms.Delta(rs[y.from], rs[y.to].clock))
  }

  ghost function Synced(rs: seq<Room>, y: Sync): seq<Room>
    requires y.to < |rs|
  {
    rs[y.to := ApplyAll(rs[y.to], y.listing)]
  }

  ghost predicate LegalSyncs(rs: seq<Room>, syncs: seq<Sync>)
    decreases |syncs|
  {
    syncs != [] ==> CanSync(rs, syncs[0]) && LegalSyncs(Synced(rs, syncs[0]), syncs[1..])
  }

  ghost function AfterSyncs(rs: seq<Room>, syncs: seq<Sync>): seq<Room>
    requires LegalSyncs(rs, syncs)
    decreases |syncs|
  {
    if syncs == [] then rs else AfterSyncs(Synced(rs, syncs[0]), syncs[1..])
  }

  /** Which replicas each one has heard from, directly or through others. */
  function Heard(hs: seq<set<nat>>, syncs: seq<Sync>): (r: seq<set<nat>>)
    requires forall i :: 0 <= i < |syncs| ==> syncs[i].to < |hs| && syncs[i].from < |hs|
    ensures |r| == |hs|
    decreases |syncs|
  {
    if syncs == [] then hs
    else Heard(hs[syncs[0].to := hs[syncs[0].to] + hs[syncs[0].from]], syncs[1..])
  }

  /** `r` holds something at least as new as every entry of `q`. */
  ghost predicate Dominates(r: Room, q: Room) {
    forall k :: k in q.entries ==> k in r.entries && AtLeast(r.entries[k], q.entries[k])
  }

  /** Every entry of `r` was held by one of the rooms `qs`. */
  ghost predicate DrawnFrom(r: Room, qs: seq<Room>) {
    forall k :: k in r.entries ==> exists j :: 0 <= j < |qs| && k in qs[j].entries && qs[j].entries[k] == r.entries[k]
  }

  /** `r` is determined, invents nothing, and is ahead of every replica it has heard from. */
  ghost predicate SpreadAt(H: set<Entry>, start: seq<Room>, r: Room, heard: set<nat>) {
    && Determined(H, r) && DrawnFrom(r, start)
    && forall j :: j in heard ==> j < |start| && Dominates(r, start[j])
  }

  ghost predicate SpreadOk(H: set<Entry>, start: seq<Room>, rs: seq<Room>, hs: seq<set<nat>>) {
    && |rs| == |hs| == |start|
    && forall i :: 0 <= i < |rs| ==> SpreadAt(H, start, rs[i], hs[i])
  }

  lemma DominatesTransitive(a: Room, b: Room, c: Room)
    requires Dominates(a, b) && Dominates(b, c)
    ensures Dominates(a, c)
  {
    forall k | k in c.entries ensures k in a.entries && AtLeast(a.entries[k], c.entries[k]) {
      AtLeastTransitive(a.entries[k], b.entries[k], c.entries[k]);
    }
  }

  /** One sync leaves the receiver determined, ahead of both replicas, with nothing invented. */
  lemma SyncMerges(H: set<Entry>, rq: Room, rp: Room, s: seq<Entry>)
    requires Coherent(H) && Determined(H, rq) && Determined(H, rp)
    requires Lists(s, Rooms.Delta(rq, rp.clock))
    ensures Determined(H, ApplyAll(rp, s))
    ensures Dominates(ApplyAll(rp, s), rp) && Dominates(ApplyAll(rp, s), rq)
  {
    DeltaCarries(H, rq, rp.clock, s);
    CompareIsPartialOrder(rp.clock, rp.clock, rp.clock);
    Delivery(H, rp, s, rp.clock, rq.clock);
    forall k | k in rp.entries ensures k in ApplyAll(rp, s).entries && AtLeast(ApplyAll(rp, s).entries[k], rp.entries[k]) {
      DeliverySurvivor(H, rp, s, k);
      assert rp.entries[k] in Contenders(rp, s, k);
    }
    forall k | k in rq.entries ensures k in ApplyAll(rp, s).entries && AtLeast(ApplyAll(rp, s).entries[k], rq.entries[k]) {
      ReceiverCatchesUp(H, rq, rp, s, k);
    }
  }

  lemma Drawn(start: seq<Room>, r: Room, k: Key)
    requires DrawnFrom(r, start) && k in r.entries
    ensures exists j :: 0 <= j < |start| && k in start[j].entries && start[j].entries[k] == r.entries[k]
  {
  }

  lemma SyncInventsNothing(start: seq<Room>, rq: Room, rp: Room, s: seq<Entry>)
    requires WellFormed(rp) && WellFormed(rq) && DrawnFrom(rp, start) && DrawnFrom(rq, start)
    requires Lists(s, Rooms.Delta(rq, rp.clock))
    ensures DrawnFrom(ApplyAll(rp, s), start)
  {
    hide ApplyAll;
    forall k | k in ApplyAll(rp, s).entries
      ensures exists j :: 0 <= j < |start| && k in start[j].entries && start[j].entries[k] == ApplyAll(rp, s).entries[k]
    {
      SyncKeepsOrigin(start, rq, rp, s, k);
    }
  }

  lemma SyncKeepsOrigin(start: seq<Room>, rq: Room, rp: Room, s: seq<Entry>, k: Key)
    requires WellFormed(rp) && WellFormed(rq) && DrawnFrom(rp, start) && DrawnFrom(rq, start)
    requires Lists(s, Rooms.Delta(rq, rp.clock)) && k in ApplyAll(rp, s).entries
    ensures exists j :: 0 <= j < |start| && k in start[j].entries && start[j].entries[k] == ApplyAll(rp, s).entries[k]
  {
    hide DrawnFrom, ApplyAll;
    Survivor(rp, s, k);
    var x := ApplyAll(rp, s).entries[k];
    if x in s {
      assert x == rq.entries[k];
      Drawn(start, rq, k);
    } else {
      Drawn(start, rp, k);
    }
  }

  /** The receiver keeps what it had heard and hears all that the sender had heard. */
  lemma ReceiverSpread(H: set<Entry>, start: seq<Room>, rq: Room, rp: Room, hq: set<nat>, hp: set<nat>, s: seq<Entry>)
    requires Coherent(H) && SpreadAt(H, start, rq, hq) && SpreadAt(H, start, rp, hp)
    requires Lists(s, Rooms.Delta(rq, rp.clock))
    ensures SpreadAt(H, start, ApplyAll(rp, s), hp + hq)
  {
    hide Dominates, DrawnFrom, Coherent, Lists;
    SyncMerges(H, rq, rp, s);
    SyncInventsNothing(start, rq, rp, s);
    forall j | j in hp + hq ensures j < |start| && Dominates(ApplyAll(rp, s), start[j]) {
      if j in hp {
        DominatesTransitive(ApplyAll(rp, s), rp, start[j]);
      } else {
        DominatesTransitive(ApplyAll(rp, s), rq, start[j]);
      }
    }
  }

  lemma SyncKeepsSpread(H: set<Entry>, start: seq<Room>, rs: seq<Room>, hs: seq<set<nat>>, y: Sync)
    requires Coherent(H) && SpreadOk(H, start, rs, hs) && CanSync(rs, y)
    ensures SpreadOk(H, start, Synced(rs, y), hs[y.to := hs[y.to] + hs[y.from]])
  {
    hide SpreadAt, Coherent, Lists;
    ReceiverSpread(H, start, rs[y.from], rs[y.to], hs[y.from], hs[y.to], y.listing);
  }

  lemma {:induction false} LegalSyncsInRange(rs: seq<Room>, syncs: seq<Sync>)
    requires LegalSyncs(rs, syncs)
    ensures forall i :: 0 <= i < |syncs| ==> syncs[i].to < |rs| && syncs[i].from < |rs|
    ensures |AfterSyncs(rs, syncs)| == |rs|
    decreases |syncs|
  {
    if syncs != [] {
      LegalSyncsInRange(Synced(rs, syncs[0]), syncs[1..]);
      forall i | 0 <= i < |syncs| ensures syncs[i].to < |rs| && syncs[i].from < |rs| {
        if i > 0 {
          assert syncs[i] == syncs[1..][i - 1];
        }
      }
    }
  }

  lemma {:induction false} SyncsSpread(H: set<Entry>, start: seq<Room>, rs: seq<Room>, hs: seq<set<nat>>, syncs: seq<Sync>)
    requires Coherent(H) && SpreadOk(H, start, rs, hs) && LegalSyncs(rs, syncs)
    ensures forall i :: 0 <= i < |syncs| ==> syncs[i].to < |rs| && syncs[i].from < |rs|
    ensures SpreadOk(H, start, AfterSyncs(rs, syncs), Heard(hs, syncs))
    decreases |syncs|
  {
    LegalSyncsInRange(rs, syncs);
    if syncs != [] {
      SyncKeepsSpread(H, start, rs, hs, syncs[0]);
      SyncsSpread(H, start, Synced(rs, syncs[0]), hs[syncs[0].to := hs[syncs[0].to] + hs[syncs[0].from]], syncs[1..]);
    }
  }

  lemma AheadAt(start: seq<Room>, a: Room, b: Room, k: Key)
    requires DrawnFrom(a, start) && k in a.entries
    requires forall j :: 0 <= j < |start| ==> Dominates(b, start[j])
    ensures k in b.entries && AtLeast(b.entries[k], a.entries[k])
  {
    var j :| 0 <= j < |start| && k in start[j].entries && start[j].entries[k] == a.entries[k];
    assert Dominates(b, start[j]);
  }

  /** Two rooms drawn from the same entries, each ahead of all of them, are equal. */
  lemma AheadOfAllIsUnique(start: seq<Room>, a: Room, b: Room, k: Key)
    requires DrawnFrom(a, start) && DrawnFrom(b, start)
    requires forall j :: 0 <= j < |start| ==> Dominates(a, start[j])
    requires forall j :: 0 <= j < |start| ==> Dominates(b, start[j])
    ensures k in a.entries <==> k in b.entries
    ensures k in a.entries ==> a.entries[k] == b.entries[k]
  {
    if k in a.entries {
      AheadAt(start, a, b, k);
    }
    if k in b.entries {
      AheadAt(start, b, a, k);
      NewerIsStrictOrder(a.entries[k], b.entries[k], a.entries[k]);
    }
  }

  lemma StartSpreadOk(w: World)
    requires Reachable(w)
    ensures SpreadOk(Writes(w), w.rooms, w.rooms, Selves(|w.rooms|))
  {
    hide Reachable, Determined;
    forall i | 0 <= i < |w.rooms| ensures SpreadAt(Writes(w), w.rooms, w.rooms[i], Selves(|w.rooms|)[i]) {
      ReachableRoom(w, i);
    }
  }

  lemma SyncedIsAhead(w: World, syncs: seq<Sync>, i: nat)
    requires Reachable(w) && LegalSyncs(w.rooms, syncs) && i < |w.rooms|
    requires forall n :: 0 <= n < |syncs| ==> syncs[n].to < |w.rooms| && syncs[n].from < |w.rooms|
    requires FromAll(Heard(Selves(|w.rooms|), syncs)[i], |w.rooms|)
    ensures |AfterSyncs(w.rooms, syncs)| == |w.rooms|
    ensures DrawnFrom(AfterSyncs(w.rooms, syncs)[i], w.rooms)
    ensures forall k :: 0 <= k < |w.rooms| ==> Dominates(AfterSyncs(w.rooms, syncs)[i], w.rooms[k])
  {
    ReachableRoom(w, i);
    StartSpreadOk(w);
    SyncsSpread(Writes(w), w.rooms, w.rooms, Selves(|w.rooms|), syncs);
    assert SpreadAt(Writes(w), w.rooms, AfterSyncs(w.rooms, syncs)[i], Heard(Selves(|w.rooms|), syncs)[i]);
  }

  /**
   From any reachable state, after any schedule of syncs through which replicas `i` and `j` have
   both heard from every replica, they hold identical entries, whatever their clocks.
   */
  lemma AnyScheduleConverges(w: World, syncs: seq<Sync>, i: nat, j: nat)
    requires Reachable(w) && LegalSyncs(w.rooms, syncs) && i < |w.rooms| && j < |w.rooms|
    requires forall n :: 0 <= n < |syncs| ==> syncs[n].to < |w.rooms| && syncs[n].from < |w.rooms|
    requires FromAll(Heard(Selves(|w.rooms|), syncs)[i], |w.rooms|)
    requires FromAll(Heard(Selves(|w.rooms|), syncs)[j], |w.rooms|)
    ensures |AfterSyncs(w.rooms, syncs)| == |w.rooms|
    ensures AfterSyncs(w.rooms, syncs)[i].entries == AfterSyncs(w.rooms, syncs)[j].entries
  {
    LegalSyncsInRange(w.rooms, syncs);
    forall k
      ensures k in AfterSyncs(w.rooms, syncs)[i].entries <==> k in AfterSyncs(w.rooms, syncs)[j].entries
      ensures k in AfterSyncs(w.rooms, syncs)[i].entries ==>
        AfterSyncs(w.rooms, syncs)[i].entries[k] == AfterSyncs(w.rooms, syncs)[j].entries[k]
    {
      SyncedIsAhead(w, syncs, i);
      SyncedIsAhead(w, syncs, j);
      AheadOfAllIsUnique(w.rooms, AfterSyncs(w.rooms, syncs)[i], AfterSyncs(w.rooms, syncs)[j], k);
    }
  }

  // ---------------------------------------------------------------------------
  // Schedules that are enough
  // ---------------------------------------------------------------------------

  ghost predicate InRange(hs: seq<set<nat>>, syncs: seq<Sync>) {
    forall i :: 0 <= i < |syncs| ==> syncs[i].to < |hs| && syncs[i].from < |hs|
  }

  lemma {:induction false} HeardOneMore(hs: seq<set<nat>>, syncs: seq<Sync>, y: Sync)
    requires InRange(hs, syncs) && y.to < |hs| && y.from < |hs|
    ensures InRange(hs, syncs + [y])
    ensures var before := Heard(hs, syncs);
      Heard(hs, syncs + [y]) == before[y.to := before[y.to] + before[y.from]]
    decreases |syncs|
  {
    if syncs != [] {
      var hs1 := hs[syncs[0].to := hs[syncs[0].to] + hs[syncs[0].from]];
      assert (syncs + [y])[1..] == syncs[1..] + [y];
      HeardOneMore(hs1, syncs[1..], y);
    } else {
      assert [y][1..] == [];
      assert Heard(hs[y.to := hs[y.to] + hs[y.from]], []) == hs[y.to := hs[y.to] + hs[y.from]];
    }
  }

  /** Replicas 1, 2, ..., n each sync from the one before, then n - 1, ..., 0 from the one after. */
  ghost predicate UpAndDown(syncs: seq<Sync>, n: nat) {
    && |syncs| == 2 * n
    && (forall i :: 0 <= i < n ==> syncs[i].to == i + 1 && syncs[i].from == i)
    && (forall i :: n <= i < 2 * n ==> syncs[i].to == 2 * n - 1 - i && syncs[i].from == 2 * n - i)
  }

  lemma PrefixOneMore(hs: seq<set<nat>>, syncs: seq<Sync>, m: nat)
    requires InRange(hs, syncs) && m < |syncs|
    ensures InRange(hs, syncs[..m]) && InRange(hs, syncs[..m + 1])
    ensures var before := Heard(hs, syncs[..m]);
      Heard(hs, syncs[..m + 1]) == before[syncs[m].to := before[syncs[m].to] + before[syncs[m].from]]
  {
    assert syncs[..m + 1] == syncs[..m] + [syncs[m]];
    HeardOneMore(hs, syncs[..m], syncs[m]);
  }

  ghost predicate SelvesAfter(hs: seq<set<nat>>, m: nat) {
    forall k :: m < k < |hs| ==> k in hs[k]
  }

  ghost predicate AllFrom(hs: seq<set<nat>>, m: nat) {
    forall k :: m <= k < |hs| ==> FromAll(hs[k], |hs|)
  }

  lemma {:induction false} HeardGoingUp(syncs: seq<Sync>, n: nat, m: nat)
    requires UpAndDown(syncs, n) && m <= n && InRange(Selves(n + 1), syncs)
    ensures InRange(Selves(n + 1), syncs[..m])
    ensures FromAll(Heard(Selves(n + 1), syncs[..m])[m], m + 1)
    ensures SelvesAfter(Heard(Selves(n + 1), syncs[..m]), m)
  {
    if m > 0 {
      HeardGoingUp(syncs, n, m - 1);
      PrefixOneMore(Selves(n + 1), syncs, m - 1);
    } else {
      assert syncs[..0] == [];
    }
  }

  lemma {:induction false} HeardGoingDown(syncs: seq<Sync>, n: nat, m: nat)
    requires UpAndDown(syncs, n) && n <= m <= 2 * n && InRange(Selves(n + 1), syncs)
    ensures InRange(Selves(n + 1), syncs[..m])
    ensures AllFrom(Heard(Selves(n + 1), syncs[..m]), 2 * n - m)
  {
    if m > n {
      HeardGoingDown(syncs, n, m - 1);
      PrefixOneMore(Selves(n + 1), syncs, m - 1);
    } else {
      HeardGoingUp(syncs, n, n);
    }
  }

  /** Going up a line of replicas and back is enough for every one to hear from all, whatever their number. */
  lemma UpAndDownIsEnough(syncs: seq<Sync>, n: nat, i: nat)
    requires UpAndDown(syncs, n) && i <= n
    ensures forall k :: 0 <= k < |syncs| ==> syncs[k].to < n + 1 && syncs[k].from < n + 1
    ensures FromAll(Heard(Selves(n + 1), syncs)[i], n + 1)
  {
    assert InRange(Selves(n + 1), syncs);
    HeardGoingDown(syncs, n, 2 * n);
    assert syncs[..2 * n] == syncs;
  }
}
