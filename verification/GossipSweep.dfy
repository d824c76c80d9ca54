/**
 A sweep of gossip along a line of nodes: completed pulls 1 from 0, 2 from 1, ..., then the same
 line in reverse (`p2p/src/gossip.rs`, `p2p/src/discovery.rs`).
 */
module GossipSweep {
  import opened Registry
  import opened Gossip

  // ---------------------------------------------------------------------------
  // One completed pull
  // ---------------------------------------------------------------------------

  /** Newest wins; on equal stamps the puller keeps its own. */
  function Join(t: Table, u: Table): Table {
    map id | id in t.Keys + u.Keys ::
      if id !in t then u[id]
      else if id in u && u[id].lastSeen > t[id].lastSeen then u[id]
      else t[id]
  }

  lemma {:induction false} MergeListed(t: Table, s: seq<PeerEntry>, id: Id)
    requires forall i, j :: 0 <= i < j < |s| ==> s[i].agentId != s[j].agentId
    ensures (forall e :: e in s ==> e.agentId != id) ==>
      (id in MergeAll(t, s) <==> id in t) && (id in t ==> MergeAll(t, s)[id] == t[id])
    ensures forall e :: e in s && e.agentId == id ==>
      id in MergeAll(t, s) && MergeAll(t, s)[id] == if Accepts(t, e) then e else t[id]
  {
    if s != [] {
      var before, last := s[..|s| - 1], s[|s| - 1];
      MergeListed(t, before, id);
      assert forall e :: e in s <==> e in before || e == last;
      forall e | e in before ensures e.agentId != last.agentId {
        var i :| 0 <= i < |before| && before[i] == e;
      }
    }
  }

  /** A completed pull leaves the puller with the newest-wins join, whatever order the answer came in. */
  lemma PullIsJoin(t: Table, u: Table, s: seq<PeerEntry>)
    requires Keyed(u) && Lists(s, Answer(u, Stamps(t)))
    ensures MergeAll(t, s) == Join(t, u)
  {
    forall id
      ensures id in MergeAll(t, s) <==> id in Join(t, u)
      ensures id in Join(t, u) ==> MergeAll(t, s)[id] == Join(t, u)[id]
    {
      MergeListed(t, s, id);
      if id in Answer(u, Stamps(t)) {
        assert u[id] in s;
      } else {
        assert forall e :: e in s ==> e.agentId != id;
      }
    }
  }

  /** The digest and the answer of one pull, in the orders the two tables happened to give. */
  datatype Round = Round(digests: seq<Digest>, entries: seq<PeerEntry>)

  ghost function PullSteps(w: Net, p: nat, q: nat, round: Round): seq<Step>
    requires q < |w.tables|
  {
    [Ask(p, q, round.digests),
     Reply(q, Asking(q, p, round.digests), round.entries),
     Absorb(p, Answering(p, round.entries, w.tables[q]))]
  }

  ghost predicate LegalPull(w: Net, p: nat, q: nat, round: Round) {
    && p < |w.tables| && q < |w.tables|
    && DigestOf(round.digests, w.tables[p])
    && Lists(round.entries, Answer(w.tables[q], Remote(round.digests)))
  }

  lemma PullIsLegal(w: Net, p: nat, q: nat, round: Round)
    requires LegalPull(w, p, q, round)
    ensures Legal(w, PullSteps(w, p, q, round))
  {
    var s := PullSteps(w, p, q, round);
    var w1 := Do(w, s[0]);
    var w2 := Do(w1, s[1]);
    assert s[1..][0] == s[1] && s[1..][1..] == [s[2]] && [s[2]][1..] == [];
    assert Enabled(w1, s[1]) && Enabled(w2, s[2]);
    assert Legal(Do(w2, s[2]), []);
    assert Legal(w2, [s[2]]);
    assert Legal(w1, s[1..]);
  }

  ghost function Pulled(ts: seq<Table>, p: nat, q: nat): seq<Table>
    requires p < |ts| && q < |ts|
  {
    ts[p := Join(ts[p], ts[q])]
  }

  /** Asking, answering and absorbing with nothing in between joins the answerer's table into the asker's. */
  lemma CompletedPull(w: Net, p: nat, q: nat, round: Round)
    requires LegalPull(w, p, q, round) && Keyed(w.tables[q])
    ensures Legal(w, PullSteps(w, p, q, round))
    ensures Exec(w, PullSteps(w, p, q, round)).tables == Pulled(w.tables, p, q)
  {
    PullIsLegal(w, p, q, round);
    var s := PullSteps(w, p, q, round);
    var w1 := Do(w, s[0]);
    var w2 := Do(w1, s[1]);
    var w3 := Do(w2, s[2]);
    assert s[1..][0] == s[1] && s[1..][1..] == [s[2]] && [s[2]][1..] == [];
    assert Exec(w2, [s[2]]) == Exec(w3, []) == w3;
    assert Exec(w1, s[1..]) == w3;
    RemoteIsStamps(round.digests, w.tables[p]);
    PullIsJoin(w.tables[p], w.tables[q], round.entries);
  }

  // ---------------------------------------------------------------------------
  // The sweep
  // ---------------------------------------------------------------------------

  /** Pulls 1 from 0, 2 from 1, ..., n from n - 1. */
  ghost function Up(ts: seq<Table>, n: nat): (us: seq<Table>)
    requires n < |ts|
    ensures |us| == |ts|
  {
    if n == 0 then ts else Pulled(Up(ts, n - 1), n, n - 1)
  }

  /** Pulls n - 1 from n, ..., 0 from 1. */
  ghost function Down(ts: seq<Table>, n: nat): (us: seq<Table>)
    requires n < |ts|
    ensures |us| == |ts|
    decreases n
  {
    if n == 0 then ts else Down(Pulled(ts, n - 1, n), n - 1)
  }

  ghost function Sweep(ts: seq<Table>): (us: seq<Table>)
    ensures |us| == |ts|
  {
    if ts == [] then ts else Down(Up(ts, |ts| - 1), |ts| - 1)
  }

  lemma JoinIsFresh(t: Table, u: Table)
    ensures AtLeastAsFresh(Join(t, u), t) && AtLeastAsFresh(Join(t, u), u)
  {
  }

  lemma {:induction false} UpIsFresh(ts: seq<Table>, n: nat)
    requires n < |ts|
    ensures forall j :: 0 <= j <= n ==> AtLeastAsFresh(Up(ts, n)[n], ts[j])
    ensures forall j :: n < j < |ts| ==> Up(ts, n)[j] == ts[j]
  {
    if n != 0 {
      var us := Up(ts, n - 1);
      UpIsFresh(ts, n - 1);
      JoinIsFresh(us[n], us[n - 1]);
      forall j | 0 <= j < n ensures AtLeastAsFresh(Up(ts, n)[n], ts[j]) {
        FreshTransitive(Up(ts, n)[n], us[n - 1], ts[j]);
      }
    }
  }

  lemma {:induction false} DownIsFresh(ts: seq<Table>, n: nat, t: Table)
    requires n < |ts|
    requires forall i :: n <= i < |ts| ==> AtLeastAsFresh(ts[i], t)
    ensures forall i :: 0 <= i < |ts| ==> AtLeastAsFresh(Down(ts, n)[i], t)
    decreases n
  {
    if n != 0 {
      var us := Pulled(ts, n - 1, n);
      JoinIsFresh(ts[n - 1], ts[n]);
      FreshTransitive(us[n - 1], ts[n], t);
      DownIsFresh(us, n - 1, t);
    }
  }

  /** After the sweep every node is at least as fresh as every node was before it. */
  lemma SweepIsFresh(ts: seq<Table>, i: nat, j: nat)
    requires i < |ts| && j < |ts|
    ensures AtLeastAsFresh(Sweep(ts)[i], ts[j])
  {
    UpIsFresh(ts, |ts| - 1);
    DownIsFresh(Up(ts, |ts| - 1), |ts| - 1, ts[j]);
  }

  /** Node `i` holds `e` under `id`, and no node holds anything newer for that id. */
  ghost predicate Newest(ts: seq<Table>, id: Id, i: nat, e: PeerEntry) {
    && i < |ts| && id in ts[i] && ts[i][id] == e
    && forall j :: 0 <= j < |ts| && id in ts[j] ==> ts[j][id].lastSeen <= e.lastSeen
  }

  /** Every entry of `us` is an entry of `ts`. */
  ghost predicate DrawnFrom(us: seq<Table>, ts: seq<Table>) {
    forall i, id :: 0 <= i < |us| && id in us[i] ==> exists j :: 0 <= j < |ts| && id in ts[j] && ts[j][id] == us[i][id]
  }

  lemma PulledDrawn(us: seq<Table>, ts: seq<Table>, p: nat, q: nat)
    requires p < |us| && q < |us| && DrawnFrom(us, ts)
    ensures DrawnFrom(Pulled(us, p, q), ts)
  {
    forall i, id | 0 <= i < |us| && id in Pulled(us, p, q)[i]
      ensures exists j :: 0 <= j < |ts| && id in ts[j] && ts[j][id] == Pulled(us, p, q)[i][id]
    {
      if i == p {
        assert id in us[p] || id in us[q];
      } else {
        assert id in us[i];
      }
    }
  }

  lemma {:induction false} UpDrawn(ts: seq<Table>, n: nat)
    requires n < |ts|
    ensures DrawnFrom(Up(ts, n), ts)
  {
    if n != 0 {
      UpDrawn(ts, n - 1);
      PulledDrawn(Up(ts, n - 1), ts, n, n - 1);
    }
  }

  lemma {:induction false} DownDrawn(us: seq<Table>, n: nat, ts: seq<Table>)
    requires n < |us| && DrawnFrom(us, ts)
    ensures DrawnFrom(Down(us, n), ts)
    decreases n
  {
    if n != 0 {
      PulledDrawn(us, ts, n - 1, n);
      DownDrawn(Pulled(us, n - 1, n), n - 1, ts);
    }
  }

  lemma SweepDrawn(ts: seq<Table>)
    ensures DrawnFrom(Sweep(ts), ts)
  {
    if ts != [] {
      UpDrawn(ts, |ts| - 1);
      DownDrawn(Up(ts, |ts| - 1), |ts| - 1, ts);
    }
  }

  lemma NewestSurvivesPull(ts: seq<Table>, id: Id, i: nat, e: PeerEntry, p: nat, q: nat)
    requires Newest(ts, id, i, e) && p < |ts| && q < |ts|
    ensures Newest(Pulled(ts, p, q), id, i, e)
  {
  }

  lemma {:induction false} NewestSurvivesUp(ts: seq<Table>, n: nat, id: Id, i: nat, e: PeerEntry)
    requires n < |ts| && Newest(ts, id, i, e)
    ensures Newest(Up(ts, n), id, i, e)
  {
    if n != 0 {
      NewestSurvivesUp(ts, n - 1, id, i, e);
      NewestSurvivesPull(Up(ts, n - 1), id, i, e, n, n - 1);
    }
  }

  lemma {:induction false} NewestSurvivesDown(ts: seq<Table>, n: nat, id: Id, i: nat, e: PeerEntry)
    requires n < |ts| && Newest(ts, id, i, e)
    ensures Newest(Down(ts, n), id, i, e)
    decreases n
  {
    if n != 0 {
      NewestSurvivesPull(ts, id, i, e, n - 1, n);
      NewestSurvivesDown(Pulled(ts, n - 1, n), n - 1, id, i, e);
    }
  }

  /** A node that holds a newest entry never gives it up. */
  lemma NewestSurvivesSweep(ts: seq<Table>, id: Id, i: nat, e: PeerEntry)
    requires Newest(ts, id, i, e)
    ensures Newest(Sweep(ts), id, i, e)
  {
    NewestSurvivesUp(ts, |ts| - 1, id, i, e);
    NewestSurvivesDown(Up(ts, |ts| - 1), |ts| - 1, id, i, e);
  }

  /** After the sweep, what any node holds for an id is some initial entry with the newest stamp. */
  lemma SweptEntryIsNewest(ts: seq<Table>, id: Id, i: nat) returns (j: nat)
    requires i < |ts| && id in Sweep(ts)[i]
    ensures Newest(ts, id, j, Sweep(ts)[i][id])
  {
    SweepDrawn(ts);
    var e := Sweep(ts)[i][id];
    j :| 0 <= j < |ts| && id in ts[j] && ts[j][id] == e;
    forall k | 0 <= k < |ts| && id in ts[k] ensures ts[k][id].lastSeen <= e.lastSeen {
      SweepIsFresh(ts, i, k);
      assert KnowsSince(Sweep(ts)[i], id, ts[k][id].lastSeen);
    }
  }

  /** Nodes that hold the newest stamp for an id agree on the entry. */
  ghost predicate NewestAgree(ts: seq<Table>) {
    forall id, i: nat, j: nat, e, f :: Newest(ts, id, i, e) && Newest(ts, id, j, f) ==> e == f
  }

  /**
   For any number of nodes and any initial tables, one sweep leaves all tables equal exactly
   when no id has two different entries with its newest stamp.
   */
  lemma SweepConvergesExactly(ts: seq<Table>)
    ensures (forall i, j :: 0 <= i < |ts| && 0 <= j < |ts| ==> Sweep(ts)[i] == Sweep(ts)[j]) <==> NewestAgree(ts)
  {
    if NewestAgree(ts) {
      forall i, j | 0 <= i < |ts| && 0 <= j < |ts| ensures Sweep(ts)[i] == Sweep(ts)[j] {
        SweptTablesAgree(ts, i, j);
      }
    }
    if forall i, j :: 0 <= i < |ts| && 0 <= j < |ts| ==> Sweep(ts)[i] == Sweep(ts)[j] {
      forall id, i: nat, j: nat, e, f | Newest(ts, id, i, e) && Newest(ts, id, j, f) ensures e == f {
        NewestSurvivesSweep(ts, id, i, e);
        NewestSurvivesSweep(ts, id, j, f);
        assert Sweep(ts)[i] == Sweep(ts)[j];
      }
    }
  }

  lemma SweptTablesAgree(ts: seq<Table>, i: nat, j: nat)
    requires NewestAgree(ts) && i < |ts| && j < |ts|
    ensures Sweep(ts)[i] == Sweep(ts)[j]
  {
    forall id
      ensures id in Sweep(ts)[i] <==> id in Sweep(ts)[j]
      ensures id in Sweep(ts)[i] && id in Sweep(ts)[j] ==> Sweep(ts)[i][id] == Sweep(ts)[j][id]
    {
      if id in Sweep(ts)[i] {
        var k := SweptEntryIsNewest(ts, id, i);
        SweepIsFresh(ts, j, k);
        assert KnowsSince(Sweep(ts)[j], id, ts[k][id].lastSeen);
      }
      if id in Sweep(ts)[j] {
        var k := SweptEntryIsNewest(ts, id, j);
        SweepIsFresh(ts, i, k);
        assert KnowsSince(Sweep(ts)[i], id, ts[k][id].lastSeen);
      }
      if id in Sweep(ts)[i] && id in Sweep(ts)[j] {
        var k := SweptEntryIsNewest(ts, id, i);
        var l := SweptEntryIsNewest(ts, id, j);
      }
    }
  }

  /** `m` is the newest-wins join of all the tables. */
  ghost predicate JoinOfAll(m: Table, ts: seq<Table>) {
    && (forall id :: id in m <==> exists i :: 0 <= i < |ts| && id in ts[i])
    && (forall id :: id in m ==> exists i :: Newest(ts, id, i, m[id]))
  }

  /** Then each of them equals the newest-wins join of all the initial tables. */
  lemma SweepReachesJoin(ts: seq<Table>, i: nat)
    requires i < |ts|
    ensures JoinOfAll(Sweep(ts)[i], ts)
  {
    var m := Sweep(ts)[i];
    forall id ensures id in m <==> exists j :: 0 <= j < |ts| && id in ts[j] {
      if id in m {
        var j := SweptEntryIsNewest(ts, id, i);
      }
      if j :| 0 <= j < |ts| && id in ts[j] {
        SweepIsFresh(ts, i, j);
        assert KnowsSince(m, id, ts[j][id].lastSeen);
      }
    }
    forall id | id in m ensures exists j :: Newest(ts, id, j, m[id]) {
      var j := SweptEntryIsNewest(ts, id, i);
    }
  }

  // ---------------------------------------------------------------------------
  // The sweep as a run of messages
  // ---------------------------------------------------------------------------

  /** `w'` follows from `w` by one completed pull of `p` from `q`. */
  ghost predicate PullLeads(w: Net, p: nat, q: nat, round: Round, w': Net) {
    LegalPull(w, p, q, round) && Legal(w, PullSteps(w, p, q, round)) && Exec(w, PullSteps(w, p, q, round)) == w'
  }

  /** The worlds after each pull of a sweep: first up the line, then back down. */
  ghost predicate SweepRun(ws: seq<Net>, rounds: seq<Round>, n: nat) {
    && |rounds| == 2 * n && |ws| == 2 * n + 1
    && (forall k :: 0 <= k < n ==> PullLeads(ws[k], k + 1, k, rounds[k], ws[k + 1]))
    && (forall k :: n <= k < 2 * n ==> PullLeads(ws[k], 2 * n - 1 - k, 2 * n - k, rounds[k], ws[k + 1]))
  }

  lemma PullLeadsToPulled(w: Net, p: nat, q: nat, round: Round, w': Net)
    requires Sourced(w) && PullLeads(w, p, q, round, w')
    ensures Sourced(w') && w'.tables == Pulled(w.tables, p, q)
  {
    assert TableOk(w, w.tables[q]);
    CompletedPull(w, p, q, round);
    RunKeepsSourced(w, PullSteps(w, p, q, round));
  }

  lemma {:induction false} RunUp(ws: seq<Net>, rounds: seq<Round>, n: nat, k: nat)
    requires SweepRun(ws, rounds, n) && Sourced(ws[0]) && |ws[0].tables| == n + 1 && k <= n
    ensures Sourced(ws[k]) && ws[k].tables == Up(ws[0].tables, k)
  {
    hide Sourced, PullLeads, Pulled;
    if k != 0 {
      RunUp(ws, rounds, n, k - 1);
      PullLeadsToPulled(ws[k - 1], k, k - 1, rounds[k - 1], ws[k]);
    }
  }

  lemma {:induction false} RunDown(ws: seq<Net>, rounds: seq<Round>, n: nat, k: nat)
    requires SweepRun(ws, rounds, n) && n <= k <= 2 * n && Sourced(ws[k]) && |ws[k].tables| == n + 1
    ensures ws[2 * n].tables == Down(ws[k].tables, 2 * n - k)
    decreases 2 * n - k
  {
    hide Sourced, PullLeads;
    if k != 2 * n {
      PullLeadsToPulled(ws[k], 2 * n - 1 - k, 2 * n - k, rounds[k], ws[k + 1]);
      RunDown(ws, rounds, n, k + 1);
    }
  }

  /**
   Any run of completed pulls up the line and back, started in a reachable state of `n + 1`
   nodes, whatever orders digests and answers were listed in, ends in the sweep of its tables.
   */
  lemma SweepRunIsSweep(ws: seq<Net>, rounds: seq<Round>, n: nat)
    requires SweepRun(ws, rounds, n) && Reachable(ws[0]) && |ws[0].tables| == n + 1
    ensures ws[2 * n].tables == Sweep(ws[0].tables)
  {
    ReachableSourced(ws[0]);
    RunUp(ws, rounds, n, n);
    RunDown(ws, rounds, n, n);
  }

  /** In a reachable state the newest entries agree when distinct announces of one id have distinct stamps. */
  lemma DistinctStampsAgree(w: Net)
    requires Reachable(w)
    requires DistinctStamps(w.announced)
    ensures NewestAgree(w.tables)
  {
    forall id, i: nat, j: nat, e, f | Newest(w.tables, id, i, e) && Newest(w.tables, id, j, f) ensures e == f {
      HeldWasAnnounced(w, i, id);
      HeldWasAnnounced(w, j, id);
    }
  }

  /**
   Altogether: in a reachable state whose distinct announces of one id have distinct stamps, a
   completed sweep leaves every node with the newest-wins join of all the tables it began with.
   */
  lemma SweepRunConverges(ws: seq<Net>, rounds: seq<Round>, n: nat, i: nat, j: nat)
    requires SweepRun(ws, rounds, n) && Reachable(ws[0]) && |ws[0].tables| == n + 1 && i <= n && j <= n
    requires DistinctStamps(ws[0].announced)
    ensures |ws[2 * n].tables| == n + 1
    ensures ws[2 * n].tables[i] == ws[2 * n].tables[j]
    ensures JoinOfAll(ws[2 * n].tables[i], ws[0].tables)
  {
    SweepRunIsSweep(ws, rounds, n);
    DistinctStampsAgree(ws[0]);
    SweptTablesAgree(ws[0].tables, i, j);
    SweepReachesJoin(ws[0].tables, i);
  }
}
