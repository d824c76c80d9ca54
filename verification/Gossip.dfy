/**
 Anti-entropy between N nodes (`p2p/src/gossip.rs` over `p2p/src/discovery.rs`): digests, pulls
 and pushes over a network that may lose, delay, duplicate and reorder them, with announces in
 between.  No peer is removed.  Results about freshness have one hypothesis, that the run is
 timely: an announce is never stamped before what its node holds for that id.
 */
module Gossip {
  import opened Registry

  datatype Message =
    | Asking(to: nat, from: nat, digests: seq<Digest>)
    /** `answered` records the answerer's table when it answered; no step reads it. */
    | Answering(to: nat, entries: seq<PeerEntry>, answered: Table)

  datatype Net = Net(tables: seq<Table>, announced: set<PeerEntry>, wire: set<Message>)

  datatype Step =
    | Announce(at: nat, entry: PeerEntry)
    | Ask(at: nat, to: nat, digests: seq<Digest>)
    | Reply(at: nat, pull: Message, entries: seq<PeerEntry>)
    | Absorb(at: nat, push: Message)

  function Init(n: nat): Net {
    Net(seq(n, _ => map[]), {}, {})
  }

  ghost predicate Enabled(w: Net, step: Step) {
    && step.at < |w.tables|
    && match step
       case Announce(at, entry) => true
       case Ask(at, to, digests) => DigestOf(digests, w.tables[at])
       case Reply(at, pull, entries) =>
         && pull in w.wire && pull.Asking? && pull.to == at
         && Lists(entries, Answer(w.tables[at], Remote(pull.digests)))
       case Absorb(at, push) => push in w.wire && push.Answering? && push.to == at
  }

  ghost function Do(w: Net, step: Step): Net
    requires Enabled(w, step)
    ensures |Do(w, step).tables| == |w.tables|
  {
    match step
    case Announce(at, entry) =>
      w.(tables := w.tables[at := w.tables[at][entry.agentId := entry]], announced := w.announced + {entry})
    case Ask(at, to, digests) => w.(wire := w.wire + {Asking(to, at, digests)})
    case Reply(at, pull, entries) => w.(wire := w.wire + {Answering(pull.from, entries, w.tables[at])})
    case Absorb(at, push) => w.(tables := w.tables[at := MergeAll(w.tables[at], push.entries)])
  }

  ghost predicate Legal(w: Net, steps: seq<Step>)
    decreases |steps|
  {
    steps != [] ==> Enabled(w, steps[0]) && Legal(Do(w, steps[0]), steps[1..])
  }

  ghost function Exec(w: Net, steps: seq<Step>): Net
    requires Legal(w, steps)
    decreases |steps|
  {
    if steps == [] then w else Exec(Do(w, steps[0]), steps[1..])
  }

  ghost predicate Reachable(w: Net) {
    exists n: nat, steps :: Legal(Init(n), steps) && Exec(Init(n), steps) == w
  }

  /** An announce is stamped no earlier than what its node holds for that id. */
  ghost predicate Timely(w: Net, step: Step) {
    step.Announce? && step.at < |w.tables| && step.entry.agentId in w.tables[step.at] ==>
      w.tables[step.at][step.entry.agentId].lastSeen <= step.entry.lastSeen
  }

  ghost predicate TimelyRun(w: Net, steps: seq<Step>)
    requires Legal(w, steps)
    decreases |steps|
  {
    steps != [] ==> Timely(w, steps[0]) && TimelyRun(Do(w, steps[0]), steps[1..])
  }

  ghost predicate TimelyReachable(w: Net) {
    exists n: nat, steps :: Legal(Init(n), steps) && TimelyRun(Init(n), steps) && Exec(Init(n), steps) == w
  }

  // ---------------------------------------------------------------------------
  // Safety under interleaving
  // ---------------------------------------------------------------------------

  ghost predicate TableOk(w: Net, t: Table) {
    Keyed(t) && forall id :: id in t ==> t[id] in w.announced
  }

  /** A message's entries and the table it was answered from hold announced entries only. */
  ghost predicate MessageOk(w: Net, m: Message) {
    match m
    case Asking(to, from, digests) => from < |w.tables|
    case Answering(to, entries, answered) =>
      to < |w.tables| && TableOk(w, answered) && forall e :: e in entries ==> e in w.announced
  }

  ghost predicate Sourced(w: Net) {
    && (forall i :: 0 <= i < |w.tables| ==> TableOk(w, w.tables[i]))
    && (forall m :: m in w.wire ==> MessageOk(w, m))
  }

  /** The asker knows what its digest says, and whatever an answer omits. */
  ghost predicate AskerKnows(w: Net, m: Message)
    requires MessageOk(w, m)
  {
    match m
    case Asking(to, from, digests) => forall d :: d in digests ==> KnowsSince(w.tables[from], d.agentId, d.lastSeen)
    case Answering(to, entries, answered) =>
      forall id :: id in answered ==>
        answered[id] in entries || KnowsSince(w.tables[to], id, answered[id].lastSeen)
  }

  /** No two entries announced for one id have the same stamp. */
  ghost predicate DistinctStamps(announced: set<PeerEntry>) {
    forall a, b :: a in announced && b in announced && a.agentId == b.agentId && a.lastSeen == b.lastSeen ==> a == b
  }

  /** Some node knows of each entry announced. */
  ghost predicate SomeoneKnows(w: Net, e: PeerEntry) {
    exists i :: 0 <= i < |w.tables| && KnowsSince(w.tables[i], e.agentId, e.lastSeen)
  }

  ghost predicate Inv(w: Net) {
    && Sourced(w)
    && (forall m :: m in w.wire ==> AskerKnows(w, m))
    && (forall e :: e in w.announced ==> SomeoneKnows(w, e))
  }

  lemma ReplyOk(w: Net, step: Step)
    requires Sourced(w) && step.Reply? && Enabled(w, step)
    ensures MessageOk(w, Answering(step.pull.from, step.entries, w.tables[step.at]))
  {
    var t := w.tables[step.at];
    assert TableOk(w, t) && MessageOk(w, step.pull);
    forall e | e in step.entries ensures e in w.announced {
      assert e == t[e.agentId];
    }
  }

  lemma TableStaysOk(w: Net, step: Step, i: nat)
    requires Sourced(w) && Enabled(w, step) && i < |w.tables|
    ensures TableOk(Do(w, step), Do(w, step).tables[i])
  {
    assert TableOk(w, w.tables[i]);
    if step.Absorb? && i == step.at {
      assert MessageOk(w, step.push);
      MergeAllMeans(w.tables[i], step.push.entries);
    }
  }

  lemma StepKeepsSourced(w: Net, step: Step)
    requires Sourced(w) && Enabled(w, step)
    ensures Sourced(Do(w, step))
  {
    var w' := Do(w, step);
    forall i | 0 <= i < |w'.tables| ensures TableOk(w', w'.tables[i]) {
      TableStaysOk(w, step, i);
    }
    forall m | m in w'.wire ensures MessageOk(w', m) {
      if m in w.wire {
        assert MessageOk(w, m);
      } else if step.Reply? {
        ReplyOk(w, step);
      }
    }
  }

  /** No step of a timely run makes any node's stamp for any id fall. */
  lemma StampsNeverFall(w: Net, step: Step, i: nat)
    requires Sourced(w) && Enabled(w, step) && Timely(w, step) && i < |w.tables|
    ensures AtLeastAsFresh(Do(w, step).tables[i], w.tables[i])
  {
    assert TableOk(w, w.tables[i]);
    if step.Absorb? && i == step.at {
      MergeAllMeans(w.tables[i], step.push.entries);
    }
  }

  /** Only an announce stamped before what its node holds does. */
  lemma StampsFallExactlyWhenUntimely(w: Net, step: Step)
    requires Sourced(w) && Enabled(w, step)
    ensures (forall i :: 0 <= i < |w.tables| ==> AtLeastAsFresh(Do(w, step).tables[i], w.tables[i])) <==> Timely(w, step)
  {
    if Timely(w, step) {
      forall i | 0 <= i < |w.tables| ensures AtLeastAsFresh(Do(w, step).tables[i], w.tables[i]) {
        StampsNeverFall(w, step, i);
      }
    } else {
      var id, at := step.entry.agentId, step.at;
      assert !KnowsSince(Do(w, step).tables[at], id, w.tables[at][id].lastSeen);
    }
  }

  lemma AskerStillKnows(w: Net, step: Step, m: Message)
    requires Inv(w) && Enabled(w, step) && Timely(w, step) && m in w.wire
    ensures MessageOk(Do(w, step), m) && AskerKnows(Do(w, step), m)
  {
    var w' := Do(w, step);
    StepKeepsSourced(w, step);
    assert MessageOk(w, m) && AskerKnows(w, m);
    if m.Asking? {
      StampsNeverFall(w, step, m.from);
      forall d | d in m.digests ensures KnowsSince(w'.tables[m.from], d.agentId, d.lastSeen) {
        assert KnowsSince(w.tables[m.from], d.agentId, d.lastSeen);
      }
    } else {
      StampsNeverFall(w, step, m.to);
      forall id | id in m.answered
        ensures m.answered[id] in m.entries || KnowsSince(w'.tables[m.to], id, m.answered[id].lastSeen)
      {
        if m.answered[id] !in m.entries {
          assert KnowsSince(w.tables[m.to], id, m.answered[id].lastSeen);
        }
      }
    }
  }

  lemma ReplyKnown(w: Net, step: Step)
    requires Inv(w) && step.Reply? && Enabled(w, step)
    ensures var m := Answering(step.pull.from, step.entries, w.tables[step.at]);
      MessageOk(w, m) && AskerKnows(w, m)
  {
    var t := w.tables[step.at];
    ReplyOk(w, step);
    assert MessageOk(w, step.pull) && AskerKnows(w, step.pull);
    forall id | id in t
      ensures t[id] in step.entries || KnowsSince(w.tables[step.pull.from], id, t[id].lastSeen)
    {
      if id in Answer(t, Remote(step.pull.digests)) {
        assert Answer(t, Remote(step.pull.digests))[id] in step.entries;
      } else {
        RemoteReadsDigest(step.pull.digests, id);
        assert KnowsSince(w.tables[step.pull.from], id, Remote(step.pull.digests)[id]);
      }
    }
  }

  lemma SomeoneStillKnows(w: Net, step: Step, e: PeerEntry)
    requires Inv(w) && Enabled(w, step) && Timely(w, step) && e in Do(w, step).announced
    ensures SomeoneKnows(Do(w, step), e)
  {
    var w' := Do(w, step);
    if e in w.announced {
      assert SomeoneKnows(w, e);
      var i :| 0 <= i < |w.tables| && KnowsSince(w.tables[i], e.agentId, e.lastSeen);
      StampsNeverFall(w, step, i);
      assert KnowsSince(w'.tables[i], e.agentId, w.tables[i][e.agentId].lastSeen);
    } else {
      assert KnowsSince(w'.tables[step.at], e.agentId, e.lastSeen);
    }
  }

  lemma StepKeepsInv(w: Net, step: Step)
    requires Inv(w) && Enabled(w, step) && Timely(w, step)
    ensures Inv(Do(w, step))
  {
    var w' := Do(w, step);
    StepKeepsSourced(w, step);
    forall m | m in w'.wire ensures AskerKnows(w', m) {
      if m in w.wire {
        AskerStillKnows(w, step, m);
      } else if step.Reply? {
        ReplyKnown(w, step);
      }
    }
    forall e | e in w'.announced ensures SomeoneKnows(w', e) {
      SomeoneStillKnows(w, step, e);
    }
  }

  lemma {:induction false} RunKeepsSourced(w: Net, steps: seq<Step>)
    requires Sourced(w) && Legal(w, steps)
    ensures Sourced(Exec(w, steps)) && |Exec(w, steps).tables| == |w.tables|
    decreases |steps|
  {
    if steps != [] {
      StepKeepsSourced(w, steps[0]);
      RunKeepsSourced(Do(w, steps[0]), steps[1..]);
    }
  }

  lemma {:induction false} RunKeepsInv(w: Net, steps: seq<Step>)
    requires Inv(w) && Legal(w, steps) && TimelyRun(w, steps)
    ensures Inv(Exec(w, steps)) && |Exec(w, steps).tables| == |w.tables|
    ensures forall i :: 0 <= i < |w.tables| ==> AtLeastAsFresh(Exec(w, steps).tables[i], w.tables[i])
    decreases |steps|
  {
    if steps != [] {
      var w' := Do(w, steps[0]);
      StepKeepsInv(w, steps[0]);
      RunKeepsInv(w', steps[1..]);
      forall i | 0 <= i < |w.tables| ensures AtLeastAsFresh(Exec(w, steps).tables[i], w.tables[i]) {
        StampsNeverFall(w, steps[0], i);
        FreshTransitive(Exec(w, steps).tables[i], w'.tables[i], w.tables[i]);
      }
    }
  }

  lemma ReachableSourced(w: Net)
    requires Reachable(w)
    ensures Sourced(w)
  {
    var n: nat, steps :| Legal(Init(n), steps) && Exec(Init(n), steps) == w;
    RunKeepsSourced(Init(n), steps);
  }

  lemma ReachableInv(w: Net)
    requires TimelyReachable(w)
    ensures Inv(w)
  {
    var n: nat, steps :| Legal(Init(n), steps) && TimelyRun(Init(n), steps) && Exec(Init(n), steps) == w;
    RunKeepsInv(Init(n), steps);
  }

  /** In every reachable state, whatever a node holds was really announced, under its own id. */
  lemma HeldWasAnnounced(w: Net, i: nat, id: Id)
    requires Reachable(w) && i < |w.tables| && id in w.tables[i]
    ensures w.tables[i][id] in w.announced && w.tables[i][id].agentId == id
  {
    ReachableSourced(w);
    assert TableOk(w, w.tables[i]);
  }

  /** Along every timely run, no node's stamp for any id ever falls. */
  lemma FreshnessIsMonotone(w: Net, steps: seq<Step>, i: nat)
    requires TimelyReachable(w) && Legal(w, steps) && TimelyRun(w, steps) && i < |w.tables|
    ensures |Exec(w, steps).tables| == |w.tables|
    ensures AtLeastAsFresh(Exec(w, steps).tables[i], w.tables[i])
  {
    ReachableInv(w);
    RunKeepsInv(w, steps);
  }

  /** Merging a push brings the puller up to where the answerer was. */
  lemma AbsorbCatchesUp(w: Net, push: Message)
    requires Inv(w) && push.Answering? && Enabled(w, Absorb(push.to, push))
    ensures AtLeastAsFresh(Do(w, Absorb(push.to, push)).tables[push.to], push.answered)
  {
    assert MessageOk(w, push) && AskerKnows(w, push) && TableOk(w, w.tables[push.to]);
    MergeAllMeans(w.tables[push.to], push.entries);
    var t' := Do(w, Absorb(push.to, push)).tables[push.to];
    forall id | id in push.answered ensures KnowsSince(t', id, push.answered[id].lastSeen) {
      if push.answered[id] in push.entries {
        assert KnowsSince(t', push.answered[id].agentId, push.answered[id].lastSeen);
      } else {
        assert KnowsSince(w.tables[push.to], id, push.answered[id].lastSeen);
        assert KnowsSince(t', id, w.tables[push.to][id].lastSeen);
      }
    }
  }

  /**
   Once a push is merged, and ever after, the puller is at least as fresh on every id as the
   answerer was when it answered, however old the digest it answered to.
   */
  lemma MergedPushCatchesUp(w: Net, push: Message, steps: seq<Step>)
    requires TimelyReachable(w) && push.Answering? && Enabled(w, Absorb(push.to, push))
    requires Legal(Do(w, Absorb(push.to, push)), steps) && TimelyRun(Do(w, Absorb(push.to, push)), steps)
    ensures push.to < |Exec(Do(w, Absorb(push.to, push)), steps).tables|
    ensures AtLeastAsFresh(Exec(Do(w, Absorb(push.to, push)), steps).tables[push.to], push.answered)
  {
    ReachableInv(w);
    var step := Absorb(push.to, push);
    AbsorbCatchesUp(w, push);
    StepKeepsInv(w, step);
    RunKeepsInv(Do(w, step), steps);
    FreshTransitive(Exec(Do(w, step), steps).tables[push.to], Do(w, step).tables[push.to], push.answered);
  }

  // ---------------------------------------------------------------------------
  // Work bound
  // ---------------------------------------------------------------------------

  /** The announced entries that would be news to a table. */
  ghost function News(announced: set<PeerEntry>, t: Table): set<PeerEntry> {
    set a | a in announced && !KnowsSince(t, a.agentId, a.lastSeen)
  }

  ghost function TotalNews(announced: set<PeerEntry>, tables: seq<Table>): nat {
    if tables == [] then 0 else |News(announced, tables[0])| + TotalNews(announced, tables[1..])
  }

  lemma SubsetIsSmaller<T>(a: set<T>, b: set<T>)
    requires a <= b
    ensures |a| <= |b|
  {
    assert b == a + (b - a);
  }

  /** Every entry a merge accepts was news and no longer is. */
  lemma {:induction false} MergeSpendsNews(announced: set<PeerEntry>, t: Table, s: seq<PeerEntry>)
    requires forall e :: e in s ==> e in announced
    ensures News(announced, MergeAll(t, s)) <= News(announced, t)
    ensures |News(announced, MergeAll(t, s))| + Accepted(t, s) <= |News(announced, t)|
  {
    if s != [] {
      var before, last := s[..|s| - 1], s[|s| - 1];
      MergeSpendsNews(announced, t, before);
      var t1, t2 := MergeAll(t, before), MergeAll(t, s);
      assert last in s;
      if Accepts(t1, last) {
        assert last in News(announced, t1) && last !in News(announced, t2);
        assert News(announced, t2) <= News(announced, t1) - {last};
        SubsetIsSmaller(News(announced, t2), News(announced, t1) - {last});
      }
    }
  }

  lemma {:induction false} TotalNewsChange(announced: set<PeerEntry>, tables: seq<Table>, i: nat, t: Table, spent: nat)
    requires i < |tables|
    requires |News(announced, t)| + spent <= |News(announced, tables[i])|
    ensures TotalNews(announced, tables[i := t]) + spent <= TotalNews(announced, tables)
  {
    if i == 0 {
      assert tables[0 := t][1..] == tables[1..];
    } else {
      assert tables[i := t][1..] == tables[1..][i - 1 := t];
      TotalNewsChange(announced, tables[1..], i - 1, t, spent);
    }
  }

  lemma {:induction false} TotalNewsBound(announced: set<PeerEntry>, tables: seq<Table>)
    ensures TotalNews(announced, tables) <= |tables| * |announced|
  {
    if tables != [] {
      TotalNewsBound(announced, tables[1..]);
      SubsetIsSmaller(News(announced, tables[0]), announced);
      assert |tables| * |announced| == |announced| + |tables[1..]| * |announced|;
    }
  }

  ghost predicate NoAnnounce(steps: seq<Step>) {
    forall i :: 0 <= i < |steps| ==> !steps[i].Announce?
  }

  /** How many entries were accepted into any table along a run. */
  ghost function Work(w: Net, steps: seq<Step>): nat
    requires Legal(w, steps)
    decreases |steps|
  {
    if steps == [] then 0 else
      (if steps[0].Absorb? then Accepted(w.tables[steps[0].at], steps[0].push.entries) else 0)
      + Work(Do(w, steps[0]), steps[1..])
  }

  lemma {:induction false} WorkSpendsNews(w: Net, steps: seq<Step>)
    requires Sourced(w) && Legal(w, steps) && NoAnnounce(steps)
    ensures Exec(w, steps).announced == w.announced
    ensures Work(w, steps) + TotalNews(w.announced, Exec(w, steps).tables) <= TotalNews(w.announced, w.tables)
    decreases |steps|
  {
    if steps != [] {
      var step := steps[0];
      StepKeepsSourced(w, step);
      WorkSpendsNews(Do(w, step), steps[1..]);
      if step.Absorb? {
        assert MessageOk(w, step.push);
        MergeSpendsNews(w.announced, w.tables[step.at], step.push.entries);
        TotalNewsChange(w.announced, w.tables, step.at,
          MergeAll(w.tables[step.at], step.push.entries), Accepted(w.tables[step.at], step.push.entries));
      }
    }
  }

  /**
   With announces stopped, the entries accepted over any continuation, however long and however
   often messages are repeated, are at most nodes times announces made.
   */
  lemma WorkIsBounded(w: Net, steps: seq<Step>)
    requires Reachable(w) && Legal(w, steps) && NoAnnounce(steps)
    ensures Work(w, steps) <= |w.tables| * |w.announced|
  {
    ReachableSourced(w);
    WorkSpendsNews(w, steps);
    TotalNewsBound(w.announced, w.tables);
  }

  lemma {:induction false} NoAnnounceIsTimely(w: Net, steps: seq<Step>)
    requires Legal(w, steps) && NoAnnounce(steps)
    ensures TimelyRun(w, steps)
    decreases |steps|
  {
    if steps != [] {
      NoAnnounceIsTimely(Do(w, steps[0]), steps[1..]);
    }
  }
}
