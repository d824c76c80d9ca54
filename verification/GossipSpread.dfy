/**
 Any number of gossiping nodes and any announce-free schedule of asking, answering and merging,
 with messages from before still arriving (`p2p/src/gossip.rs`, `p2p/src/discovery.rs`).
 */
module GossipSpread {
  import opened Registry
  import opened Gossip
  import opened GossipSweep
  import opened Hearing

  /**
   Which nodes each node has heard from, directly or through others, and which its answerer had
   when it gave each answer.
   */
  datatype Book = Book(heard: seq<set<nat>>, mail: map<Message, set<nat>>)

  function Told(b: Book, m: Message): set<nat> {
    if m in b.mail then b.mail[m] else {}
  }

  /** At first each node has heard from itself, and of answers on their way nothing is known. */
  function Opening(n: nat): Book {
    Book(Selves(n), map[])
  }

  /** Answering passes on what the answerer has heard from, merging the answer takes it over. */
  ghost function Noted(w: Net, b: Book, step: Step): Book
    requires Enabled(w, step) && |b.heard| == |w.tables|
    ensures |Noted(w, b, step).heard| == |b.heard|
  {
    match step
    case Announce(_, _) => b
    case Ask(_, _, _) => b
    case Reply(at, pull, entries) =>
      var m := Answering(pull.from, entries, w.tables[at]);
      b.(mail := b.mail[m := Told(b, m) + b.heard[at]])
    case Absorb(at, push) => b.(heard := b.heard[at := b.heard[at] + Told(b, push)])
  }

  ghost function Heard(w: Net, b: Book, steps: seq<Step>): (hs: seq<set<nat>>)
    requires Legal(w, steps) && |b.heard| == |w.tables|
    ensures |hs| == |b.heard|
    decreases |steps|
  {
    if steps == [] then b.heard else Heard(Do(w, steps[0]), Noted(w, b, steps[0]), steps[1..])
  }

  /** `t` is at least as fresh as each of the `heard` tables was. */
  ghost predicate FreshAs(start: seq<Table>, t: Table, heard: set<nat>) {
    forall j :: j in heard ==> j < |start| && AtLeastAsFresh(t, start[j])
  }

  ghost predicate BookOk(start: seq<Table>, w: Net, b: Book) {
    && |b.heard| == |w.tables| == |start|
    && (forall i :: 0 <= i < |w.tables| ==> FreshAs(start, w.tables[i], b.heard[i]))
    && (forall m :: m in b.mail ==> m.Answering? && FreshAs(start, m.answered, b.mail[m]))
  }

  lemma FreshAsTransitive(start: seq<Table>, t: Table, u: Table, heard: set<nat>)
    requires AtLeastAsFresh(t, u) && FreshAs(start, u, heard)
    ensures FreshAs(start, t, heard)
  {
    forall j | j in heard ensures AtLeastAsFresh(t, start[j]) {
      FreshTransitive(t, u, start[j]);
    }
  }

  lemma NodeStaysOk(start: seq<Table>, w: Net, b: Book, step: Step, i: nat)
    requires Inv(w) && Enabled(w, step) && Timely(w, step) && BookOk(start, w, b) && i < |w.tables|
    ensures FreshAs(start, Do(w, step).tables[i], Noted(w, b, step).heard[i])
  {
    var t' := Do(w, step).tables[i];
    StampsNeverFall(w, step, i);
    hide Inv, AtLeastAsFresh;
    FreshAsTransitive(start, t', w.tables[i], b.heard[i]);
    if step.Absorb? && i == step.at {
      AbsorbCatchesUp(w, step.push);
      if step.push in b.mail {
        FreshAsTransitive(start, t', step.push.answered, b.mail[step.push]);
      }
    }
  }

  lemma MailStaysOk(start: seq<Table>, w: Net, b: Book, step: Step, m: Message)
    requires Enabled(w, step) && BookOk(start, w, b) && m in Noted(w, b, step).mail
    ensures m.Answering? && FreshAs(start, m.answered, Noted(w, b, step).mail[m])
  {
    hide AtLeastAsFresh;
    if step.Reply? && m !in b.mail {
      assert FreshAs(start, w.tables[step.at], b.heard[step.at]);
    }
  }

  lemma BookStaysOk(start: seq<Table>, w: Net, b: Book, step: Step)
    requires Inv(w) && Enabled(w, step) && Timely(w, step) && BookOk(start, w, b)
    ensures BookOk(start, Do(w, step), Noted(w, b, step))
  {
    forall i | 0 <= i < |w.tables| ensures FreshAs(start, Do(w, step).tables[i], Noted(w, b, step).heard[i]) {
      NodeStaysOk(start, w, b, step, i);
    }
    forall m | m in Noted(w, b, step).mail ensures m.Answering? && FreshAs(start, m.answered, Noted(w, b, step).mail[m]) {
      MailStaysOk(start, w, b, step, m);
    }
    hide Inv, FreshAs;
  }

  lemma {:induction false} RunSpreads(start: seq<Table>, w: Net, b: Book, steps: seq<Step>)
    requires Inv(w) && Legal(w, steps) && TimelyRun(w, steps) && BookOk(start, w, b)
    ensures |b.heard| == |Exec(w, steps).tables| == |start|
    ensures forall i :: 0 <= i < |start| ==> FreshAs(start, Exec(w, steps).tables[i], Heard(w, b, steps)[i])
    decreases |steps|
  {
    if steps != [] {
      BookStaysOk(start, w, b, steps[0]);
      StepKeepsInv(w, steps[0]);
      hide Inv, BookOk, FreshAs;
      RunSpreads(start, Do(w, steps[0]), Noted(w, b, steps[0]), steps[1..]);
    }
  }

  lemma OpeningOk(w: Net)
    ensures BookOk(w.tables, w, Opening(|w.tables|))
  {
    forall i | 0 <= i < |w.tables| ensures FreshAs(w.tables, w.tables[i], Opening(|w.tables|).heard[i]) {
    }
  }

  /**
   A table of announced entries only, as fresh as every node, holds for each id the newest entry
   any node holds.
   */
  lemma FreshestIsJoin(w: Net, w': Net, t: Table)
    requires Inv(w) && TableOk(w', t) && w'.announced == w.announced && DistinctStamps(w.announced)
    requires forall k :: 0 <= k < |w.tables| ==> AtLeastAsFresh(t, w.tables[k])
    ensures JoinOfAll(t, w.tables)
  {
    forall id ensures id in t <==> exists k :: 0 <= k < |w.tables| && id in w.tables[k] {
      if id in t {
        var k := HeldSomewhere(w, w', t, id);
      }
      if k :| 0 <= k < |w.tables| && id in w.tables[k] {
        assert KnowsSince(t, id, w.tables[k][id].lastSeen);
      }
    }
    forall id | id in t ensures exists k :: Newest(w.tables, id, k, t[id]) {
      var k := HeldSomewhere(w, w', t, id);
    }
  }

  lemma HeldSomewhere(w: Net, w': Net, t: Table, id: Id) returns (k: nat)
    requires Inv(w) && TableOk(w', t) && w'.announced == w.announced && DistinctStamps(w.announced)
    requires forall k :: 0 <= k < |w.tables| ==> AtLeastAsFresh(t, w.tables[k])
    requires id in t
    ensures Newest(w.tables, id, k, t[id])
  {
    assert SomeoneKnows(w, t[id]);
    k :| 0 <= k < |w.tables| && KnowsSince(w.tables[k], id, t[id].lastSeen);
    assert TableOk(w, w.tables[k]);
    forall j | 0 <= j < |w.tables| && id in w.tables[j] ensures w.tables[j][id].lastSeen <= t[id].lastSeen {
      assert KnowsSince(t, id, w.tables[j][id].lastSeen);
    }
  }

  lemma JoinOfAllIsUnique(t: Table, u: Table, ts: seq<Table>)
    requires JoinOfAll(t, ts) && JoinOfAll(u, ts) && NewestAgree(ts)
    ensures t == u
  {
    forall id ensures id in t <==> id in u {
    }
    forall id | id in t ensures t[id] == u[id] {
      var i :| Newest(ts, id, i, t[id]);
      var j :| Newest(ts, id, j, u[id]);
    }
  }

  lemma SpreadToAll(w: Net, steps: seq<Step>, i: nat)
    requires TimelyReachable(w) && Legal(w, steps) && NoAnnounce(steps) && DistinctStamps(w.announced)
    requires i < |w.tables|
    requires FromAll(Heard(w, Opening(|w.tables|), steps)[i], |w.tables|)
    ensures |Exec(w, steps).tables| == |w.tables|
    ensures JoinOfAll(Exec(w, steps).tables[i], w.tables)
  {
    ReachableInv(w);
    NoAnnounceIsTimely(w, steps);
    OpeningOk(w);
    RunSpreads(w.tables, w, Opening(|w.tables|), steps);
    RunKeepsSourced(w, steps);
    WorkSpendsNews(w, steps);
    assert TableOk(Exec(w, steps), Exec(w, steps).tables[i]);
    FreshestIsJoin(w, Exec(w, steps), Exec(w, steps).tables[i]);
  }

  /**
   From any state a timely run reaches, after any announce-free schedule through which nodes `i` and
   `j` have both heard from every node, with stale, repeated and reordered messages among the rest,
   both hold the newest-wins join of all the tables at its start.
   */
  lemma AnyScheduleConverges(w: Net, steps: seq<Step>, i: nat, j: nat)
    requires TimelyReachable(w) && Legal(w, steps) && NoAnnounce(steps) && DistinctStamps(w.announced)
    requires i < |w.tables| && j < |w.tables|
    requires FromAll(Heard(w, Opening(|w.tables|), steps)[i], |w.tables|)
    requires FromAll(Heard(w, Opening(|w.tables|), steps)[j], |w.tables|)
    ensures |Exec(w, steps).tables| == |w.tables|
    ensures Exec(w, steps).tables[i] == Exec(w, steps).tables[j]
    ensures JoinOfAll(Exec(w, steps).tables[i], w.tables)
  {
    SpreadToAll(w, steps, i);
    SpreadToAll(w, steps, j);
    TimelyIsReachable(w);
    DistinctStampsAgree(w);
    hide JoinOfAll, NewestAgree;
    JoinOfAllIsUnique(Exec(w, steps).tables[i], Exec(w, steps).tables[j], w.tables);
  }

  lemma TimelyIsReachable(w: Net)
    requires TimelyReachable(w)
    ensures Reachable(w)
  {
  }

  /** A completed pull can always be made, and through it the asker hears from all that the answerer had heard from. */
  lemma PullHears(w: Net, b: Book, p: nat, q: nat, round: Round)
    requires |b.heard| == |w.tables| && LegalPull(w, p, q, round)
    ensures Legal(w, PullSteps(w, p, q, round)) && NoAnnounce(PullSteps(w, p, q, round))
    ensures b.heard[p] + b.heard[q] <= Heard(w, b, PullSteps(w, p, q, round))[p]
  {
    PullIsLegal(w, p, q, round);
    var s := PullSteps(w, p, q, round);
    assert s[1..][0] == s[1] && s[1..][1..] == [s[2]] && [s[2]][1..] == [];
    var w1, b1 := Do(w, s[0]), Noted(w, b, s[0]);
    var w2, b2 := Do(w1, s[1]), Noted(w1, b1, s[1]);
    var w3, b3 := Do(w2, s[2]), Noted(w2, b2, s[2]);
    assert Heard(w3, b3, []) == b3.heard;
    assert Heard(w2, b2, [s[2]]) == Heard(w3, b3, [s[2]][1..]);
    assert Heard(w1, b1, s[1..]) == Heard(w2, b2, s[1..][1..]);
  }
}
