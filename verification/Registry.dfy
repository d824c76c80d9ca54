/**
 The newest-wins table of peers that gossip spreads (`p2p/src/discovery.rs`).
 */
module Registry {
  import opened Times

  type Id = string

  datatype PeerStatus = Available | Busy | Away

  datatype PeerEntry = PeerEntry(
    agentId: Id, meshId: string, displayName: string, status: PeerStatus, capabilities: seq<string>, lastSeen: Time)

  datatype AnnounceMessage = AnnounceMessage(
    agentId: Id, meshId: string, displayName: string, status: PeerStatus, capabilities: seq<string>)

  datatype Digest = Digest(agentId: Id, lastSeen: Time)

  datatype Pull = Pull(from: string, digests: seq<Digest>)

  datatype Push = Push(entries: seq<PeerEntry>)

  type Table = map<Id, PeerEntry>

  ghost predicate Keyed(t: Table) {
    forall id :: id in t ==> t[id].agentId == id
  }

  /** Table `t` knows `id` at least as recently as `time`. */
  predicate KnowsSince(t: Table, id: Id, time: Time) {
    id in t && t[id].lastSeen >= time
  }

  /** Table `t` is at least as fresh as `u` on every id. */
  ghost predicate AtLeastAsFresh(t: Table, u: Table) {
    forall id :: id in u ==> KnowsSince(t, id, u[id].lastSeen)
  }

  lemma FreshTransitive(t: Table, u: Table, v: Table)
    requires AtLeastAsFresh(t, u) && AtLeastAsFresh(u, v)
    ensures AtLeastAsFresh(t, v)
  {
    forall id | id in v ensures KnowsSince(t, id, v[id].lastSeen) {
      assert KnowsSince(u, id, v[id].lastSeen);
      assert KnowsSince(t, id, u[id].lastSeen);
    }
  }

  // ---------------------------------------------------------------------------
  // Merging a push
  // ---------------------------------------------------------------------------

  predicate Accepts(t: Table, e: PeerEntry) {
    e.agentId in t ==> e.lastSeen > t[e.agentId].lastSeen
  }

  function Merge(t: Table, e: PeerEntry): Table {
    if Accepts(t, e) then t[e.agentId := e] else t
  }

  function MergeAll(t: Table, s: seq<PeerEntry>): Table {
    if s == [] then t else Merge(MergeAll(t, s[..|s| - 1]), s[|s| - 1])
  }

  /** How many entries of a push are accepted. */
  function Accepted(t: Table, s: seq<PeerEntry>): nat {
    if s == [] then 0
    else Accepted(t, s[..|s| - 1]) + if Accepts(MergeAll(t, s[..|s| - 1]), s[|s| - 1]) then 1 else 0
  }

  /** Merging never loses ground, covers every entry received, and invents nothing. */
  lemma {:induction false} MergeAllMeans(t: Table, s: seq<PeerEntry>)
    requires Keyed(t)
    ensures Keyed(MergeAll(t, s))
    ensures AtLeastAsFresh(MergeAll(t, s), t)
    ensures forall e :: e in s ==> KnowsSince(MergeAll(t, s), e.agentId, e.lastSeen)
    ensures forall id :: id in MergeAll(t, s) ==> MergeAll(t, s)[id] in s || (id in t && MergeAll(t, s)[id] == t[id])
    ensures forall id :: id in t && MergeAll(t, s)[id].lastSeen == t[id].lastSeen ==> MergeAll(t, s)[id] == t[id]
  {
    if s != [] {
      var before, last := s[..|s| - 1], s[|s| - 1];
      MergeAllMeans(t, before);
      assert forall e :: e in s <==> e in before || e == last;
      var t1, t2 := MergeAll(t, before), MergeAll(t, s);
      forall id | id in t ensures KnowsSince(t2, id, t[id].lastSeen) {
        assert KnowsSince(t1, id, t[id].lastSeen);
      }
      forall e | e in s ensures KnowsSince(t2, e.agentId, e.lastSeen) {
        if e in before {
          assert KnowsSince(t1, e.agentId, e.lastSeen);
        }
      }
      forall id | id in t && t2[id].lastSeen == t[id].lastSeen ensures t2[id] == t[id] {
        assert KnowsSince(t1, id, t[id].lastSeen);
      }
    }
  }

  // ---------------------------------------------------------------------------
  // Answering a pull
  // ---------------------------------------------------------------------------

  /** Digests as `handle_gossip_pull` collects them: a later duplicate replaces an earlier one. */
  function Remote(digests: seq<Digest>): map<Id, Time> {
    if digests == [] then map[]
    else Remote(digests[..|digests| - 1])[digests[|digests| - 1].agentId := digests[|digests| - 1].lastSeen]
  }

  /** The entries the requester is missing or holds stale. */
  function Answer(t: Table, known: map<Id, Time>): Table {
    map id | id in t && (id in known ==> t[id].lastSeen > known[id]) :: t[id]
  }

  ghost function Stamps(t: Table): map<Id, Time> {
    map id | id in t :: t[id].lastSeen
  }

  /** `s` lists the entries of `m` once each, in some order. */
  ghost predicate Lists(s: seq<PeerEntry>, m: Table) {
    && (forall i :: 0 <= i < |s| ==> s[i].agentId in m && m[s[i].agentId] == s[i])
    && (forall id :: id in m ==> m[id] in s)
    && (forall i, j :: 0 <= i < j < |s| ==> s[i].agentId != s[j].agentId)
  }

  /** `d` is a digest of `t`: its stamps, once each, in some order. */
  ghost predicate DigestOf(d: seq<Digest>, t: Table) {
    && (forall i :: 0 <= i < |d| ==> d[i].agentId in t && d[i].lastSeen == t[d[i].agentId].lastSeen)
    && (forall id :: id in t ==> Digest(id, t[id].lastSeen) in d)
    && (forall i, j :: 0 <= i < j < |d| ==> d[i].agentId != d[j].agentId)
  }

  /** The requester's digest reads back as its stamps, whatever the order it was listed in. */
  lemma {:induction false} RemoteReadsDigest(d: seq<Digest>, id: Id)
    ensures id in Remote(d) ==> Digest(id, Remote(d)[id]) in d
    ensures forall i :: 0 <= i < |d| && d[i].agentId == id ==> id in Remote(d)
  {
    if d != [] {
      RemoteReadsDigest(d[..|d| - 1], id);
    }
  }

  lemma RemoteIsStamps(d: seq<Digest>, t: Table)
    requires DigestOf(d, t)
    ensures Remote(d) == Stamps(t)
  {
    forall id
      ensures id in Remote(d) <==> id in Stamps(t)
      ensures id in Remote(d) ==> Remote(d)[id] == Stamps(t)[id]
    {
      RemoteReadsDigest(d, id);
      if id in t {
        assert Digest(id, t[id].lastSeen) in d;
      }
    }
  }

  /** A pull is answered with an empty push exactly when the requester already dominates the answerer. */
  lemma QuietExactlyWhenDominated(t: Table, u: Table)
    ensures Answer(t, Stamps(u)) == map[] <==> AtLeastAsFresh(u, t)
  {
    forall id | id in t ensures id in Answer(t, Stamps(u)) <==> !KnowsSince(u, id, t[id].lastSeen) {
    }
    if AtLeastAsFresh(u, t) {
      assert Answer(t, Stamps(u)).Keys == {};
    }
  }

  /**
   A pull answered against any earlier digest brings the requester at least as far as the
   answerer was, since what the answer omits the requester already had.
   */
  lemma AnswerCatchesUp(t: Table, asked: Table, now: Table, s: seq<PeerEntry>)
    requires Keyed(t) && Keyed(now) && AtLeastAsFresh(now, asked)
    requires Lists(s, Answer(t, Stamps(asked)))
    ensures AtLeastAsFresh(MergeAll(now, s), t)
  {
    MergeAllMeans(now, s);
    forall id | id in t ensures KnowsSince(MergeAll(now, s), id, t[id].lastSeen) {
      if id in Answer(t, Stamps(asked)) {
        assert t[id] in s;
      } else {
        assert KnowsSince(now, id, asked[id].lastSeen);
        assert KnowsSince(MergeAll(now, s), id, now[id].lastSeen);
      }
    }
  }

  // ---------------------------------------------------------------------------
  // The registry
  // ---------------------------------------------------------------------------

  class MeshRegistry {
    const meshId: string
    var peers: Table

    ghost predicate Valid()
      reads this
    {
      Keyed(peers)
    }

    constructor (mesh: string)
      ensures Valid() && meshId == mesh && peers == map[]
    {
      meshId := mesh;
      peers := map[];
    }

    /** Registers or overwrites, whatever was held; the stamp held never falls exactly when `now` is not below it. */
    method HandleAnnounce(msg: AnnounceMessage, now: Time) returns (entry: PeerEntry)
      requires Valid()
      modifies this
      ensures Valid()
      ensures entry == PeerEntry(msg.agentId, msg.meshId, msg.displayName, msg.status, msg.capabilities, now)
      ensures peers == old(peers)[msg.agentId := entry]
      ensures AtLeastAsFresh(peers, old(peers)) <==> (msg.agentId in old(peers) ==> old(peers)[msg.agentId].lastSeen <= now)
    {
      entry := PeerEntry(msg.agentId, msg.meshId, msg.displayName, msg.status, msg.capabilities, now);
      peers := peers[msg.agentId := entry];
      assert msg.agentId in old(peers) ==> (KnowsSince(peers, msg.agentId, old(peers)[msg.agentId].lastSeen) <==> old(peers)[msg.agentId].lastSeen <= now);
    }

    method BuildDigest() returns (digests: seq<Digest>)
      requires Valid()
      ensures DigestOf(digests, peers)
    {
      digests := [];
      var rest := peers.Keys;
      while rest != {}
        invariant rest <= peers.Keys
        invariant DigestOf(digests, peers - rest)
        decreases rest
      {
        var id :| id in rest;
        ghost var before, undone := digests, rest;
        digests := digests + [Digest(peers[id].agentId, peers[id].lastSeen)];
        rest := rest - {id};
        forall other | other in peers - rest ensures Digest(other, peers[other].lastSeen) in digests {
          if other != id {
            assert other in peers - undone;
            assert Digest(other, peers[other].lastSeen) in before;
          }
        }
      }
      assert peers - {} == peers;
    }

    /** Answers with the entries the digest lacks or holds stale, in the table's iteration order. */
    method HandleGossipPull(pull: Pull) returns (push: Push)
      requires Valid()
      ensures Lists(push.entries, Answer(peers, Remote(pull.digests)))
    {
      var remote: map<Id, Time> := map[];
      for i := 0 to |pull.digests|
        invariant remote == Remote(pull.digests[..i])
      {
        assert pull.digests[..i + 1][..i] == pull.digests[..i];
        remote := remote[pull.digests[i].agentId := pull.digests[i].lastSeen];
      }
      assert pull.digests[..|pull.digests|] == pull.digests;
      var entries: seq<PeerEntry> := [];
      var rest := peers.Keys;
      while rest != {}
        invariant rest <= peers.Keys
        invariant Lists(entries, Answer(peers - rest, remote))
        decreases rest
      {
        var id :| id in rest;
        AnswerGrows(peers, rest, id, remote);
        if id !in remote || peers[id].lastSeen > remote[id] {
          ListsExtended(entries, Answer(peers - rest, remote), id, peers[id]);
          entries := entries + [peers[id]];
        }
        rest := rest - {id};
      }
      assert peers - {} == peers;
      push := Push(entries);
    }

    method MergeGossipPush(push: Push)
      requires Valid()
      modifies this
      ensures Valid()
      ensures peers == MergeAll(old(peers), push.entries)
    {
      for i := 0 to |push.entries|
        invariant peers == MergeAll(old(peers), push.entries[..i])
      {
        var entry := push.entries[i];
        assert push.entries[..i + 1][..i] == push.entries[..i];
        var dominated := entry.agentId !in peers || entry.lastSeen > peers[entry.agentId].lastSeen;
        if dominated {
          peers := peers[entry.agentId := entry];
        }
      }
      assert push.entries[..|push.entries|] == push.entries;
      MergeAllMeans(old(peers), push.entries);
    }
  }

  lemma AnswerGrows(t: Table, rest: set<Id>, id: Id, known: map<Id, Time>)
    requires rest <= t.Keys && id in rest
    ensures id !in Answer(t - rest, known)
    ensures Answer(t - (rest - {id}), known) ==
      if id in known ==> t[id].lastSeen > known[id] then Answer(t - rest, known)[id := t[id]] else Answer(t - rest, known)
  {
  }

  lemma ListsExtended(s: seq<PeerEntry>, m: Table, id: Id, e: PeerEntry)
    requires Lists(s, m) && id !in m && e.agentId == id
    ensures Lists(s + [e], m[id := e])
  {
    var t := s + [e];
    forall x | x in m ensures m[x] in t {
      assert m[x] in s;
    }
    assert t[|s|] == e;
  }
}
