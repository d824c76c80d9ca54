/**
 One node's gossip connections (`p2p/src/gossip.rs`): the table of connected peers, each with a
 channel that either takes messages or has been closed by its receiver.
 */
module Router {
  import opened Registry
  import opened Gossip

  type NodeId = string

  datatype GossipMessage = PullMessage(pull: Pull) | PushMessage(push: Push)

  /** The sending half of a channel: everything sent so far, and whether the receiver still listens. */
  datatype Link = Link(open: bool, sent: seq<GossipMessage>)

  datatype GossipError = PeerNotConnected(node: NodeId) | SendFailed(node: NodeId)

  datatype Outcome = Done | Failed(error: GossipError)

  /** What sending on the link to `to` amounts to. */
  function SendOutcome(peers: map<NodeId, Link>, to: NodeId): Outcome {
    if to !in peers then Failed(PeerNotConnected(to))
    else if !peers[to].open then Failed(SendFailed(to))
    else Done
  }

  function Sent(peers: map<NodeId, Link>, to: NodeId, msg: GossipMessage): map<NodeId, Link> {
    if SendOutcome(peers, to).Done? then peers[to := Link(true, peers[to].sent + [msg])] else peers
  }

  ghost predicate Reported(results: seq<(NodeId, Outcome)>, id: NodeId) {
    exists i :: 0 <= i < |results| && results[i].0 == id
  }

  lemma ReportedOneMore(results: seq<(NodeId, Outcome)>, last: (NodeId, Outcome), id: NodeId)
    requires Reported(results, id) || last.0 == id
    ensures Reported(results + [last], id)
  {
    var all := results + [last];
    if Reported(results, id) {
      var i :| 0 <= i < |results| && results[i].0 == id;
      assert all[i].0 == id;
    } else {
      assert all[|results|].0 == id;
    }
  }

  /** `after` is `before` with one pull from `node` sent, carrying a digest of `table`. */
  ghost predicate GotPull(before: Link, after: Link, node: NodeId, table: Table) {
    exists d :: DigestOf(d, table) && after == Link(true, before.sent + [PullMessage(Pull(node, d))])
  }

  /** The peers in `reached` have each been sent one pull, or nothing if closed, and reported once; the others are untouched. */
  ghost predicate PulledFrom(
      before: map<NodeId, Link>, now: map<NodeId, Link>, reached: set<NodeId>, results: seq<(NodeId, Outcome)>,
      node: NodeId, table: Table)
  {
    && reached <= before.Keys == now.Keys
    && (forall id :: id in before && (id !in reached || !before[id].open) ==> now[id] == before[id])
    && (forall id :: id in reached && before[id].open ==> GotPull(before[id], now[id], node, table))
    && (forall i :: 0 <= i < |results| ==>
          results[i].0 in reached && results[i].1 == SendOutcome(before, results[i].0))
    && (forall id :: id in reached ==> Reported(results, id))
    && (forall i, j :: 0 <= i < j < |results| ==> results[i].0 != results[j].0)
  }

  lemma OneMorePulled(
      before: map<NodeId, Link>, now: map<NodeId, Link>, reached: set<NodeId>, results: seq<(NodeId, Outcome)>,
      node: NodeId, table: Table, id: NodeId, digests: seq<Digest>)
    requires PulledFrom(before, now, reached, results, node, table)
    requires id in before.Keys - reached && DigestOf(digests, table)
    ensures PulledFrom(before, Sent(now, id, PullMessage(Pull(node, digests))), reached + {id},
                       results + [(id, SendOutcome(now, id))], node, table)
  {
    var last, after := (id, SendOutcome(now, id)), Sent(now, id, PullMessage(Pull(node, digests)));
    assert now[id] == before[id];
    hide DigestOf, Reported;
    forall other | other in reached + {id} ensures Reported(results + [last], other) {
      ReportedOneMore(results, last, other);
    }
    forall other | other in reached + {id} && before[other].open
      ensures GotPull(before[other], after[other], node, table)
    {
      if other != id {
        assert GotPull(before[other], now[other], node, table);
      }
    }
  }

  class GossipRouter {
    const nodeId: NodeId
    const registry: MeshRegistry
    var peers: map<NodeId, Link>

    ghost predicate Valid()
      reads registry
    {
      registry.Valid()
    }

    constructor (node: NodeId, registry: MeshRegistry)
      requires registry.Valid()
      ensures Valid() && nodeId == node && this.registry == registry && peers == map[]
    {
      nodeId := node;
      this.registry := registry;
      peers := map[];
    }

    method AddPeer(node: NodeId)
      modifies this
      ensures peers == old(peers)[node := Link(true, [])]
    {
      peers := peers[node := Link(true, [])];
    }

    method RemovePeer(node: NodeId) returns (removed: bool)
      modifies this
      ensures removed <==> node in old(peers)
      ensures peers == old(peers) - {node}
    {
      removed := node in peers;
      peers := peers - {node};
    }

    /** Sends our digest to one peer; a failure sends nothing. */
    method InitiatePull(to: NodeId) returns (r: Outcome, ghost digests: seq<Digest>)
      requires Valid()
      modifies this
      ensures r == SendOutcome(old(peers), to)
      ensures DigestOf(digests, registry.peers)
      ensures peers == Sent(old(peers), to, PullMessage(Pull(nodeId, digests)))
      ensures r ==
        if to !in old(peers) then Failed(PeerNotConnected(to)) else if !old(peers)[to].open then Failed(SendFailed(to)) else Done
      ensures r.Done? ==>
        peers == old(peers)[to := Link(true, old(peers)[to].sent + [PullMessage(Pull(nodeId, digests))])]
      ensures !r.Done? ==> peers == old(peers)
    {
      var digest := registry.BuildDigest();
      digests := digest;
      if to !in peers {
        return Failed(PeerNotConnected(to)), digests;
      }
      if !peers[to].open {
        return Failed(SendFailed(to)), digests;
      }
      peers := peers[to := Link(true, peers[to].sent + [PullMessage(Pull(nodeId, digest))])];
      r := Done;
    }

    /** One pull to every connected peer, each reported once. */
    method InitiatePullAll() returns (results: seq<(NodeId, Outcome)>)
      requires Valid()
      modifies this
      ensures peers.Keys == old(peers).Keys
      ensures forall id :: id in peers && !old(peers)[id].open ==> peers[id] == old(peers)[id]
      ensures forall id :: id in peers && old(peers)[id].open ==>
        GotPull(old(peers)[id], peers[id], nodeId, registry.peers)
      ensures forall i :: 0 <= i < |results| ==>
        results[i].0 in peers && results[i].1 == SendOutcome(old(peers), results[i].0)
      ensures forall id :: id in peers ==> Reported(results, id)
      ensures forall i, j :: 0 <= i < j < |results| ==> results[i].0 != results[j].0
    {
      results := [];
      var rest := peers.Keys;
      ghost var before := peers;
      while rest != {}
        invariant rest <= before.Keys == peers.Keys
        invariant PulledFrom(before, peers, before.Keys - rest, results, nodeId, registry.peers)
        decreases rest
      {
        var id :| id in rest;
        ghost var now, reached := peers, before.Keys - rest;
        var r, digests := InitiatePull(id);
        OneMorePulled(before, now, reached, results, nodeId, registry.peers, id, digests);
        results := results + [(id, r)];
        rest := rest - {id};
        assert before.Keys - rest == reached + {id};
        hide PulledFrom;
      }
    }

    /**
     A pull is answered on the link back to its sender with what the sender lacks; a push is
     merged.  Neither does the other's work, and an answer that cannot be sent changes nothing.
     */
    method HandleMessage(from: NodeId, msg: GossipMessage) returns (r: Outcome, ghost answer: seq<PeerEntry>)
      requires Valid()
      modifies this, registry
      ensures Valid()
      ensures msg.PullMessage? ==>
        && registry.peers == old(registry.peers)
        && Lists(answer, Answer(registry.peers, Remote(msg.pull.digests)))
        && r == SendOutcome(old(peers), from)
        && peers == Sent(old(peers), from, PushMessage(Push(answer)))
      ensures msg.PullMessage? ==>
        r == if from !in old(peers) then Failed(PeerNotConnected(from))
             else if !old(peers)[from].open then Failed(SendFailed(from))
             else Done
      ensures msg.PullMessage? && from in old(peers) && old(peers)[from].open ==>
        peers == old(peers)[from := Link(true, old(peers)[from].sent + [PushMessage(Push(answer))])]
      ensures msg.PullMessage? && !(from in old(peers) && old(peers)[from].open) ==> peers == old(peers)
      ensures msg.PushMessage? ==>
        r == Done && peers == old(peers) && registry.peers == MergeAll(old(registry.peers), msg.push.entries)
    {
      answer := [];
      match msg
      case PullMessage(pull) =>
        var push := registry.HandleGossipPull(pull);
        answer := push.entries;
        if from !in peers {
          return Failed(PeerNotConnected(from)), answer;
        }
        if !peers[from].open {
          return Failed(SendFailed(from)), answer;
        }
        peers := peers[from := Link(true, peers[from].sent + [PushMessage(push)])];
        r := Done;
      case PushMessage(push) =>
        registry.MergeGossipPush(push);
        r := Done;
    }
  }

  // ---------------------------------------------------------------------------
  // The router's messages are the steps of the network
  // ---------------------------------------------------------------------------

  /** The last message on a link. */
  function LastSent(link: Link): GossipMessage
    requires link.sent != []
  {
    link.sent[|link.sent| - 1]
  }

  /** The pull that `InitiatePull` puts on a link is what the asking step of the network puts on the wire. */
  lemma PullIsAsk(w: Net, at: nat, peer: nat, node: NodeId, before: Link, after: Link)
    requires at < |w.tables| && GotPull(before, after, node, w.tables[at])
    ensures after.open && after.sent != [] && LastSent(after).PullMessage?
    ensures var digests := LastSent(after).pull.digests;
      Enabled(w, Ask(at, peer, digests)) && Do(w, Ask(at, peer, digests)) == w.(wire := w.wire + {Asking(peer, at, digests)})
  {
    var d :| DigestOf(d, w.tables[at]) && after == Link(true, before.sent + [PullMessage(Pull(node, d))]);
  }

  /**
   The push that `HandleMessage` puts on the link back to the asker is what the answering step of the
   network puts on the wire, for a node whose registry holds its table there.
   */
  lemma AnswerIsReply(
      w: Net, at: nat, peer: nat, pull: Pull, answer: seq<PeerEntry>, before: Link, after: Link)
    requires at < |w.tables| && Asking(at, peer, pull.digests) in w.wire
    requires Lists(answer, Answer(w.tables[at], Remote(pull.digests)))
    requires after == Link(true, before.sent + [PushMessage(Push(answer))])
    ensures after.sent != [] && LastSent(after).PushMessage?
    ensures var entries := LastSent(after).push.entries;
      var step := Reply(at, Asking(at, peer, pull.digests), entries);
      && Enabled(w, step)
      && Do(w, step) == w.(wire := w.wire + {Answering(peer, entries, w.tables[at])})
  {
  }

  /** Merging a push is the absorbing step of the network. */
  lemma MergeIsAbsorb(w: Net, at: nat, push: Push, answered: Table)
    requires at < |w.tables| && Answering(at, push.entries, answered) in w.wire
    ensures var step := Absorb(at, Answering(at, push.entries, answered));
      && Enabled(w, step)
      && Do(w, step) == w.(tables := w.tables[at := MergeAll(w.tables[at], push.entries)])
  {
  }
}
