/**
 Envelopes travelling over an arbitrary, possibly cyclic and changing graph of meshes
 (`p2p/src/federation.rs`, `federation_relay` in `gateway/src/main.rs`).

 A link's channel is taken to deliver to the mesh it is named after.
 */
module FederationRuns {
  import opened Times
  import opened Federation

  /** An envelope, the mesh it is at, how it started out, and how often it has been forwarded. */
  datatype Packet = Packet(at: MeshId, envelope: Envelope, origin: Envelope, relayed: bool, hops: nat)

  type Id = nat

  datatype World = World(
    links: map<MeshId, Links>,
    issued: nat,
    inFlight: map<Id, Packet>,
    accepted: map<Id, Packet>,
    refused: map<Id, Packet>)

  datatype Step =
    | Link(at: MeshId, remote: MeshId, state: LinkState)
    | Unlink(at: MeshId, remote: MeshId)
    /** The receiver of a link's channel goes away. */
    | Close(at: MeshId, remote: MeshId)
    | Relay(at: MeshId, target: MeshId, payload: Payload, now: Time)
    /** An envelope with any contents arrives from outside. */
    | Inject(at: MeshId, envelope: Envelope)
    /** The gateway of the mesh an envelope has reached decides about it. */
    | Dispatch(id: Id, now: Time)
    /** A node forwards an envelope to a mesh of its choice. */
    | ForwardVia(id: Id, next: MeshId, now: Time)

  predicate Handles(step: Step) {
    step.Dispatch? || step.ForwardVia?
  }

  predicate Launches(step: Step) {
    step.Relay? || step.Inject?
  }

  function LinksOf(w: World, m: MeshId): Links {
    if m in w.links then w.links[m] else map[]
  }

  predicate Enabled(w: World, step: Step) {
    match step
    case Link(at, remote, state) => remote != at && remote !in LinksOf(w, at)
    case Unlink(at, remote) => remote in LinksOf(w, at)
    case Close(at, remote) => remote in LinksOf(w, at)
    case Relay(at, target, payload, now) => target != at && SendResult(LinksOf(w, at), target).Ok?
    case Inject(at, envelope) => true
    case Dispatch(id, now) => id in w.inFlight
    case ForwardVia(id, next, now) => id in w.inFlight
  }

  function Launch(w: World, p: Packet): World {
    w.(issued := w.issued + 1, inFlight := w.inFlight[w.issued := p])
  }

  /** Mesh `at` appends an envelope to its link to `to`, if it has one that is open. */
  function Send(w: World, at: MeshId, to: MeshId, e: Envelope): World {
    if at in w.links then w.(links := w.links[at := SentOn(w.links[at], to, e)]) else w
  }

  function Accept(w: World, id: Id): World
    requires id in w.inFlight
  {
    w.(inFlight := w.inFlight - {id}, accepted := w.accepted[id := w.inFlight[id]])
  }

  function Refuse(w: World, id: Id): World
    requires id in w.inFlight
  {
    w.(inFlight := w.inFlight - {id}, refused := w.refused[id := w.inFlight[id]])
  }

  function Move(w: World, id: Id, next: MeshId, now: Time): World
    requires id in w.inFlight && w.inFlight[id].envelope.ttl > 0
  {
    var p := w.inFlight[id];
    Send(w, p.at, next, Hop(p.envelope, now)).(
      inFlight := w.inFlight[id := p.(at := next, envelope := Hop(p.envelope, now), hops := p.hops + 1)])
  }

  function Do(w: World, step: Step): World
    requires Enabled(w, step)
  {
    match step
    case Link(at, remote, state) => w.(links := w.links[at := LinksOf(w, at)[remote := state]])
    case Unlink(at, remote) => w.(links := w.links[at := LinksOf(w, at) - {remote}])
    case Close(at, remote) =>
      w.(links := w.links[at := LinksOf(w, at)[remote := LinksOf(w, at)[remote].(open := false)]])
    case Relay(at, target, payload, now) =>
      var e := Envelope(at, target, payload, now, DEFAULT_TTL);
      Launch(Send(w, at, target, e), Packet(target, e, e, true, 0))
    case Inject(at, envelope) => Launch(w, Packet(at, envelope, envelope, false, 0))
    case Dispatch(id, now) =>
      var p := w.inFlight[id];
      (match Decide(p.at, LinksOf(w, p.at), p.envelope)
       case Accepted => Accept(w, id)
       case Forwarded => Move(w, id, p.envelope.target, now)
       case ForwardFailed(_) => Refuse(w, id)
       case WrongMesh => Refuse(w, id))
    case ForwardVia(id, next, now) =>
      var p := w.inFlight[id];
      if ForwardResult(LinksOf(w, p.at), next, p.envelope.ttl).Ok? then Move(w, id, next, now) else Refuse(w, id)
  }

  const INIT := World(map[], 0, map[], map[], map[])

  ghost predicate Legal(w: World, steps: seq<Step>)
    decreases |steps|
  {
    steps != [] ==> Enabled(w, steps[0]) && Legal(Do(w, steps[0]), steps[1..])
  }

  ghost function Exec(w: World, steps: seq<Step>): World
    requires Legal(w, steps)
    decreases |steps|
  {
    if steps == [] then w else Exec(Do(w, steps[0]), steps[1..])
  }

  ghost predicate Reachable(w: World) {
    exists steps :: Legal(INIT, steps) && Exec(INIT, steps) == w
  }

  // ---------------------------------------------------------------------------
  // What every step keeps
  // ---------------------------------------------------------------------------

  /** An envelope is its origin with the hops made taken off its TTL, and nothing else changed. */
  predicate TrueToOrigin(p: Packet) {
    && p.envelope.ttl + p.hops == p.origin.ttl
    && p.envelope.source == p.origin.source
    && p.envelope.target == p.origin.target
    && p.envelope.payload == p.origin.payload
    && (p.relayed ==> p.origin.ttl == DEFAULT_TTL && p.origin.target != p.origin.source)
  }

  /** Every envelope issued is in exactly one place. */
  ghost predicate Conserved(w: World) {
    && (forall id :: id in w.inFlight ==> id < w.issued && id !in w.accepted && id !in w.refused)
    && (forall id :: id in w.accepted ==> id < w.issued && id !in w.refused)
    && (forall id :: id in w.refused ==> id < w.issued)
    && (forall id: Id :: id < w.issued ==> id in w.inFlight || id in w.accepted || id in w.refused)
  }

  ghost predicate NoSelfLinks(w: World) {
    forall m :: m in w.links ==> m !in w.links[m]
  }

  ghost predicate PacketsOk(w: World) {
    && (forall id :: id in w.inFlight ==> TrueToOrigin(w.inFlight[id]))
    && (forall id :: id in w.refused ==> TrueToOrigin(w.refused[id]))
    && (forall id :: id in w.accepted ==>
          && TrueToOrigin(w.accepted[id])
          && w.accepted[id].at == w.accepted[id].envelope.target
          && w.accepted[id].envelope.ttl > 0)
  }

  ghost predicate Inv(w: World) {
    Conserved(w) && NoSelfLinks(w) && PacketsOk(w)
  }

  lemma LaunchKeepsInv(w: World, p: Packet)
    requires Inv(w) && TrueToOrigin(p)
    ensures Inv(Launch(w, p))
  {
  }

  lemma SendKeepsInv(w: World, at: MeshId, to: MeshId, e: Envelope)
    requires Inv(w)
    ensures var w' := Send(w, at, to, e);
      w' == w.(links := w'.links) && NoSelfLinks(w')
  {
  }

  lemma AcceptKeepsInv(w: World, id: Id)
    requires Inv(w) && id in w.inFlight
    requires w.inFlight[id].at == w.inFlight[id].envelope.target && w.inFlight[id].envelope.ttl > 0
    ensures Inv(Accept(w, id))
  {
  }

  lemma RefuseKeepsInv(w: World, id: Id)
    requires Inv(w) && id in w.inFlight
    ensures Inv(Refuse(w, id))
  {
  }

  lemma MoveKeepsInv(w: World, id: Id, next: MeshId, now: Time)
    requires Inv(w) && id in w.inFlight && w.inFlight[id].envelope.ttl > 0
    ensures Inv(Move(w, id, next, now))
  {
    SendKeepsInv(w, w.inFlight[id].at, next, Hop(w.inFlight[id].envelope, now));
    hide Send;
  }

  lemma HandlingKeepsInv(w: World, step: Step)
    requires Inv(w) && Enabled(w, step) && Handles(step)
    ensures Inv(Do(w, step))
  {
    var p := w.inFlight[step.id];
    if Do(w, step) == Refuse(w, step.id) {
      RefuseKeepsInv(w, step.id);
    } else if step.ForwardVia? {
      MoveKeepsInv(w, step.id, step.next, step.now);
    } else if Decide(p.at, LinksOf(w, p.at), p.envelope).Accepted? {
      AcceptKeepsInv(w, step.id);
    } else {
      MoveKeepsInv(w, step.id, p.envelope.target, step.now);
    }
  }

  lemma LaunchingKeepsInv(w: World, step: Step)
    requires Inv(w) && Enabled(w, step) && Launches(step)
    ensures Inv(Do(w, step))
  {
    match step
    case Relay(at, target, payload, now) =>
      var e := Envelope(at, target, payload, now, DEFAULT_TTL);
      LaunchKeepsInv(w, Packet(target, e, e, true, 0));
    case Inject(at, envelope) =>
      LaunchKeepsInv(w, Packet(at, envelope, envelope, false, 0));
  }

  lemma StepKeepsInv(w: World, step: Step)
    requires Inv(w) && Enabled(w, step)
    ensures Inv(Do(w, step))
  {
    if Handles(step) {
      HandlingKeepsInv(w, step);
    } else if Launches(step) {
      LaunchingKeepsInv(w, step);
    }
  }

  lemma {:induction false} RunKeepsInv(w: World, steps: seq<Step>)
    requires Inv(w) && Legal(w, steps)
    ensures Inv(Exec(w, steps))
    decreases |steps|
  {
    if steps != [] {
      StepKeepsInv(w, steps[0]);
      RunKeepsInv(Do(w, steps[0]), steps[1..]);
    }
  }

  lemma ReachableInv(w: World)
    requires Reachable(w)
    ensures Inv(w)
  {
    var steps :| Legal(INIT, steps) && Exec(INIT, steps) == w;
    RunKeepsInv(INIT, steps);
  }

  // ---------------------------------------------------------------------------
  // Results
  // ---------------------------------------------------------------------------

  /** In every reachable world each envelope issued is in flight, accepted or refused, and only one of these. */
  lemma EnvelopesAreConserved(w: World, id: Id)
    requires Reachable(w)
    ensures id < w.issued <==> id in w.inFlight || id in w.accepted || id in w.refused
    ensures !(id in w.inFlight && id in w.accepted) && !(id in w.inFlight && id in w.refused)
    ensures !(id in w.accepted && id in w.refused)
  {
    ReachableInv(w);
  }

  /** Wherever an envelope is, it has lost one hop to live per forward and nothing else. */
  lemma ForwardingKeepsContents(w: World, id: Id, p: Packet)
    requires Reachable(w)
    requires (id in w.inFlight && p == w.inFlight[id]) || (id in w.accepted && p == w.accepted[id])
      || (id in w.refused && p == w.refused[id])
    ensures p.envelope.ttl == p.origin.ttl - p.hops
    ensures p.envelope.source == p.origin.source && p.envelope.target == p.origin.target
    ensures p.envelope.payload == p.origin.payload
  {
    ReachableInv(w);
  }

  /** Every link but the one from `at` to `to` is as it was. */
  ghost predicate OtherLinksKept(w: World, w': World, at: MeshId, to: MeshId) {
    forall m, n :: m != at || n != to ==>
      (n in LinksOf(w', m) <==> n in LinksOf(w, m)) && (n in LinksOf(w, m) ==> LinksOf(w', m)[n] == LinksOf(w, m)[n])
  }

  /** The channel of the link from `at` to `to` has exactly `e` appended. */
  ghost predicate Appended(w: World, w': World, at: MeshId, to: MeshId, e: Envelope) {
    && to in LinksOf(w, at) && to in LinksOf(w', at)
    && LinksOf(w', at)[to] == LinksOf(w, at)[to].(sent := LinksOf(w, at)[to].sent + [e])
    && OtherLinksKept(w, w', at, to)
  }

  /** What `relay` puts in flight to a mesh is exactly what it appended to the channel to that mesh. */
  lemma RelayedIsWhatWasSent(w: World, step: Step)
    requires step.Relay? && Enabled(w, step)
    ensures var w' := Do(w, step);
      && w'.inFlight.Keys == w.inFlight.Keys + {w.issued}
      && w'.inFlight[w.issued].at == step.target
      && w'.inFlight[w.issued].envelope == Envelope(step.at, step.target, step.payload, step.now, 8)
      && Appended(w, w', step.at, step.target, w'.inFlight[w.issued].envelope)
  {
    assert step.at in w.links;
  }

  /** An envelope that is handled moves on exactly when it has hops to live, an open link to go by, and is not where it belongs. */
  ghost predicate MovesOn(w: World, step: Step)
    requires Handles(step) && step.id in w.inFlight
  {
    var p := w.inFlight[step.id];
    var next := if step.Dispatch? then p.envelope.target else step.next;
    && p.envelope.ttl > 0
    && next in LinksOf(w, p.at) && LinksOf(w, p.at)[next].open
    && (step.Dispatch? ==> p.at != p.envelope.target)
  }

  /** What is then in flight to the next mesh is exactly what was appended to the channel to it; otherwise nothing is sent. */
  lemma ForwardedIsWhatWasSent(w: World, step: Step)
    requires Handles(step) && Enabled(w, step)
    ensures var w' := Do(w, step);
      var p := w.inFlight[step.id];
      var next := if step.Dispatch? then p.envelope.target else step.next;
      && (step.id in w'.inFlight <==> MovesOn(w, step))
      && (MovesOn(w, step) ==>
            && w'.inFlight[step.id].at == next
            && w'.inFlight[step.id].envelope == p.envelope.(ttl := p.envelope.ttl - 1, relayedAt := step.now)
            && Appended(w, w', p.at, next, w'.inFlight[step.id].envelope))
      && (!MovesOn(w, step) ==> w'.links == w.links)
  {
  }

  /** An accepted envelope was accepted at its target; one begun by `relay`, after at most 7 forwards. */
  lemma AcceptedAtTarget(w: World, id: Id)
    requires Reachable(w) && id in w.accepted
    ensures w.accepted[id].at == w.accepted[id].envelope.target == w.accepted[id].origin.target
    ensures w.accepted[id].hops < w.accepted[id].origin.ttl
    ensures w.accepted[id].relayed ==> w.accepted[id].hops <= 7
  {
    ReachableInv(w);
  }

  /** No link table ever contains its own mesh. */
  lemma NeverLinkedToSelf(w: World, m: MeshId)
    requires Reachable(w)
    ensures m !in LinksOf(w, m)
  {
    ReachableInv(w);
  }

  /**
   Hence a spent envelope cannot bounce: at its target the gateway finds no link to forward it on,
   so it is refused as misdirected without `forward` being tried, and with hops to live it is accepted.
   With a link of a mesh to itself the gateway would try.
   */
  lemma SpentEnvelopeIsRefused(w: World, id: Id, now: Time)
    requires Reachable(w) && id in w.inFlight && w.inFlight[id].at == w.inFlight[id].envelope.target
    ensures var p := w.inFlight[id];
      && Decide(p.at, LinksOf(w, p.at), p.envelope) == (if p.envelope.ttl > 0 then Accepted else WrongMesh)
      && Do(w, Dispatch(id, now)) == if p.envelope.ttl > 0 then Accept(w, id) else Refuse(w, id)
  {
    NeverLinkedToSelf(w, w.inFlight[id].at);
  }

  /** Only a link of its target mesh to itself would make the gateway try to forward a spent envelope. */
  lemma SelfLinkWouldForward(local: MeshId, links: Links, e: Envelope)
    requires e.target == local
    ensures Decide(local, links, e) == WrongMesh <==> e.ttl == 0 && local !in links
  {
  }

  /** The gateway of an envelope's target tries to send it on. */
  predicate Bounces(w: World, step: Step) {
    && step.Dispatch? && step.id in w.inFlight
    && var p := w.inFlight[step.id];
       p.at == p.envelope.target && !Decide(p.at, LinksOf(w, p.at), p.envelope).Accepted?
       && Decide(p.at, LinksOf(w, p.at), p.envelope) != WrongMesh
  }

  /** No step of a run does, and every envelope handled at its target leaves the network there. */
  ghost predicate NoneBounces(w: World, steps: seq<Step>)
    requires Legal(w, steps)
    decreases |steps|
  {
    steps != [] ==>
      && !Bounces(w, steps[0])
      && (steps[0].Dispatch? && w.inFlight[steps[0].id].at == w.inFlight[steps[0].id].envelope.target ==>
            steps[0].id !in Do(w, steps[0]).inFlight)
      && NoneBounces(Do(w, steps[0]), steps[1..])
  }

  lemma NoBounce(w: World, step: Step)
    requires Inv(w) && Enabled(w, step) && step.Dispatch?
    requires w.inFlight[step.id].at == w.inFlight[step.id].envelope.target
    ensures !Bounces(w, step) && step.id !in Do(w, step).inFlight
  {
    assert w.inFlight[step.id].at !in LinksOf(w, w.inFlight[step.id].at);
    hide Inv;
  }

  lemma {:induction false} RunsNeverBounce(w: World, steps: seq<Step>)
    requires Inv(w) && Legal(w, steps)
    ensures NoneBounces(w, steps)
    decreases |steps|
  {
    if steps != [] {
      if steps[0].Dispatch? && w.inFlight[steps[0].id].at == w.inFlight[steps[0].id].envelope.target {
        NoBounce(w, steps[0]);
      }
      StepKeepsInv(w, steps[0]);
      hide Inv, Do, Decide;
      RunsNeverBounce(Do(w, steps[0]), steps[1..]);
    }
  }

  /** Over whole runs from any reachable world, no gateway ever tries to send on an envelope that has arrived. */
  lemma ArrivedNeverBounces(w: World, steps: seq<Step>)
    requires Reachable(w) && Legal(w, steps)
    ensures NoneBounces(w, steps)
  {
    ReachableInv(w);
    RunsNeverBounce(w, steps);
  }

  // ---------------------------------------------------------------------------
  // Runs end
  // ---------------------------------------------------------------------------

  /** Hops left in flight plus envelopes in flight, over the first `n` ids. */
  function Pending(inFlight: map<Id, Packet>, n: nat): nat {
    if n == 0 then 0
    else Pending(inFlight, n - 1) + if n - 1 in inFlight then inFlight[n - 1].envelope.ttl + 1 else 0
  }

  ghost function Handled(steps: seq<Step>): nat {
    if steps == [] then 0 else (if Handles(steps[0]) then 1 else 0) + Handled(steps[1..])
  }

  lemma {:induction false} PendingElsewhere(a: map<Id, Packet>, b: map<Id, Packet>, n: nat)
    requires forall id: Id :: id < n ==> (id in a <==> id in b) && (id in a ==> a[id].envelope.ttl == b[id].envelope.ttl)
    ensures Pending(a, n) == Pending(b, n)
  {
    if n != 0 {
      PendingElsewhere(a, b, n - 1);
    }
  }

  lemma {:induction false} PendingDrops(a: map<Id, Packet>, b: map<Id, Packet>, n: nat, id: Id)
    requires id < n && id in a
    requires forall other: Id :: other != id ==> (other in a <==> other in b) && (other in a ==> a[other] == b[other])
    requires id in b ==> b[id].envelope.ttl < a[id].envelope.ttl
    ensures Pending(b, n) < Pending(a, n)
  {
    if n - 1 == id {
      PendingElsewhere(a, b, n - 1);
    } else {
      PendingDrops(a, b, n - 1, id);
    }
  }

  lemma RemovalDrains(w: World, id: Id)
    requires Conserved(w) && id in w.inFlight
    ensures Pending(w.inFlight - {id}, w.issued) < Pending(w.inFlight, w.issued)
  {
    PendingDrops(w.inFlight, w.inFlight - {id}, w.issued, id);
  }

  lemma MoveDrains(w: World, id: Id, next: MeshId, now: Time)
    requires Conserved(w) && id in w.inFlight && w.inFlight[id].envelope.ttl > 0
    ensures Pending(Move(w, id, next, now).inFlight, w.issued) < Pending(w.inFlight, w.issued)
  {
    PendingDrops(w.inFlight, Move(w, id, next, now).inFlight, w.issued, id);
  }

  /** Handling any envelope strictly lowers what is pending. */
  lemma HandlingDrains(w: World, step: Step)
    requires Conserved(w) && Enabled(w, step) && Handles(step)
    ensures Do(w, step).issued == w.issued
    ensures Pending(Do(w, step).inFlight, w.issued) < Pending(w.inFlight, w.issued)
  {
    RemovalDrains(w, step.id);
    if w.inFlight[step.id].envelope.ttl > 0 {
      var next := if step.ForwardVia? then step.next else w.inFlight[step.id].envelope.target;
      MoveDrains(w, step.id, next, step.now);
    }
  }

  /**
   Once no new envelopes are launched, on any link graph, with links coming and going and any
   choice of next hops, the number of envelopes handled is bounded by what was pending.
   */
  lemma {:induction false} RunsEnd(w: World, steps: seq<Step>)
    requires Inv(w) && Legal(w, steps) && forall i :: 0 <= i < |steps| ==> !Launches(steps[i])
    ensures Exec(w, steps).issued == w.issued
    ensures Handled(steps) + Pending(Exec(w, steps).inFlight, w.issued) <= Pending(w.inFlight, w.issued)
    decreases |steps|
  {
    if steps != [] {
      var step, w' := steps[0], Do(w, steps[0]);
      StepKeepsInv(w, step);
      if Handles(step) {
        HandlingDrains(w, step);
      }
      RunsEnd(w', steps[1..]);
    }
  }

  lemma {:induction false} PendingBound(inFlight: map<Id, Packet>, n: nat)
    ensures Pending(inFlight, n) <= 256 * n
  {
    if n != 0 {
      PendingBound(inFlight, n - 1);
    }
  }

  /** In particular every reachable world's traffic dies out within 256 handlings per envelope issued. */
  lemma TrafficDiesOut(w: World, steps: seq<Step>)
    requires Reachable(w) && Legal(w, steps) && forall i :: 0 <= i < |steps| ==> !Launches(steps[i])
    ensures Handled(steps) <= Pending(w.inFlight, w.issued) <= 256 * w.issued
  {
    ReachableInv(w);
    RunsEnd(w, steps);
    PendingBound(w.inFlight, w.issued);
  }
}
