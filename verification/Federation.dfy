/**
 One mesh's federation links and the decision its gateway takes on an arriving envelope
 (`p2p/src/federation.rs`, `federation_relay` in `gateway/src/main.rs`).
 */
module Federation {
  import opened Times
  import opened Wrappers

  type MeshId = string
  /** An opaque JSON payload. */
  type Payload = string
  /** An unsigned byte. */
  type Ttl = n: nat | n < 256

  const DEFAULT_TTL: Ttl := 8

  datatype Envelope = Envelope(source: MeshId, target: MeshId, payload: Payload, relayedAt: Time, ttl: Ttl)

  datatype MeshLink = MeshLink(meshId: MeshId, linkLabel: Option<string>, linkedAt: Time)

  /** A link, what has been sent on its channel, and whether the channel's receiver still listens. */
  datatype LinkState = LinkState(info: MeshLink, open: bool, sent: seq<Envelope>)

  type Links = map<MeshId, LinkState>

  datatype FederationError =
    | LinkNotFound(id: MeshId)
    | RelayFailed(id: MeshId)
    | TtlExpired
    | SelfRelay
    | LinkExists(id: MeshId)

  type Result<+T> = Wrappers.Result<T, FederationError>

  datatype Verdict = Accepted | Forwarded | ForwardFailed(error: FederationError) | WrongMesh

  function SendResult(links: Links, to: MeshId): Result<()> {
    if to !in links then Err(LinkNotFound(to))
    else if !links[to].open then Err(RelayFailed(to))
    else Ok(())
  }

  function SentOn(links: Links, to: MeshId, e: Envelope): Links {
    if SendResult(links, to).Ok? then links[to := links[to].(sent := links[to].sent + [e])] else links
  }

  function ForwardResult(links: Links, to: MeshId, ttl: Ttl): Result<()> {
    if ttl == 0 then Err(TtlExpired) else SendResult(links, to)
  }

  function Hop(e: Envelope, now: Time): Envelope
    requires e.ttl > 0
  {
    e.(ttl := e.ttl - 1, relayedAt := now)
  }

  function Decide(local: MeshId, links: Links, e: Envelope): Verdict {
    if e.target == local && e.ttl > 0 then Accepted
    else if e.target !in links then WrongMesh
    else match ForwardResult(links, e.target, e.ttl)
         case Ok(_) => Forwarded
         case Err(error) => ForwardFailed(error)
  }

  class FederationRouter {
    const localMeshId: MeshId
    var links: Links

    /** No link leads back to the mesh itself. */
    ghost predicate Valid()
      reads this
    {
      localMeshId !in links && forall id :: id in links ==> links[id].info.meshId == id
    }

    constructor (local: MeshId)
      ensures Valid() && localMeshId == local && links == map[]
    {
      localMeshId := local;
      links := map[];
    }

    method LinkMesh(remote: MeshId, linkLabel: Option<string>, now: Time) returns (r: Result<()>)
      requires Valid()
      modifies this
      ensures Valid()
      ensures r ==
        if remote == localMeshId then Err(SelfRelay)
        else if remote in old(links) then Err(LinkExists(remote))
        else Ok(())
      ensures links == if r.Ok? then old(links)[remote := LinkState(MeshLink(remote, linkLabel, now), true, [])] else old(links)
    {
      if remote == localMeshId {
        return Err(SelfRelay);
      }
      if remote in links {
        return Err(LinkExists(remote));
      }
      links := links[remote := LinkState(MeshLink(remote, linkLabel, now), true, [])];
      r := Ok(());
    }

    method UnlinkMesh(remote: MeshId) returns (r: Result<MeshLink>)
      requires Valid()
      modifies this
      ensures Valid()
      ensures r == if remote in old(links) then Ok(old(links)[remote].info) else Err(LinkNotFound(remote))
      ensures links == old(links) - {remote}
    {
      if remote !in links {
        assert links == links - {remote};
        return Err(LinkNotFound(remote));
      }
      r := Ok(links[remote].info);
      links := links - {remote};
    }

    method SendFederationEnvelope(to: MeshId, e: Envelope) returns (r: Result<()>)
      requires Valid()
      modifies this
      ensures Valid()
      ensures r == SendResult(old(links), to) && links == SentOn(old(links), to, e)
      ensures r ==
        if to !in old(links) then Err(LinkNotFound(to)) else if !old(links)[to].open then Err(RelayFailed(to)) else Ok(())
      ensures r.Ok? ==> links == old(links)[to := old(links)[to].(sent := old(links)[to].sent + [e])]
      ensures r.Err? ==> links == old(links)
    {
      if to !in links {
        return Err(LinkNotFound(to));
      }
      if !links[to].open {
        return Err(RelayFailed(to));
      }
      links := links[to := links[to].(sent := links[to].sent + [e])];
      r := Ok(());
    }

    /** Starts an envelope on its way with the full TTL. */
    method Relay(target: MeshId, payload: Payload, now: Time) returns (r: Result<()>)
      requires Valid()
      modifies this
      ensures Valid()
      ensures r == if target == localMeshId then Err(SelfRelay) else SendResult(old(links), target)
      ensures links == SentOn(old(links), target, Envelope(localMeshId, target, payload, now, DEFAULT_TTL))
      ensures r ==
        if target == localMeshId then Err(SelfRelay)
        else if target !in old(links) then Err(LinkNotFound(target))
        else if !old(links)[target].open then Err(RelayFailed(target))
        else Ok(())
      ensures r.Ok? ==>
        links == old(links)[target := old(links)[target].(
          sent := old(links)[target].sent + [Envelope(localMeshId, target, payload, now, 8)])]
      ensures r.Err? ==> links == old(links)
    {
      if target == localMeshId {
        return Err(SelfRelay);
      }
      var e := Envelope(localMeshId, target, payload, now, DEFAULT_TTL);
      r := SendFederationEnvelope(target, e);
    }

    /** Sends a received envelope on to any linked mesh, with one less hop to live. */
    method Forward(to: MeshId, envelope: Envelope, now: Time) returns (r: Result<()>)
      requires Valid()
      modifies this
      ensures Valid()
      ensures r == ForwardResult(old(links), to, envelope.ttl)
      ensures links == if envelope.ttl > 0 then SentOn(old(links), to, Hop(envelope, now)) else old(links)
      ensures r ==
        if envelope.ttl == 0 then Err(TtlExpired)
        else if to !in old(links) then Err(LinkNotFound(to))
        else if !old(links)[to].open then Err(RelayFailed(to))
        else Ok(())
      ensures r.Ok? ==>
        links == old(links)[to := old(links)[to].(
          sent := old(links)[to].sent + [envelope.(ttl := envelope.ttl - 1, relayedAt := now)])]
      ensures r.Err? ==> links == old(links)
    {
      if envelope.ttl == 0 {
        return Err(TtlExpired);
      }
      var e := envelope;
      e := e.(ttl := e.ttl - 1);
      e := e.(relayedAt := now);
      r := SendFederationEnvelope(to, e);
    }

    predicate ShouldAccept(e: Envelope) {
      e.target == localMeshId && e.ttl > 0
    }

    predicate IsLinked(remote: MeshId)
      reads this
    {
      remote in links
    }

    /**
     The gateway's treatment of an arriving envelope.  At its target mesh the envelope is
     accepted exactly when it has hops to live, and otherwise refused without being sent on.
     */
    method FederationRelay(body: Envelope, now: Time) returns (v: Verdict)
      requires Valid()
      modifies this
      ensures Valid()
      ensures v == Decide(localMeshId, old(links), body)
      ensures links == if v.Forwarded? then SentOn(old(links), body.target, Hop(body, now)) else old(links)
      ensures body.target == localMeshId ==> v == if body.ttl > 0 then Accepted else WrongMesh
      ensures body.target != localMeshId ==>
        v == (if body.target !in old(links) then WrongMesh
              else if body.ttl == 0 then ForwardFailed(TtlExpired)
              else if !old(links)[body.target].open then ForwardFailed(RelayFailed(body.target))
              else Forwarded)
      ensures v.Forwarded? ==>
        links == old(links)[body.target := old(links)[body.target].(
          sent := old(links)[body.target].sent + [body.(ttl := body.ttl - 1, relayedAt := now)])]
      ensures !v.Forwarded? ==> links == old(links)
    {
      if !ShouldAccept(body) {
        if IsLinked(body.target) {
          var r := Forward(body.target, body, now);
          if r.Err? {
            return ForwardFailed(r.error);
          }
          return Forwarded;
        }
        return WrongMesh;
      }
      v := Accepted;
    }
  }
}
