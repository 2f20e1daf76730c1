/**
 A runtime as a state machine: its session and lease tables under received envelopes, calls of
 the API and lost peers. Every envelope is one atomic step that carries the clock it sees.
 */
module RuntimeSteps {
  import opened ByteLayout
  import opened Wire
  import opened Sessions
  import opened Authority

  /** `resolver` is the optional callback that maps an action type to an authority scope. */
  datatype Config = Config(me: Identity, groupUids: seq<Bytes>, resolver: TypeRef -> Bytes)

  datatype State = State(
    sessions: SessionTable,
    leases: LeaseTable,
    entityUids: seq<Bytes>,
    nextSessionId: u64)

  datatype Event =
    | Receive(peer: PeerId, envelope: Envelope, now: nat)
    | Open(peer: PeerId)
    | SetEntities(uids: seq<Bytes>)
    | Revoke(peer: PeerId, session: u64, uids: seq<Bytes>)
    | Drop(peer: PeerId)
    | Stop

  /** What a step shows: a reply, or an event for the subscribers. */
  datatype Outcome =
    | Nothing
    | SessionChanged(info: SessionInfo, reply: Reply)
    | Status(verdict: Verdict)
    | Blocked(code: ErrorCode)
    | Delivered(envelope: Envelope)

  /** An active session of this peer whose pinned source and targets fit the envelope. */
  predicate Addressed(c: Config, s: State, peer: PeerId, e: Envelope)
  {
    var key := SessionKey(peer, e.sessionId);
    && key in s.sessions
    && s.sessions[key].state == Active
    && s.sessions[key].remoteUid == e.source.endpointUid
    && e.target.Matches(c.me.endpointUid, s.entityUids, c.groupUids)
  }

  predicate TypeSupported(info: SessionInfo, typ: TypeRef)
  {
    typ.profileId == CORE_PROFILE || info.SupportsProfile(typ.profileId, typ.major, typ.minor)
  }

  /** `runtime_handle_envelope` on anything but a session message. */
  function Deliver(c: Config, s: State, peer: PeerId, e: Envelope, now: nat): (State, Outcome)
  {
    if !Addressed(c, s, peer, e) then (s, Blocked(Unauthorized))
    else if !TypeSupported(s.sessions[SessionKey(peer, e.sessionId)], e.typ)
    then (s, Blocked(Unsupported))
    else if IsRequest(e) then
      var r := HandleRequest(s.leases, peer, e, now);
      (s.(leases := r.leases), Status(r.verdict))
    else if !ActionAuthorized(s.leases, c.resolver(e.typ), peer, e, now)
    then (s, Blocked(Unauthorized))
    else (s, Delivered(e))
  }

  function OnSession(c: Config, s: State, peer: PeerId, e: Envelope): (State, Outcome)
  {
    if e.operation == OP_LANE_BIND || e.operation == OP_LANE_READY then (s, Nothing)
    else
      var t := HandleSession(c.me, s.sessions, peer, e);
      var key := SessionKey(peer, e.sessionId);
      (s.(sessions := t),
       SessionChanged(t[key], ReplyTo(c.me, EntryAt(s.sessions, key), e)))
  }

  function Receiving(c: Config, s: State, peer: PeerId, e: Envelope, now: nat): (State, Outcome)
  {
    if e.family.Session? then OnSession(c, s, peer, e) else Deliver(c, s, peer, e, now)
  }

  /** The session table after `open_session`, which overwrites an entry with the same key. */
  function Opened(s: State, peer: PeerId): State
  {
    var key := SessionKey(peer, s.nextSessionId);
    s.(sessions := s.sessions[key := FreshSession(key)],
       nextSessionId := (s.nextSessionId + 1) % 0x1_0000_0000_0000_0000)
  }

  function Step(c: Config, s: State, event: Event): (State, Outcome)
  {
    match event
    case Receive(peer, e, now) => Receiving(c, s, peer, e, now)
    case Open(peer) => (Opened(s, peer), Nothing)
    case SetEntities(uids) =>
      if ValidUids(uids)
      then (s.(leases := Pruned(s.leases, uids), entityUids := uids), Nothing)
      else (s, Blocked(InvalidArgument))
    case Revoke(peer, session, uids) =>
      (s.(leases := Revoked(s.leases, peer, session, uids)), Nothing)
    case Drop(peer) =>
      (s.(sessions := WithoutPeer(s.sessions, peer), leases := WithoutHolder(s.leases, peer)),
       Nothing)
    case Stop => (s.(sessions := map[], leases := map[]), Nothing)
  }

  function Started(entityUids: seq<Bytes>): State
  {
    State(map[], map[], entityUids, 1)
  }

  /** The state after the events, from a fresh start with these entities. */
  function Run(c: Config, entities: seq<Bytes>, events: seq<Event>): State
  {
    if events == [] then Started(entities)
    else
      var n := |events| - 1;
      Step(c, Run(c, entities, events[..n]), events[n]).0
  }

  /** The state just before event `i`. */
  function Before(c: Config, entities: seq<Bytes>, events: seq<Event>, i: nat): State
    requires i <= |events|
  {
    Run(c, entities, events[..i])
  }

  function OutcomeOf(c: Config, entities: seq<Bytes>, events: seq<Event>, i: nat): Outcome
    requires i < |events|
  {
    Step(c, Before(c, entities, events, i), events[i]).1
  }

  /** The clock never goes back. */
  predicate Monotonic(events: seq<Event>)
  {
    forall i, j :: 0 <= i < j < |events| && events[i].Receive? && events[j].Receive? ==>
      events[i].now <= events[j].now
  }

  lemma OneMoreStep(c: Config, entities: seq<Bytes>, events: seq<Event>, i: nat)
    requires i < |events|
    ensures Before(c, entities, events, i + 1)
         == Step(c, Before(c, entities, events, i), events[i]).0
  {
    assert events[..i + 1][..i] == events[..i];
  }

  lemma WholeRun(c: Config, entities: seq<Bytes>, events: seq<Event>)
    ensures Before(c, entities, events, |events|) == Run(c, entities, events)
  {
    assert events[..|events|] == events;
  }
}
