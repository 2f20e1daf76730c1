/**
 When an envelope is delivered, exactly: the session and lease results put together.
 */
module DeliveryGate {
  import opened ByteLayout
  import opened Wire
  import opened Sessions
  import opened Authority
  import opened RuntimeSteps
  import opened SessionSafety
  import opened LeaseSafety

  /** A built-in type, or one that both sides' profiles of the last exchange admit. */
  predicate TypeAdmits(c: Config, entities: seq<Bytes>, earlier: seq<Event>, key: SessionKey,
                       typ: TypeRef)
  {
    || typ.profileId == CORE_PROFILE
    || var m := Negotiate(c.me.profiles, LastList(c, entities, earlier, key)).negotiated;
       && typ.profileId in m && m[typ.profileId].major == typ.major
       && m[typ.profileId].minor >= typ.minor
  }

  /** Goals and cancels: operations 1 and 3 of the Action family. */
  predicate GoalOrCancel(e: Envelope)
  {
    e.family == Action && (e.operation == 1 || e.operation == 3)
  }

  /** One entity, and a standing grant for it and the action's scope. */
  ghost predicate LeaseAdmits(c: Config, entities: seq<Bytes>, earlier: seq<Event>, peer: PeerId,
                              e: Envelope, now: nat)
  {
    && e.target.scope == Entity && |e.target.uids| == 1
    && Entitled(c, entities, earlier, ActionKey(c, e), peer, e.sessionId, now)
  }

  function Uids(uids: seq<Bytes>): set<Bytes>
  {
    set uid | uid in uids
  }

  /** The target names this endpoint, one of its entities or groups, or everyone. */
  predicate Meant(c: Config, s: State, target: TargetSelector)
  {
    match target.scope
    case Broadcast => Uids(target.uids) == {}
    case Endpoint => c.me.endpointUid in Uids(target.uids)
    case Entity => Uids(target.uids) * Uids(s.entityUids) != {}
    case Group => Uids(target.uids) * Uids(c.groupUids) != {}
  }

  /** An active session of the peer, with the sender's uid pinned. */
  predicate SessionAdmits(s: State, peer: PeerId, e: Envelope)
  {
    && SessionKey(peer, e.sessionId) in s.sessions
    && var info := s.sessions[SessionKey(peer, e.sessionId)];
       info.state == Active && info.remoteUid == e.source.endpointUid
  }

  lemma AddressedMeans(c: Config, s: State, peer: PeerId, e: Envelope)
    ensures Addressed(c, s, peer, e) <==> SessionAdmits(s, peer, e) && Meant(c, s, e.target)
  {
    var uids := e.target.uids;
    Overlap(uids, s.entityUids);
    Overlap(uids, c.groupUids);
    if uids != [] {
      assert uids[0] in Uids(uids);
    }
  }

  lemma Overlap(a: seq<Bytes>, b: seq<Bytes>)
    ensures Uids(a) * Uids(b) != {} <==> exists uid :: uid in a && uid in b
  {
    if uid :| uid in a && uid in b {
      assert uid in Uids(a) * Uids(b);
    }
    if Uids(a) * Uids(b) != {} {
      var uid :| uid in Uids(a) * Uids(b);
    }
  }

  lemma TypeSupportedMeans(c: Config, entities: seq<Bytes>, earlier: seq<Event>, key: SessionKey,
                           typ: TypeRef)
    requires key in Run(c, entities, earlier).sessions
    ensures TypeSupported(Run(c, entities, earlier).sessions[key], typ)
       <==> TypeAdmits(c, entities, earlier, key, typ)
  {
    hide Run, LastList, Negotiate;
    NegotiatedIsLast(c, entities, earlier, key);
  }

  /**
   Delivery, exactly. In any run with a clock that does not go back, an envelope reaches the
   subscribers if and only if it is not a session message or an authority request, an active
   session of its peer has its sender pinned, its target means this endpoint, its type is
   supported by what the last profile list agreed on, and, for a Goal or Cancel, its sender holds
   a standing grant.
   */
  lemma DeliveredExactly(c: Config, entities: seq<Bytes>, events: seq<Event>, n: nat)
    requires n < |events| && Monotonic(events) && events[n].Receive?
    ensures
      var s, e, peer := Before(c, entities, events, n), events[n].envelope, events[n].peer;
      OutcomeOf(c, entities, events, n) == Delivered(e) <==>
        && e.family != Session && !(e.family == Authority && e.operation != 4)
        && SessionAdmits(s, peer, e) && Meant(c, s, e.target)
        && TypeAdmits(c, entities, events[..n], SessionKey(peer, e.sessionId), e.typ)
        && (GoalOrCancel(e) ==> LeaseAdmits(c, entities, events[..n], peer, e, events[n].now))
  {
    hide Run, TypeSupported, TypeAdmits, Entitled, HandleRequest, HandleSession, ReplyTo, Addressed,
      Meant;
    var s, e, peer := Before(c, entities, events, n), events[n].envelope, events[n].peer;
    var key := SessionKey(peer, e.sessionId);
    AddressedMeans(c, s, peer, e);
    if key in s.sessions {
      TypeSupportedMeans(c, entities, events[..n], key, e.typ);
    }
    if e.target.scope.Entity? && |e.target.uids| == 1 {
      AuthorityExactly(c, entities, events[..n], ActionKey(c, e), peer, e.sessionId,
                       events[n].now);
    }
  }

  /**
   Why an envelope is not delivered, and in which order the reasons are looked at: session and
   target first, then the type, then the lease. A session message and an authority request never
   get that far.
   */
  lemma BlockedExactly(c: Config, s: State, peer: PeerId, e: Envelope, now: nat)
    requires e.family != Session && !(e.family == Authority && e.operation != 4)
    ensures
      var key := SessionKey(peer, e.sessionId);
      var (t, outcome) := Step(c, s, Receive(peer, e, now));
      && t == s
      && if !SessionAdmits(s, peer, e) || !Meant(c, s, e.target) then
           outcome == Blocked(Unauthorized)
         else if !(e.typ.profileId == Ascii("yunlink.core")
                   || s.sessions[key].SupportsProfile(e.typ.profileId, e.typ.major, e.typ.minor))
         then outcome == Blocked(Unsupported)
         else if GoalOrCancel(e)
                 && !(e.target.scope == Entity && |e.target.uids| == 1
                      && HasAuthority(s.leases, ActionKey(c, e), peer, e.sessionId, now))
         then outcome == Blocked(Unauthorized)
         else outcome == Delivered(e)
  {
    hide Addressed, Meant, HandleRequest;
    AddressedMeans(c, s, peer, e);
  }

  /**
   An authority request that is addressed and supported is ruled on, its status told to the
   requester, and nothing delivered; one that is not is blocked like any other envelope.
   */
  lemma RequestAnswered(c: Config, s: State, peer: PeerId, e: Envelope, now: nat)
    requires e.family == Authority && e.operation != 4
    ensures
      var ruling := HandleRequest(s.leases, peer, e, now);
      Step(c, s, Receive(peer, e, now))
        == if !SessionAdmits(s, peer, e) || !Meant(c, s, e.target) then (s, Blocked(Unauthorized))
           else if !TypeSupported(s.sessions[SessionKey(peer, e.sessionId)], e.typ)
           then (s, Blocked(Unsupported))
           else (s.(leases := ruling.leases), Status(ruling.verdict))
  {
    hide Addressed, Meant, HandleRequest, TypeSupported;
    AddressedMeans(c, s, peer, e);
  }

  /** Without any lease of its own a peer's Goals and Cancels do not get through. */
  lemma NoLeaseNoAction(c: Config, s: State, peer: PeerId, e: Envelope, now: nat)
    requires GoalOrCancel(e) && forall key :: key in s.leases ==> s.leases[key].peerId != peer
    ensures !Step(c, s, Receive(peer, e, now)).1.Delivered?
  {
    hide Addressed, TypeSupported;
  }
}
