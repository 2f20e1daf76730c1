/**
 A run, from the start, in which a holder's own Renew cuts its lease short and another session
 claims the key before the lease it was first granted would have expired.
 */
module ShortenedLease {
  import opened ByteLayout
  import opened Readers
  import opened SessionCodec
  import opened Wire
  import opened Sessions
  import opened Authority
  import opened RuntimeSteps
  import opened LeaseSafety

  /** A message of session 1 with a built-in type; what the steps do not look at is fixed. */
  function Message(source: Bytes, family: MessageFamily, operation: byte, target: TargetSelector,
                   payload: Bytes): Envelope
  {
    Envelope(PROTOCOL_MAJOR, HEADER_VERSION, 0, 0, 0, ReliableOrdered, family, operation,
             SCHEMA_VERSION, 1, 1, 0, SourceIdentity(source, []), target,
             TypeRef(CORE_PROFILE, 2, 0, CORE_PROFILE), 0, 0, payload, SecurityContext(0, []), 0)
  }

  function SessionMessage(source: Bytes, operation: byte, payload: Bytes): Envelope
  {
    Message(source, Session, operation, TargetSelector(Broadcast, []), payload)
  }

  function Request(source: Bytes, operation: byte, uid: Bytes, ttlMs: u32): Envelope
  {
    Message(source, MessageFamily.Authority, operation, TargetSelector(Entity, [uid]),
            EncodeRequest(AuthorityRequest(uid, ttlMs, false)))
  }

  /** Both peers become Active; one claims for an hour, renews for a millisecond, and then the
      other claims. */
  function Story(a: PeerId, b: PeerId, uid: Bytes): seq<Event>
  {
    [Receive(a, SessionMessage(a, OP_PROFILES, [0, 0]), 0),
     Receive(a, SessionMessage(a, OP_READY, []), 0),
     Receive(b, SessionMessage(b, OP_PROFILES, [0, 0]), 0),
     Receive(b, SessionMessage(b, OP_READY, []), 0),
     Receive(a, Request(a, OP_CLAIM, uid, MAX_LEASE_MS), 0),
     Receive(a, Request(a, OP_RENEW, uid, 1), 0),
     Receive(b, Request(b, OP_CLAIM, uid, 1), TICKS_PER_MS)]
  }

  lemma EmptyList()
    ensures DecodeProfileList([0, 0]) == Some([])
  {
    ProfileListRoundTrip([]);
    assert EncodeProfileList([]) == [0, 0];
  }

  /** A well-formed request for the entity's own name as the scope. */
  lemma RequestReads(source: Bytes, operation: byte, uid: Bytes, ttlMs: u32)
    requires 0 < |uid| <= 0xFFFF && 0 < ttlMs <= MAX_LEASE_MS
    ensures
      var e := Request(source, operation, uid, ttlMs);
      && DecodeRequest(e.payload) == Some(AuthorityRequest(uid, ttlMs, false))
      && WellFormed(e) && RequestKey(e) == LeaseKey(uid, uid)
  {
    hide DecodeRequest, EncodeRequest;
    RequestRoundTrip(AuthorityRequest(uid, ttlMs, false));
  }

  /** An active session of this peer, pinned to its own name. */
  predicate Ready(s: State, peer: PeerId, uid: Bytes)
  {
    var key := SessionKey(peer, 1);
    && key in s.sessions && s.sessions[key].state == Active
    && s.sessions[key].remoteUid == peer && s.entityUids == [uid]
  }

  /** Profiles and Ready activate the session of a new peer and touch nothing else. */
  lemma Activates(c: Config, s: State, peer: PeerId, uid: Bytes)
    requires SessionKey(peer, 1) !in s.sessions && s.entityUids == [uid]
    ensures
      var s1 := Step(c, s, Receive(peer, SessionMessage(peer, OP_PROFILES, [0, 0]), 0)).0;
      var s2 := Step(c, s1, Receive(peer, SessionMessage(peer, OP_READY, []), 0)).0;
      && Ready(s2, peer, uid) && s2.leases == s.leases
      && s2.sessions.Keys == s.sessions.Keys + {SessionKey(peer, 1)}
      && forall key :: key in s.sessions ==> s2.sessions[key] == s.sessions[key]
  {
    hide DecodeProfileList, Negotiate, DecodeText;
    EmptyList();
  }

  /** An admitted request of a ready peer. */
  lemma Requests(c: Config, s: State, peer: PeerId, operation: byte, uid: Bytes, ttlMs: u32,
                 now: nat)
    requires Ready(s, peer, uid) && operation != OP_STATUS
    ensures
      var e := Request(peer, operation, uid, ttlMs);
      var r := HandleRequest(s.leases, peer, e, now);
      && Addressed(c, s, peer, e)
      && TypeSupported(s.sessions[SessionKey(peer, 1)], e.typ)
      && Step(c, s, Receive(peer, e, now)) == (s.(leases := r.leases), Status(r.verdict))
  {
    hide HandleRequest, EncodeRequest;
    assert uid in [uid];
  }

  lemma TwoReady(c: Config, a: PeerId, b: PeerId, uid: Bytes)
    requires a != b
    ensures
      var s := Before(c, [uid], Story(a, b, uid), 4);
      Ready(s, a, uid) && Ready(s, b, uid) && s.leases == map[]
  {
    hide Step, Run;
    var events := Story(a, b, uid);
    FreshRun(c, uid, events);
    var s0 := Started([uid]);
    Activates(c, s0, a, uid);
    OneMoreStep(c, [uid], events, 0);
    OneMoreStep(c, [uid], events, 1);
    Activates(c, Before(c, [uid], events, 2), b, uid);
    OneMoreStep(c, [uid], events, 2);
    OneMoreStep(c, [uid], events, 3);
  }

  lemma FreshRun(c: Config, uid: Bytes, events: seq<Event>)
    ensures Before(c, [uid], events, 0) == Started([uid])
  {
  }

  /** A claim on a key that is free, or a renewal by its holder. */
  lemma Granted(leases: LeaseTable, peer: PeerId, operation: byte, uid: Bytes, ttlMs: u32,
                now: nat)
    requires 0 < |uid| <= 0xFFFF && 0 < ttlMs <= MAX_LEASE_MS
    requires
      var key := LeaseKey(uid, uid);
      || (operation == OP_CLAIM && (key !in leases || leases[key].expiresAt <= now))
      || (operation == OP_RENEW && HasAuthority(leases, key, peer, 1, now))
    ensures
      var key := LeaseKey(uid, uid);
      var r := HandleRequest(leases, peer, Request(peer, operation, uid, ttlMs), now);
      && r.verdict == Controller
      && key in r.leases && r.leases[key] == Lease(peer, 1, now + ttlMs * TICKS_PER_MS)
  {
    hide HandleRequest, DecodeRequest, EncodeRequest, WellFormed, RequestKey;
    var e := Request(peer, operation, uid, ttlMs);
    RequestReads(peer, operation, uid, ttlMs);
    VerdictMeans(leases, peer, e, now);
    RequestEffect(leases, peer, e, now, LeaseKey(uid, uid));
  }

  predicate Holds(leases: LeaseTable, uid: Bytes, peer: PeerId, expiresAt: nat)
  {
    var key := LeaseKey(uid, uid);
    key in leases && leases[key] == Lease(peer, 1, expiresAt)
  }

  /**
   In this run, whatever the configuration, all three requests are granted: the lease granted
   for an hour is another session's after a millisecond, without preempting.
   */
  lemma RenewShortens(c: Config, a: PeerId, b: PeerId, uid: Bytes)
    requires a != b && 0 < |uid| <= 0xFFFF
    ensures
      var events := Story(a, b, uid);
      && Monotonic(events)
      && (forall n :: 4 <= n < 7 ==> OutcomeOf(c, [uid], events, n) == Status(Controller))
      && Holds(Before(c, [uid], events, 5).leases, uid, a, MAX_LEASE_MS * TICKS_PER_MS)
      && Holds(Run(c, [uid], events).leases, uid, b, 2 * TICKS_PER_MS)
  {
    hide Step, Run, HandleRequest, Addressed, TypeSupported, Request;
    var events := Story(a, b, uid);
    TwoReady(c, a, b, uid);
    var s4 := Before(c, [uid], events, 4);
    Requests(c, s4, a, OP_CLAIM, uid, MAX_LEASE_MS, 0);
    Granted(s4.leases, a, OP_CLAIM, uid, MAX_LEASE_MS, 0);
    OneMoreStep(c, [uid], events, 4);
    var s5 := Before(c, [uid], events, 5);
    Requests(c, s5, a, OP_RENEW, uid, 1, 0);
    Granted(s5.leases, a, OP_RENEW, uid, 1, 0);
    OneMoreStep(c, [uid], events, 5);
    var s6 := Before(c, [uid], events, 6);
    Requests(c, s6, b, OP_CLAIM, uid, 1, TICKS_PER_MS);
    Granted(s6.leases, b, OP_CLAIM, uid, 1, TICKS_PER_MS);
    OneMoreStep(c, [uid], events, 6);
    WholeRun(c, [uid], events);
  }
}
