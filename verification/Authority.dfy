/**
 Time-limited exclusive leases on (entity, scope): claim, renew, release, revocation, and the
 gate in front of actions. The clock is a parameter, in ticks of the steady clock.
 */
module Authority {
  import opened ByteLayout
  import opened Readers
  import opened Sessions
  import opened Wire

  const OP_CLAIM: byte := 1
  const OP_RENEW: byte := 2
  const OP_RELEASE: byte := 3
  const OP_STATUS: byte := 4

  const ACTION_GOAL: byte := 1
  const ACTION_CANCEL: byte := 3

  const MAX_LEASE_MS := 60 * 60 * 1000
  const TICKS_PER_MS := 1_000_000

  // The request

  datatype AuthorityRequest = AuthorityRequest(scope: Bytes, leaseTtlMs: u32, allowPreempt: bool)

  function EncodeRequest(r: AuthorityRequest): Bytes
  {
    if |r.scope| > 0xFFFF then []
    else PutText(r.scope) + (Le(r.leaseTtlMs, 4) + [if r.allowPreempt then 1 else 0])
  }

  function DecodeRequest(payload: Bytes): Option<AuthorityRequest>
  {
    match TakeText(payload)
    case None => None
    case Some((scope, b1)) =>
      match TakeU32(b1)
      case None => None
      case Some((ttl, b2)) =>
        match TakeU8(b2)
        case None => None
        case Some((preempt, rest)) =>
          if preempt <= 1 && rest == [] then Some(AuthorityRequest(scope, ttl, preempt != 0))
          else None
  }

  lemma RequestRoundTrip(r: AuthorityRequest)
    ensures DecodeRequest(EncodeRequest(r)) == Some(r) <==> |r.scope| <= 0xFFFF
  {
    hide TakeLe;
    if |r.scope| <= 0xFFFF {
      var last: Bytes := [if r.allowPreempt then 1 else 0];
      PowersOf256();
      TakePutText(r.scope, Le(r.leaseTtlMs, 4) + last);
      TakeLePut(r.leaseTtlMs, 4, last);
    } else {
      assert TakeText([]).None?;
    }
  }

  lemma RequestCanonical(payload: Bytes)
    requires DecodeRequest(payload).Some?
    ensures EncodeRequest(DecodeRequest(payload).value) == payload
  {
    PutTakeText(payload);
    var (scope, b1) := TakeText(payload).value;
    PutTakeLe(b1, 4);
  }

  // Leases

  datatype LeaseKey = LeaseKey(entityUid: Bytes, scope: Bytes)

  datatype Lease = Lease(peerId: PeerId, sessionId: u64, expiresAt: nat)

  type LeaseTable = map<LeaseKey, Lease>

  /** Whether this peer and session hold the lease, expired or not. */
  predicate Owns(leases: LeaseTable, key: LeaseKey, peer: PeerId, session: u64)
  {
    key in leases && leases[key].peerId == peer && leases[key].sessionId == session
  }

  /** `has_authority`. */
  predicate HasAuthority(leases: LeaseTable, key: LeaseKey, peer: PeerId, session: u64, now: nat)
  {
    Owns(leases, key, peer, session) && leases[key].expiresAt > now
  }

  /** An expired lease is erased before a request is looked at. */
  function Unexpired(leases: LeaseTable, key: LeaseKey, now: nat): LeaseTable
  {
    if key in leases && leases[key].expiresAt <= now then leases - {key} else leases
  }

  /** What the requester is told: the state and reason code of the status reply. */
  datatype Verdict = Controller | Released | Refused(reason: ErrorCode)

  /** The checks on a request that come before the lease table. */
  predicate WellFormed(e: Envelope)
  {
    && DecodeRequest(e.payload).Some?
    && e.target.scope.Entity?
    && |e.target.uids| == 1
    && DecodeRequest(e.payload).value.scope != []
    && 0 < DecodeRequest(e.payload).value.leaseTtlMs <= MAX_LEASE_MS
  }

  function RequestKey(e: Envelope): LeaseKey
    requires WellFormed(e)
  {
    LeaseKey(e.target.uids[0], DecodeRequest(e.payload).value.scope)
  }

  function Expiry(e: Envelope, now: nat): nat
    requires WellFormed(e)
  {
    now + DecodeRequest(e.payload).value.leaseTtlMs * TICKS_PER_MS
  }

  datatype Ruling = Ruling(verdict: Verdict, leases: LeaseTable)

  /** A well-formed request on a table whose expired entry for the key is gone. */
  function Rule(leases: LeaseTable, peer: PeerId, e: Envelope, now: nat): Ruling
    requires WellFormed(e)
  {
    var key := RequestKey(e);
    var owner := Owns(leases, key, peer, e.sessionId);
    var granted := leases[key := Lease(peer, e.sessionId, Expiry(e, now))];
    if e.operation == OP_RELEASE then
      if owner then Ruling(Released, leases - {key}) else Ruling(Refused(Unauthorized), leases)
    else if e.operation == OP_RENEW then
      if owner then Ruling(Controller, granted) else Ruling(Refused(Unauthorized), leases)
    else if e.operation == OP_CLAIM then
      if key !in leases || owner || DecodeRequest(e.payload).value.allowPreempt
      then Ruling(Controller, granted)
      else Ruling(Refused(Conflict), leases)
    else Ruling(Refused(InvalidArgument), leases)
  }

  /** Whether `runtime_handle_authority` takes the envelope at all. */
  predicate IsRequest(e: Envelope)
  {
    e.family.Authority? && e.operation != OP_STATUS
  }

  /** `runtime_handle_authority`. */
  function HandleRequest(leases: LeaseTable, peer: PeerId, e: Envelope, now: nat): Ruling
  {
    if !WellFormed(e) then Ruling(Refused(InvalidArgument), leases)
    else Rule(Unexpired(leases, RequestKey(e), now), peer, e, now)
  }

  // The gate

  /** Goals and cancels are the messages that need a lease. */
  predicate NeedsLease(e: Envelope)
  {
    e.family.Action? && (e.operation == ACTION_GOAL || e.operation == ACTION_CANCEL)
  }

  /** The scope an action is checked against; the resolver's empty answer means the profile. */
  function ActionScope(resolved: Bytes, e: Envelope): Bytes
  {
    if resolved != [] then resolved else e.typ.profileId
  }

  /** `runtime_action_authorized`. */
  predicate ActionAuthorized(leases: LeaseTable, resolved: Bytes, peer: PeerId, e: Envelope,
                             now: nat)
  {
    NeedsLease(e) ==>
      && e.target.scope.Entity?
      && |e.target.uids| == 1
      && HasAuthority(leases, LeaseKey(e.target.uids[0], ActionScope(resolved, e)), peer,
                      e.sessionId, now)
  }

  // Erasing leases

  /** `runtime_revoke_authority`: an empty list of entities means all of them. */
  function Revoked(leases: LeaseTable, peer: PeerId, session: u64, uids: seq<Bytes>): LeaseTable
  {
    map key | key in leases
              && !((uids == [] || key.entityUid in uids) && leases[key].peerId == peer
                   && leases[key].sessionId == session)
            :: leases[key]
  }

  /** `set_entities`: leases on entities that are no longer there go. */
  function Pruned(leases: LeaseTable, entityUids: seq<Bytes>): LeaseTable
  {
    map key | key in leases && key.entityUid in entityUids :: leases[key]
  }

  /** `runtime_drop_peer_state`: the leases of a lost peer go. */
  function WithoutHolder(leases: LeaseTable, peer: PeerId): LeaseTable
  {
    map key | key in leases && leases[key].peerId != peer :: leases[key]
  }

  /**
   The verdict in terms of who has authority at `now`, the erasure of expired leases aside: a
   Claim is granted to the holder, on a free key or by preempting, Renew and Release only to the
   holder, and each refusal has its own reason. A grant lasts at most an hour.
   */
  lemma VerdictMeans(leases: LeaseTable, peer: PeerId, e: Envelope, now: nat)
    ensures
      var v := HandleRequest(leases, peer, e, now).verdict;
      if !WellFormed(e) then v == Refused(InvalidArgument)
      else
        var key := RequestKey(e);
        var mine := HasAuthority(leases, key, peer, e.sessionId, now);
        var free := key !in leases || leases[key].expiresAt <= now;
        var preempt := DecodeRequest(e.payload).value.allowPreempt;
        && (v == Controller <==>
              (e.operation == OP_CLAIM && (free || mine || preempt))
              || (e.operation == OP_RENEW && mine))
        && (v == Released <==> e.operation == OP_RELEASE && mine)
        && (v == Refused(Conflict) <==> e.operation == OP_CLAIM && !free && !mine && !preempt)
        && (v == Refused(Unauthorized) <==>
              (e.operation == OP_RENEW || e.operation == OP_RELEASE) && !mine)
        && now < Expiry(e, now) <= now + MAX_LEASE_MS * TICKS_PER_MS
  {
    hide DecodeRequest;
  }

  /** The request payload, byte by byte: the scope behind its length, the milliseconds, the flag. */
  lemma RequestLayout(r: AuthorityRequest)
    requires |r.scope| <= 0xFFFF
    ensures EncodeRequest(r)
         == [|r.scope| % 256, |r.scope| / 256] + r.scope
            + [r.leaseTtlMs % 256, r.leaseTtlMs / 256 % 256, r.leaseTtlMs / 65536 % 256,
               r.leaseTtlMs / 16777216 % 256]
            + [if r.allowPreempt then 1 else 0]
  {
    assert Le(|r.scope|, 2) == [|r.scope| % 256] + Le(|r.scope| / 256, 1);
    var t := r.leaseTtlMs;
    assert Le(t, 4) == [t % 256] + Le(t / 256, 3);
    assert Le(t / 256, 3) == [t / 256 % 256] + Le(t / 65536, 2);
    assert Le(t / 65536, 2) == [t / 65536 % 256] + Le(t / 16777216, 1);
  }

  /** A request as it must be: one entity, a scope, and from one millisecond up to an hour. */
  predicate Asks(e: Envelope, r: AuthorityRequest)
  {
    && DecodeRequest(e.payload) == Some(r)
    && e.target.scope == Entity && |e.target.uids| == 1 && r.scope != []
    && 1 <= r.leaseTtlMs <= 3_600_000
  }

  /**
   A request in full: the status the requester is told and the table afterwards. Operation 1 is
   Claim, 2 Renew, 3 Release; an expired lease on the key is gone whatever is asked; a grant runs
   for the requested milliseconds from now.
   */
  lemma RequestExactly(leases: LeaseTable, peer: PeerId, e: Envelope, now: nat,
                       r: AuthorityRequest)
    ensures (forall x :: !Asks(e, x)) ==>
      HandleRequest(leases, peer, e, now) == Ruling(Refused(InvalidArgument), leases)
    ensures Asks(e, r) ==>
      var key := LeaseKey(e.target.uids[0], r.scope);
      var live := key in leases && leases[key].expiresAt > now;
      var mine := live && leases[key].peerId == peer && leases[key].sessionId == e.sessionId;
      var left := if live then leases else leases - {key};
      var grant := leases[key := Lease(peer, e.sessionId, now + r.leaseTtlMs * 1_000_000)];
      HandleRequest(leases, peer, e, now)
        == if e.operation == 1 then
             if !live || mine || r.allowPreempt then Ruling(Controller, grant)
             else Ruling(Refused(Conflict), left)
           else if e.operation == 2 then
             if mine then Ruling(Controller, grant) else Ruling(Refused(Unauthorized), left)
           else if e.operation == 3 then
             if mine then Ruling(Released, leases - {key})
             else Ruling(Refused(Unauthorized), left)
           else Ruling(Refused(InvalidArgument), left)
  {
    hide DecodeRequest;
    if WellFormed(e) {
      assert Asks(e, DecodeRequest(e.payload).value);
    }
    if Asks(e, r) {
      var key := LeaseKey(e.target.uids[0], r.scope);
      assert key !in leases ==> leases - {key} == leases;
      assert (leases - {key})[key := Lease(peer, e.sessionId, now + r.leaseTtlMs * 1_000_000)]
          == leases[key := Lease(peer, e.sessionId, now + r.leaseTtlMs * 1_000_000)];
    }
  }
}
