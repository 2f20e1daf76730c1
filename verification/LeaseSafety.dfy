/**
 Leases over whole runs: who holds authority is exactly determined by what was granted and what
 ended it, so actions are delivered only to holders and nobody else can be granted a held lease
 without preempting.
 */
module LeaseSafety {
  import opened ByteLayout
  import opened Wire
  import opened Sessions
  import opened Authority
  import opened RuntimeSteps

  /** The event is a Claim or Renew for `key`, answered with "controller". */
  ghost predicate Grants(c: Config, s: State, event: Event, key: LeaseKey, lease: Lease)
  {
    && event.Receive?
    && !event.envelope.family.Session?
    && IsRequest(event.envelope)
    && WellFormed(event.envelope)
    && Step(c, s, event).1 == Status(Controller)
    && key == RequestKey(event.envelope)
    && lease == Lease(event.peer, event.envelope.sessionId, Expiry(event.envelope, event.now))
  }

  /** The event is a Release of `key` by this holder, answered with "released". */
  ghost predicate Releases(c: Config, s: State, event: Event, key: LeaseKey, lease: Lease)
  {
    && event.Receive?
    && !event.envelope.family.Session?
    && IsRequest(event.envelope)
    && WellFormed(event.envelope)
    && Step(c, s, event).1 == Status(Released)
    && key == RequestKey(event.envelope)
    && event.peer == lease.peerId && event.envelope.sessionId == lease.sessionId
  }

  /** The event grants `key` to anyone, the holder included. */
  ghost predicate Regrants(c: Config, s: State, event: Event, key: LeaseKey)
  {
    exists lease :: Grants(c, s, event, key, lease)
  }

  /** Everything that takes a lease from its holder before it expires. */
  ghost predicate Ends(c: Config, s: State, event: Event, key: LeaseKey, lease: Lease)
  {
    match event
    case Receive(_, _, _) =>
      Releases(c, s, event, key, lease) || Regrants(c, s, event, key)
    case Open(_) => false
    case SetEntities(uids) => ValidUids(uids) && key.entityUid !in uids
    case Revoke(peer, session, uids) =>
      && peer == lease.peerId && session == lease.sessionId
      && (uids == [] || key.entityUid in uids)
    case Drop(peer) => peer == lease.peerId
    case Stop => true
  }

  // One request

  /** Exactly what a request does to the lease of one key. */
  lemma RequestEffect(leases: LeaseTable, peer: PeerId, e: Envelope, now: nat, key: LeaseKey)
    requires IsRequest(e)
    ensures
      var r := HandleRequest(leases, peer, e, now);
      var mine := WellFormed(e) && key == RequestKey(e);
      && (mine && r.verdict == Controller ==>
            key in r.leases && r.leases[key] == Lease(peer, e.sessionId, Expiry(e, now)))
      && (mine && r.verdict == Released ==>
            key !in r.leases && Owns(leases, key, peer, e.sessionId))
      && (!mine || r.verdict.Refused? ==>
            && (key in r.leases ==> key in leases && r.leases[key] == leases[key])
            && (key in leases && key !in r.leases ==> leases[key].expiresAt <= now))
  {
    hide DecodeRequest;
  }

  /** A held lease is not granted to anyone else without preempting. */
  lemma HeldIsRefused(leases: LeaseTable, peer: PeerId, e: Envelope, now: nat, key: LeaseKey)
    requires IsRequest(e) && WellFormed(e) && key == RequestKey(e)
    requires key in leases && now < leases[key].expiresAt
    requires leases[key].peerId != peer || leases[key].sessionId != e.sessionId
    requires e.operation == OP_CLAIM ==> !DecodeRequest(e.payload).value.allowPreempt
    ensures HandleRequest(leases, peer, e, now).verdict.Refused?
    ensures HandleRequest(leases, peer, e, now).leases == leases
  {
    hide DecodeRequest;
  }

  // One step

  lemma ReceiveGrant(c: Config, s: State, event: Event, key: LeaseKey)
    requires event.Receive? && !event.envelope.family.Session?
    ensures
      var e := event.envelope;
      Regrants(c, s, event, key) <==>
        IsRequest(e) && WellFormed(e) && Step(c, s, event).1 == Status(Controller)
        && key == RequestKey(e)
  {
    hide Step, DecodeRequest;
    var e := event.envelope;
    if IsRequest(e) && WellFormed(e) && Step(c, s, event).1 == Status(Controller)
       && key == RequestKey(e)
    {
      assert Grants(c, s, event, key, Lease(event.peer, e.sessionId, Expiry(e, event.now)));
    }
  }

  /** What one step can leave behind, and what it must. */
  lemma StepEffect(c: Config, s: State, event: Event, key: LeaseKey)
    ensures
      var t := Step(c, s, event).0;
      && (key in t.leases ==>
            || Grants(c, s, event, key, t.leases[key])
            || (key in s.leases && s.leases[key] == t.leases[key]
                && !Ends(c, s, event, key, s.leases[key])))
      && (key in s.leases && !Ends(c, s, event, key, s.leases[key])
          && (event.Receive? ==> event.now < s.leases[key].expiresAt) ==>
            key in t.leases && t.leases[key] == s.leases[key])
      && (forall lease :: Grants(c, s, event, key, lease) ==>
            key in t.leases && t.leases[key] == lease)
  {
    if event.Receive? {
      ReceiveEffect(c, s, event, key);
    }
  }

  lemma ReceiveEffect(c: Config, s: State, event: Event, key: LeaseKey)
    requires event.Receive?
    ensures
      var t := Step(c, s, event).0;
      && (key in t.leases ==>
            || Grants(c, s, event, key, t.leases[key])
            || (key in s.leases && s.leases[key] == t.leases[key]
                && !Ends(c, s, event, key, s.leases[key])))
      && (key in s.leases && !Ends(c, s, event, key, s.leases[key])
          && event.now < s.leases[key].expiresAt ==>
            key in t.leases && t.leases[key] == s.leases[key])
      && (forall lease :: Grants(c, s, event, key, lease) ==>
            key in t.leases && t.leases[key] == lease)
  {
    hide HandleRequest, Addressed, TypeSupported, ActionAuthorized, WellFormed, HandleSession,
      ReplyTo, EntryAt;
    var e := event.envelope;
    if e.family.Session? {
      assert Step(c, s, event).0.leases == s.leases;
    } else {
      ReceiveGrant(c, s, event, key);
      if IsRequest(e) {
        RequestEffect(s.leases, event.peer, e, event.now, key);
      }
    }
  }

  // Whole runs

  /** Event `i` granted `lease` for `key`, and nothing ended it since. */
  ghost predicate Standing(c: Config, entities: seq<Bytes>, events: seq<Event>, i: nat, key: LeaseKey,
                     lease: Lease)
  {
    && i < |events|
    && Grants(c, Before(c, entities, events, i), events[i], key, lease)
    && forall j :: i < j < |events| ==>
         !Ends(c, Before(c, entities, events, j), events[j], key, lease)
  }

  lemma StandingInit(c: Config, entities: seq<Bytes>, events: seq<Event>, i: nat, key: LeaseKey,
                     lease: Lease)
    requires events != []
    ensures
      var n := |events| - 1;
      var s := Run(c, entities, events[..n]);
      && (i < n ==>
            (Standing(c, entities, events, i, key, lease)
             <==> Standing(c, entities, events[..n], i, key, lease)
                  && !Ends(c, s, events[n], key, lease)))
      && (i == n ==>
            (Standing(c, entities, events, i, key, lease)
             <==> Grants(c, s, events[n], key, lease)))
  {
    hide Grants, Ends, Run;
    var n := |events| - 1;
    assert forall j :: 0 <= j <= n ==> events[..n][..j] == events[..j];
  }

  /** A lease in the table stands on a grant. */
  lemma {:induction false} LeaseHasGrant(c: Config, entities: seq<Bytes>, events: seq<Event>,
                                         key: LeaseKey)
    returns (i: nat)
    requires key in Run(c, entities, events).leases
    ensures Standing(c, entities, events, i, key, Run(c, entities, events).leases[key])
    decreases |events|
  {
    hide Grants, Ends, Step, Standing;
    var n := |events| - 1;
    var s := Run(c, entities, events[..n]);
    var lease := Run(c, entities, events).leases[key];
    StepEffect(c, s, events[n], key);
    if Grants(c, s, events[n], key, lease) {
      i := n;
    } else {
      i := LeaseHasGrant(c, entities, events[..n], key);
      assert i < n by { StandingIndex(c, entities, events[..n], i, key, lease); }
    }
    StandingInit(c, entities, events, i, key, lease);
  }

  lemma StandingIndex(c: Config, entities: seq<Bytes>, events: seq<Event>, i: nat, key: LeaseKey,
                      lease: Lease)
    requires Standing(c, entities, events, i, key, lease)
    ensures i < |events|
  {
  }

  /** Every envelope after `i` came before the lease expires. */
  ghost predicate InTime(events: seq<Event>, i: nat, expiresAt: nat)
  {
    forall j :: i < j < |events| && events[j].Receive? ==> events[j].now < expiresAt
  }

  /** A standing grant is in the table until it expires. */
  lemma {:induction false} GrantStays(c: Config, entities: seq<Bytes>, events: seq<Event>, i: nat,
                                      key: LeaseKey, lease: Lease)
    requires Standing(c, entities, events, i, key, lease)
    requires InTime(events, i, lease.expiresAt)
    ensures
      var leases := Run(c, entities, events).leases;
      key in leases && leases[key] == lease
    decreases |events|
  {
    hide Grants, Ends, Step, Standing;
    StandingIndex(c, entities, events, i, key, lease);
    StandingInit(c, entities, events, i, key, lease);
    var n := |events| - 1;
    StepEffect(c, Run(c, entities, events[..n]), events[n], key);
    if i < n {
      GrantStays(c, entities, events[..n], i, key, lease);
    }
  }

  /** Some earlier event gave this peer and session the lease, and it still stands. */
  ghost predicate Entitled(c: Config, entities: seq<Bytes>, events: seq<Event>, key: LeaseKey,
                     peer: PeerId, session: u64, now: nat)
  {
    exists i: nat, expiresAt: nat ::
      Standing(c, entities, events, i, key, Lease(peer, session, expiresAt)) && now < expiresAt
  }

  /**
   Authority, exactly. After any run, with a clock that has not gone back, a peer and session
   have authority at `now` if and only if they were granted it by a Claim or Renew whose expiry
   is still ahead, and no later grant, release, revocation, removal of the entity, loss of the
   peer or stop took it from them.
   */
  lemma AuthorityExactly(c: Config, entities: seq<Bytes>, events: seq<Event>, key: LeaseKey,
                         peer: PeerId, session: u64, now: nat)
    requires forall j :: 0 <= j < |events| && events[j].Receive? ==> events[j].now <= now
    ensures HasAuthority(Run(c, entities, events).leases, key, peer, session, now)
       <==> Entitled(c, entities, events, key, peer, session, now)
  {
    hide Standing, Run;
    var leases := Run(c, entities, events).leases;
    if HasAuthority(leases, key, peer, session, now) {
      var i := LeaseHasGrant(c, entities, events, key);
      assert leases[key] == Lease(peer, session, leases[key].expiresAt);
    }
    if Entitled(c, entities, events, key, peer, session, now) {
      var i: nat, x: nat :|
        Standing(c, entities, events, i, key, Lease(peer, session, x)) && now < x;
      GrantStays(c, entities, events, i, key, Lease(peer, session, x));
    }
  }

  /** The key an action is checked against: its one entity, and the resolver's scope or, where
      that is empty, the profile of its type. */
  function ActionKey(c: Config, e: Envelope): LeaseKey
    requires |e.target.uids| == 1
  {
    LeaseKey(e.target.uids[0],
             if c.resolver(e.typ) == [] then e.typ.profileId else c.resolver(e.typ))
  }

  /**
   Lease safety. Whenever a Goal or Cancel is delivered to the subscribers, in any run, its
   sender is entitled to the entity and scope at that moment, on the same peer and session.
   */
  lemma DeliveredActionHolds(c: Config, entities: seq<Bytes>, events: seq<Event>, n: nat)
    requires n < |events| && Monotonic(events)
    requires events[n].Receive? && events[n].envelope.family == Action
    requires events[n].envelope.operation == 1 || events[n].envelope.operation == 3
    requires OutcomeOf(c, entities, events, n) == Delivered(events[n].envelope)
    ensures
      var e := events[n].envelope;
      && e.target.scope.Entity? && |e.target.uids| == 1
      && Entitled(c, entities, events[..n],
                  ActionKey(c, e),
                  events[n].peer, e.sessionId, events[n].now)
  {
    hide Run, Addressed, TypeSupported, Entitled;
    var e, peer := events[n].envelope, events[n].peer;
    var key := ActionKey(c, e);
    AuthorityExactly(c, entities, events[..n], key, peer, e.sessionId, events[n].now);
  }

  /**
   And conversely: an entitled sender's action passes the lease gate, whatever happened to
   anyone else.
   */
  lemma EntitledActionPasses(c: Config, entities: seq<Bytes>, events: seq<Event>, n: nat)
    requires n < |events| && Monotonic(events)
    requires events[n].Receive? && events[n].envelope.family == Action
    requires events[n].envelope.operation == 1 || events[n].envelope.operation == 3
    requires
      var e := events[n].envelope;
      && e.target.scope.Entity? && |e.target.uids| == 1
      && Entitled(c, entities, events[..n],
                  ActionKey(c, e),
                  events[n].peer, e.sessionId, events[n].now)
    ensures
      var s, e := Before(c, entities, events, n), events[n].envelope;
      OutcomeOf(c, entities, events, n)
        == if !Addressed(c, s, events[n].peer, e) then Blocked(Unauthorized)
           else if !TypeSupported(s.sessions[SessionKey(events[n].peer, e.sessionId)], e.typ)
           then Blocked(Unsupported)
           else Delivered(e)
  {
    hide Run, TypeSupported, Entitled;
    var e, peer := events[n].envelope, events[n].peer;
    var key := ActionKey(c, e);
    AuthorityExactly(c, entities, events[..n], key, peer, e.sessionId, events[n].now);
  }

  /**
   Exclusion. While one peer and session are entitled to a key, no other is granted it without
   preempting, and the attempt changes no lease.
   */
  lemma NoForeignGrant(c: Config, entities: seq<Bytes>, events: seq<Event>, n: nat, key: LeaseKey,
                       peer: PeerId, session: u64)
    requires n < |events| && Monotonic(events) && events[n].Receive?
    requires Entitled(c, entities, events[..n], key, peer, session, events[n].now)
    requires IsRequest(events[n].envelope) && WellFormed(events[n].envelope)
    requires key == RequestKey(events[n].envelope)
    requires events[n].peer != peer || events[n].envelope.sessionId != session
    requires events[n].envelope.operation == OP_CLAIM ==>
      !DecodeRequest(events[n].envelope.payload).value.allowPreempt
    ensures OutcomeOf(c, entities, events, n) != Status(Controller)
    ensures OutcomeOf(c, entities, events, n) != Status(Released)
    ensures Before(c, entities, events, n + 1).leases == Before(c, entities, events, n).leases
  {
    hide Run, Addressed, TypeSupported, Entitled, DecodeRequest;
    var s, e := Before(c, entities, events, n), events[n].envelope;
    AuthorityExactly(c, entities, events[..n], key, peer, session, events[n].now);
    HeldIsRefused(s.leases, events[n].peer, e, events[n].now, key);
    OneMoreStep(c, entities, events, n);
  }

  /** At most one peer and session are entitled to a key at a time. */
  lemma OneHolder(c: Config, entities: seq<Bytes>, events: seq<Event>, key: LeaseKey,
                  peer: PeerId, session: u64, peer': PeerId, session': u64, now: nat)
    requires forall j :: 0 <= j < |events| && events[j].Receive? ==> events[j].now <= now
    requires Entitled(c, entities, events, key, peer, session, now)
    requires Entitled(c, entities, events, key, peer', session', now)
    ensures peer == peer' && session == session'
  {
    hide Run, Entitled;
    AuthorityExactly(c, entities, events, key, peer, session, now);
    AuthorityExactly(c, entities, events, key, peer', session', now);
  }

  /** The envelope passes the session and profile checks at event `n`. */
  ghost predicate Admitted(c: Config, entities: seq<Bytes>, events: seq<Event>, n: nat)
    requires n < |events|
  {
    && events[n].Receive? && !events[n].envelope.family.Session?
    && var s, e := Before(c, entities, events, n), events[n].envelope;
       && Addressed(c, s, events[n].peer, e)
       && TypeSupported(s.sessions[SessionKey(events[n].peer, e.sessionId)], e.typ)
  }

  /** Everyone entitled to the key is this peer and session. */
  ghost predicate EntitledOnly(c: Config, entities: seq<Bytes>, earlier: seq<Event>, key: LeaseKey,
                               peer: PeerId, session: u64, now: nat)
  {
    forall p: PeerId, s: u64 ::
      Entitled(c, entities, earlier, key, p, s, now) ==> p == peer && s == session
  }

  /** The verdict an admitted request gets, from who has authority now. */
  lemma RequestOutcome(c: Config, entities: seq<Bytes>, events: seq<Event>, n: nat)
    requires n < |events| && Admitted(c, entities, events, n) && IsRequest(events[n].envelope)
    ensures
      var r := HandleRequest(Before(c, entities, events, n).leases, events[n].peer,
                             events[n].envelope, events[n].now);
      && OutcomeOf(c, entities, events, n) == Status(r.verdict)
      && Before(c, entities, events, n + 1).leases == r.leases
  {
    hide Run, Addressed, TypeSupported, HandleRequest;
    OneMoreStep(c, entities, events, n);
  }

  /**
   Exclusion, exactly. An admitted claim that does not preempt is granted if and only if nobody
   but the requester is entitled to the key at that moment.
   */
  lemma ClaimGrantedExactly(c: Config, entities: seq<Bytes>, events: seq<Event>, n: nat)
    requires n < |events| && Monotonic(events) && Admitted(c, entities, events, n)
    requires IsRequest(events[n].envelope) && WellFormed(events[n].envelope)
    requires events[n].envelope.operation == OP_CLAIM
    requires !DecodeRequest(events[n].envelope.payload).value.allowPreempt
    ensures OutcomeOf(c, entities, events, n) == Status(Controller)
       <==> EntitledOnly(c, entities, events[..n], RequestKey(events[n].envelope), events[n].peer,
                         events[n].envelope.sessionId, events[n].now)
  {
    hide Run, Addressed, TypeSupported, Entitled, HandleRequest, DecodeRequest, WellFormed;
    var s, e, now := Before(c, entities, events, n), events[n].envelope, events[n].now;
    var key := RequestKey(e);
    RequestOutcome(c, entities, events, n);
    VerdictMeans(s.leases, events[n].peer, e, now);
    forall p: PeerId, id: u64
      ensures HasAuthority(s.leases, key, p, id, now)
         <==> Entitled(c, entities, events[..n], key, p, id, now)
    {
      AuthorityExactly(c, entities, events[..n], key, p, id, now);
    }
    if key in s.leases && s.leases[key].expiresAt > now {
      assert HasAuthority(s.leases, key, s.leases[key].peerId, s.leases[key].sessionId, now);
    }
  }

  /** An admitted Renew or Release succeeds if and only if the requester is entitled. */
  lemma HolderRequestExactly(c: Config, entities: seq<Bytes>, events: seq<Event>, n: nat)
    requires n < |events| && Monotonic(events) && Admitted(c, entities, events, n)
    requires IsRequest(events[n].envelope) && WellFormed(events[n].envelope)
    requires events[n].envelope.operation == OP_RENEW || events[n].envelope.operation == OP_RELEASE
    ensures
      var e := events[n].envelope;
      var entitled := Entitled(c, entities, events[..n], RequestKey(e), events[n].peer,
                               e.sessionId, events[n].now);
      OutcomeOf(c, entities, events, n)
        == if !entitled then Status(Refused(Unauthorized))
           else if e.operation == OP_RENEW then Status(Controller) else Status(Released)
  {
    hide Run, Addressed, TypeSupported, Entitled, HandleRequest, DecodeRequest, WellFormed;
    var s, e, now := Before(c, entities, events, n), events[n].envelope, events[n].now;
    RequestOutcome(c, entities, events, n);
    VerdictMeans(s.leases, events[n].peer, e, now);
    AuthorityExactly(c, entities, events[..n], RequestKey(e), events[n].peer, e.sessionId, now);
  }

  /**
   A holder's own Renew can cut its lease short. With a grant that stands beyond the moment of
   the claim, a Renew by the same holder whose own expiry is no later than that moment lets a
   foreign claim that does not preempt succeed before the old expiry.
   */
  lemma RenewCanShorten(c: Config, entities: seq<Bytes>, events: seq<Event>, n: nat, key: LeaseKey)
    requires n + 2 == |events| && Monotonic(events)
    requires Admitted(c, entities, events, n) && Admitted(c, entities, events, n + 1)
    requires
      var renew, claim := events[n].envelope, events[n + 1].envelope;
      && IsRequest(renew) && WellFormed(renew) && key == RequestKey(renew)
      && renew.operation == OP_RENEW
      && IsRequest(claim) && WellFormed(claim) && key == RequestKey(claim)
      && claim.operation == OP_CLAIM && !DecodeRequest(claim.payload).value.allowPreempt
      && Expiry(renew, events[n].now) <= events[n + 1].now
    requires Entitled(c, entities, events[..n], key, events[n].peer, events[n].envelope.sessionId,
                      events[n + 1].now)
    ensures OutcomeOf(c, entities, events, n) == Status(Controller)
    ensures OutcomeOf(c, entities, events, n + 1) == Status(Controller)
  {
    hide Run, Entitled, HandleRequest, DecodeRequest, Addressed, TypeSupported, WellFormed;
    var s, renew := Before(c, entities, events, n), events[n].envelope;
    var t1, t2 := events[n].now, events[n + 1].now;
    AuthorityExactly(c, entities, events[..n], key, events[n].peer, renew.sessionId, t2);
    RequestOutcome(c, entities, events, n);
    RequestOutcome(c, entities, events, n + 1);
    VerdictMeans(s.leases, events[n].peer, renew, t1);
    RequestEffect(s.leases, events[n].peer, renew, t1, key);
    VerdictMeans(Before(c, entities, events, n + 1).leases, events[n + 1].peer,
                 events[n + 1].envelope, t2);
  }
}
