/**
 Session invariants over whole runs of a runtime, and what a delivered envelope says about the
 session it came through.
 */
module SessionSafety {
  import opened ByteLayout
  import opened Wire
  import opened SessionCodec
  import opened Sessions
  import opened Authority
  import opened RuntimeSteps

  /** Each entry is stored under its own peer and session id. */
  predicate KeysAgree(t: SessionTable)
  {
    forall key :: key in t ==> t[key].peerId == key.peerId && t[key].sessionId == key.sessionId
  }

  /** The event is a message of this session that reaches its entry. */
  predicate Reaches(event: Event, key: SessionKey)
  {
    && event.Receive? && event.envelope.family.Session?
    && event.envelope.operation != OP_LANE_BIND && event.envelope.operation != OP_LANE_READY
    && key == SessionKey(event.peer, event.envelope.sessionId)
  }

  /** The event erases the entry or starts it over. */
  predicate Resets(s: State, event: Event, key: SessionKey)
  {
    match event
    case Open(peer) => key == SessionKey(peer, s.nextSessionId)
    case Drop(peer) => key.peerId == peer
    case Stop => true
    case _ => false
  }

  /** The session table after one step, entry by entry. */
  lemma EntryStep(c: Config, s: State, event: Event, key: SessionKey)
    requires KeysAgree(s.sessions)
    ensures
      var t := Step(c, s, event).0.sessions;
      && KeysAgree(t)
      && (Reaches(event, key) ==>
            key in t
            && t[key] == AfterMessage(c.me, EntryAt(s.sessions, key), event.envelope))
      && (Resets(s, event, key) ==> (key in t ==> t[key] == FreshSession(key)))
      && (!Reaches(event, key) && !Resets(s, event, key) ==>
            (key in t <==> key in s.sessions)
            && (key in t ==> t[key] == s.sessions[key]))
  {
    hide HandleSession, HandleRequest, ActionAuthorized, Addressed, TypeSupported, Revoked, Pruned,
      WithoutHolder, ValidUids, AfterMessage, EntryAt, ReplyTo;
    if event.Receive? {
      MessageStep(c.me, s.sessions, event.peer, event.envelope, key);
    }
  }

  lemma MessageStep(me: Identity, t: SessionTable, peer: PeerId, e: Envelope, key: SessionKey)
    requires KeysAgree(t)
    ensures
      var t' := HandleSession(me, t, peer, e);
      var own := SessionKey(peer, e.sessionId);
      && KeysAgree(t')
      && (key == own ==> key in t' && t'[key] == AfterMessage(me, EntryAt(t, key), e))
      && (key != own ==> (key in t' <==> key in t) && (key in t' ==> t'[key] == t[key]))
  {
    hide AfterMessage, ReplyTo;
    MessageRules(me, EntryAt(t, SessionKey(peer, e.sessionId)), e);
  }

  /**
   A session message in full: operations 5 and 6 are for lanes and touch nothing here; any other
   one changes the entry of its peer and session, creating it if need be, and shows it with the
   reply.
   */
  lemma SessionMessageStep(c: Config, s: State, peer: PeerId, e: Envelope, now: nat)
    requires e.family == Session
    ensures
      var key := SessionKey(peer, e.sessionId);
      var met := EntryAt(s.sessions, key);
      var after := AfterMessage(c.me, met, e);
      Step(c, s, Receive(peer, e, now))
        == if e.operation == 5 || e.operation == 6 then (s, Nothing)
           else (s.(sessions := s.sessions[key := after]),
                 SessionChanged(after, ReplyTo(c.me, met, e)))
  {
    hide AfterMessage, ReplyTo, EntryAt;
  }

  lemma {:induction false} EveryKeyAgrees(c: Config, entities: seq<Bytes>, events: seq<Event>)
    ensures KeysAgree(Run(c, entities, events).sessions)
    decreases |events|
  {
    hide KeysAgree, Step;
    if events == [] {
      NoKeys();
    } else {
      var n := |events| - 1;
      var s := Run(c, entities, events[..n]);
      EveryKeyAgrees(c, entities, events[..n]);
      EntryStep(c, s, events[n], SessionKey([], 0));
    }
  }

  lemma NoKeys()
    ensures KeysAgree(map[])
  {
  }

  lemma EntryExists(s: State, key: SessionKey)
    requires KeysAgree(s.sessions)
    ensures key in s.sessions ==> EntryAt(s.sessions, key) == s.sessions[key]
    ensures key !in s.sessions ==>
      EntryAt(s.sessions, key)
        == SessionInfo(key.sessionId, key.peerId, [], Handshaking, false, map[], [])
  {
  }

  /**
   The rules of one entry at any point of any run, for any event that does not start the entry
   over: its uid once pinned stays; a mismatching source can only invalidate it; Invalid is left
   exactly by a correct secret from the pinned source; and Active is entered exactly from
   Negotiated by Ready from the pinned source.
   */
  lemma EntryRules(c: Config, entities: seq<Bytes>, events: seq<Event>, n: nat, key: SessionKey)
    requires n < |events|
    requires key in Before(c, entities, events, n).sessions
    requires !Resets(Before(c, entities, events, n), events[n], key)
    ensures key in Before(c, entities, events, n + 1).sessions
    ensures
      var info := Before(c, entities, events, n).sessions[key];
      var after := Before(c, entities, events, n + 1).sessions[key];
      var mine := Reaches(events[n], key);
      && (!mine ==> after == info)
      && (info.remoteUid != [] ==> after.remoteUid == info.remoteUid)
      && (mine && !FromPinnedSource(info, events[n].envelope.source.endpointUid) ==>
            after == info.(state := Invalid))
      && (info.state == Invalid && after.state != Invalid ==>
            mine && events[n].envelope.operation == OP_AUTHENTICATE
            && SecretAccepted(c.me, events[n].envelope)
            && FromPinnedSource(info, events[n].envelope.source.endpointUid))
      && (info.state != Active && after.state == Active ==>
            mine && events[n].envelope.operation == OP_READY && info.state == Negotiated
            && FromPinnedSource(info, events[n].envelope.source.endpointUid))
  {
    hide Run, Step, AfterMessage, ReplyTo, SecretAccepted, EntryAt, KeysAgree;
    var s := Before(c, entities, events, n);
    EveryKeyAgrees(c, entities, events[..n]);
    OneMoreStep(c, entities, events, n);
    EntryStep(c, s, events[n], key);
    EntryExists(s, key);
    if Reaches(events[n], key) {
      MessageRules(c.me, s.sessions[key], events[n].envelope);
    }
  }

  /** Nothing in events `i` to `n` starts the entry over. */
  predicate Kept(c: Config, entities: seq<Bytes>, events: seq<Event>, i: nat, n: nat,
                 key: SessionKey)
    requires n <= |events|
  {
    forall j :: i <= j < n ==> !Resets(Before(c, entities, events, j), events[j], key)
  }

  /** A pinned uid is the same at any later point, as long as the entry is not started over. */
  lemma {:induction false} PinnedForGood(c: Config, entities: seq<Bytes>, events: seq<Event>,
                                         i: nat, n: nat, key: SessionKey)
    requires i <= n <= |events| && Kept(c, entities, events, i, n, key)
    requires key in Before(c, entities, events, i).sessions
    requires Before(c, entities, events, i).sessions[key].remoteUid != []
    ensures key in Before(c, entities, events, n).sessions
    ensures Before(c, entities, events, n).sessions[key].remoteUid
         == Before(c, entities, events, i).sessions[key].remoteUid
    decreases n - i
  {
    hide Before, Resets, SecretAccepted, FromPinnedSource;
    if i < n {
      PinnedForGood(c, entities, events, i, n - 1, key);
      EntryRules(c, entities, events, n - 1, key);
    }
  }

  // The negotiated profiles

  /** The event brings a well-formed profile list to the entry. */
  predicate Lists(s: State, event: Event, key: SessionKey)
  {
    && Reaches(event, key)
    && event.envelope.operation == OP_PROFILES
    && FromPinnedSource(EntryAt(s.sessions, key), event.envelope.source.endpointUid)
    && DecodeProfileList(event.envelope.payload).Some?
  }

  /** The last profile list of the session since it was started; none is the empty list. */
  function LastList(c: Config, entities: seq<Bytes>, events: seq<Event>, key: SessionKey)
    : seq<ProfileDescriptor>
  {
    if events == [] then []
    else
      var n := |events| - 1;
      var s := Run(c, entities, events[..n]);
      if Resets(s, events[n], key) then []
      else if Lists(s, events[n], key) then DecodeProfileList(events[n].envelope.payload).value
      else LastList(c, entities, events[..n], key)
  }

  /** What an entry holds is what negotiation makes of this list. */
  predicate Agrees(c: Config, t: SessionTable, key: SessionKey, list: seq<ProfileDescriptor>)
  {
    var a := Negotiate(c.me.profiles, list);
    if key in t then t[key].negotiated == a.negotiated && t[key].rejected == a.rejected
    else list == []
  }

  lemma MessageNegotiates(me: Identity, info: SessionInfo, e: Envelope)
    ensures
      var after := AfterMessage(me, info, e);
      if e.operation == OP_PROFILES && FromPinnedSource(info, e.source.endpointUid)
         && DecodeProfileList(e.payload).Some?
      then
        var a := Negotiate(me.profiles, DecodeProfileList(e.payload).value);
        after.negotiated == a.negotiated && after.rejected == a.rejected
      else after.negotiated == info.negotiated && after.rejected == info.rejected
  {
    hide DecodeText, DecodeProfileList, Negotiate;
  }

  lemma FreshAgrees(c: Config, t: SessionTable, key: SessionKey)
    ensures key in t && t[key] == FreshSession(key) ==> Agrees(c, t, key, [])
    ensures key !in t ==> Agrees(c, t, key, [])
  {
  }

  /**
   At every point of every run, the negotiated and rejected profiles of a session are exactly
   what negotiation makes of the last well-formed profile list it received since it started.
   */
  lemma {:induction false} NegotiatedIsLast(c: Config, entities: seq<Bytes>, events: seq<Event>,
                                            key: SessionKey)
    ensures Agrees(c, Run(c, entities, events).sessions, key, LastList(c, entities, events, key))
    decreases |events|
  {
    hide Step, AfterMessage, DecodeProfileList, Negotiate, Resets, EntryAt, KeysAgree;
    if events == [] {
      FreshAgrees(c, map[], key);
    } else {
      var n := |events| - 1;
      var s := Run(c, entities, events[..n]);
      NegotiatedIsLast(c, entities, events[..n], key);
      EveryKeyAgrees(c, entities, events[..n]);
      EntryStep(c, s, events[n], key);
      EntryExists(s, key);
      FreshAgrees(c, s.sessions, key);
      FreshAgrees(c, Step(c, s, events[n]).0.sessions, key);
      if Reaches(events[n], key) {
        ResetsNothing(s, events[n], key);
        MessageNegotiates(c.me, EntryAt(s.sessions, key), events[n].envelope);
        FreshNegotiates(c, key);
      }
    }
  }

  lemma ResetsNothing(s: State, event: Event, key: SessionKey)
    requires Reaches(event, key)
    ensures !Resets(s, event, key)
  {
  }

  lemma FreshNegotiates(c: Config, key: SessionKey)
    ensures Negotiate(c.me.profiles, []) == Agreement(map[], [])
    ensures FreshSession(key).negotiated == map[] && FreshSession(key).rejected == []
  {
  }

  // Delivery

  /**
   A delivered envelope came through an active session of its peer, from the uid pinned there,
   addressed to this runtime; and its type is built in or supported by what was negotiated from
   the last profile list of that session.
   */
  lemma DeliveredThroughSession(c: Config, entities: seq<Bytes>, events: seq<Event>, n: nat)
    requires n < |events|
    requires OutcomeOf(c, entities, events, n).Delivered?
    ensures events[n].Receive?
    ensures
      var s, e := Before(c, entities, events, n), events[n].envelope;
      var key := SessionKey(events[n].peer, e.sessionId);
      && OutcomeOf(c, entities, events, n) == Delivered(e)
      && key in s.sessions && s.sessions[key].state == Active
      && s.sessions[key].remoteUid == e.source.endpointUid
      && e.target.Matches(c.me.endpointUid, s.entityUids, c.groupUids)
      && (e.typ.profileId == CORE_PROFILE
          || var m := Negotiate(c.me.profiles, LastList(c, entities, events[..n], key)).negotiated;
             && e.typ.profileId in m && m[e.typ.profileId].major == e.typ.major
             && m[e.typ.profileId].minor >= e.typ.minor)
  {
    hide Run, Negotiate, HandleRequest, ActionAuthorized, LastList, HandleSession, ReplyTo,
      ValidUids, Revoked, Pruned, WithoutHolder;
    assert events[n].Receive?;
    var key := SessionKey(events[n].peer, events[n].envelope.sessionId);
    NegotiatedIsLast(c, entities, events[..n], key);
  }

  // Active without a secret

  /** Profiles and then Ready, from a peer that never sent its secret. */
  function Unauthenticated(peer: PeerId, profiles: Envelope, ready: Envelope): seq<Event>
  {
    [Receive(peer, profiles, 0), Receive(peer, ready, 0)]
  }

  /**
   Active does not mean that a secret was checked. On a session that nobody opened, a
   well-formed profile list followed by Ready from the same source makes the entry Active and
   marks it authenticated, whatever the configured secret is.
   */
  lemma ActiveWithoutSecret(c: Config, entities: seq<Bytes>, peer: PeerId, profiles: Envelope,
                            ready: Envelope)
    requires profiles.family.Session? && profiles.operation == OP_PROFILES
    requires DecodeProfileList(profiles.payload).Some?
    requires ready.family.Session? && ready.operation == OP_READY
    requires ready.sessionId == profiles.sessionId && ready.source == profiles.source
    ensures
      var key := SessionKey(peer, profiles.sessionId);
      var t := Run(c, entities, Unauthenticated(peer, profiles, ready)).sessions;
      key in t && t[key].state == Active && t[key].authenticated
  {
    hide DecodeProfileList, Negotiate;
    var events := Unauthenticated(peer, profiles, ready);
    var key := SessionKey(peer, profiles.sessionId);
    assert events[..0] == [];
    OneMoreStep(c, entities, events, 0);
    OneMoreStep(c, entities, events, 1);
    WholeRun(c, entities, events);
    hide Run;
    assert Before(c, entities, events, 1).sessions
        == map[key := OnProfiles(c.me, FreshSession(key).(remoteUid := profiles.source.endpointUid),
                                 profiles)];
  }

  /** Nothing in events `i` to `n` brings the correct secret to the entry. */
  predicate Unproved(c: Config, entities: seq<Bytes>, events: seq<Event>, i: nat, n: nat,
                     key: SessionKey)
    requires n <= |events|
  {
    forall j :: i <= j < n ==> !Proves(c, Before(c, entities, events, j), events[j], key)
  }

  /** The event brings the correct secret to the entry, from the pinned source. */
  predicate Proves(c: Config, s: State, event: Event, key: SessionKey)
  {
    && Reaches(event, key)
    && event.envelope.operation == OP_AUTHENTICATE
    && FromPinnedSource(EntryAt(s.sessions, key), event.envelope.source.endpointUid)
    && SecretAccepted(c.me, event.envelope)
  }

  /** An invalid session stays invalid until the correct secret arrives. */
  lemma {:induction false} InvalidUntilProved(c: Config, entities: seq<Bytes>,
                                              events: seq<Event>, i: nat, n: nat,
                                              key: SessionKey)
    requires i <= n <= |events| && Kept(c, entities, events, i, n, key)
    requires Unproved(c, entities, events, i, n, key)
    requires key in Before(c, entities, events, i).sessions
    requires Before(c, entities, events, i).sessions[key].state == Invalid
    ensures key in Before(c, entities, events, n).sessions
    ensures Before(c, entities, events, n).sessions[key].state == Invalid
    decreases n - i
  {
    hide Run, Resets, SecretAccepted, FromPinnedSource, EntryAt, KeysAgree;
    if i < n {
      InvalidUntilProved(c, entities, events, i, n - 1, key);
      EntryRules(c, entities, events, n - 1, key);
      EveryKeyAgrees(c, entities, events[..n - 1]);
      EntryExists(Before(c, entities, events, n - 1), key);
      assert !Proves(c, Before(c, entities, events, n - 1), events[n - 1], key);
    }
  }

  // What the flag is worth

  /** The event makes the entry Active. */
  predicate Activates(s: State, event: Event, key: SessionKey)
  {
    && Reaches(event, key)
    && event.envelope.operation == OP_READY
    && FromPinnedSource(EntryAt(s.sessions, key), event.envelope.source.endpointUid)
    && EntryAt(s.sessions, key).state == Negotiated
  }

  /** The correct secret arrived since the session was started. */
  predicate ProvedSince(c: Config, entities: seq<Bytes>, events: seq<Event>, key: SessionKey)
  {
    events != []
    && var n := |events| - 1;
       var s := Run(c, entities, events[..n]);
       !Resets(s, events[n], key)
       && (Proves(c, s, events[n], key) || ProvedSince(c, entities, events[..n], key))
  }

  /** The session was made Active since it was started. */
  predicate ActivatedSince(c: Config, entities: seq<Bytes>, events: seq<Event>, key: SessionKey)
  {
    events != []
    && var n := |events| - 1;
       var s := Run(c, entities, events[..n]);
       !Resets(s, events[n], key)
       && (Activates(s, events[n], key) || ActivatedSince(c, entities, events[..n], key))
  }

  /** The flag against the two histories; an entry that is not there has neither. */
  predicate FlagFits(t: SessionTable, key: SessionKey, history: bool)
  {
    if key in t then
      && (t[key].authenticated ==> history)
      && (history && t[key].state != Invalid ==> t[key].authenticated)
    else !history
  }

  lemma MessageFlag(me: Identity, info: SessionInfo, e: Envelope)
    ensures
      var after := AfterMessage(me, info, e);
      var pinned := FromPinnedSource(info, e.source.endpointUid);
      var proves := pinned && e.operation == OP_AUTHENTICATE && SecretAccepted(me, e);
      var activates := pinned && e.operation == OP_READY && info.state == Negotiated;
      && (proves || activates ==> after.authenticated && after.state != Invalid)
      && (!proves && !activates ==>
            && (after.authenticated ==> info.authenticated)
            && (after.state != Invalid ==>
                  info.state != Invalid && after.authenticated == info.authenticated))
  {
    hide DecodeText, DecodeProfileList, Negotiate;
  }

  /**
   What the flag says of a session that is not Invalid: that the correct secret arrived since
   the session started, or that the session was already made Active once. So when Ready makes a
   session Active for the first time, the secret was checked if and only if the flag was set
   before Ready arrived.
   */
  lemma {:induction false} FlagMeans(c: Config, entities: seq<Bytes>, events: seq<Event>,
                                     key: SessionKey)
    ensures FlagFits(Run(c, entities, events).sessions, key,
                     ProvedSince(c, entities, events, key)
                     || ActivatedSince(c, entities, events, key))
    decreases |events|
  {
    hide Step, AfterMessage, SecretAccepted, FromPinnedSource, EntryAt, KeysAgree, Resets;
    if events != [] {
      var n := |events| - 1;
      var s := Run(c, entities, events[..n]);
      FlagMeans(c, entities, events[..n], key);
      EveryKeyAgrees(c, entities, events[..n]);
      EntryStep(c, s, events[n], key);
      EntryExists(s, key);
      if Reaches(events[n], key) {
        ResetsNothing(s, events[n], key);
        MessageFlag(c.me, EntryAt(s.sessions, key), events[n].envelope);
      }
    }
  }

  /** The first activation of a session, exactly. */
  lemma FirstActivation(c: Config, entities: seq<Bytes>, events: seq<Event>, n: nat,
                        key: SessionKey)
    requires n < |events|
    requires Activates(Before(c, entities, events, n), events[n], key)
    requires !ActivatedSince(c, entities, events[..n], key)
    ensures ProvedSince(c, entities, events[..n], key)
       <==> EntryAt(Before(c, entities, events, n).sessions, key).authenticated
  {
    hide Run, ProvedSince, ActivatedSince, FromPinnedSource;
    FlagMeans(c, entities, events[..n], key);
  }
}
