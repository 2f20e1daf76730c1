/**
 The runtime as the program updates it: the session and lease tables are fields that the
 handlers look up, overwrite and erase from. Each method is one step of `RuntimeSteps`.
 */
module RuntimeObjects {
  import opened ByteLayout
  import opened Wire
  import opened SessionCodec
  import opened Sessions
  import opened Authority
  import opened RuntimeSteps
  import opened LeaseSafety

  /** The search of the Profiles branch for the local profile with the remote id. */
  method FindLocal(profiles: seq<ProfileDescriptor>, id: Bytes)
    returns (found: Option<ProfileDescriptor>)
    ensures found == FindProfile(profiles, id)
  {
    for i := 0 to |profiles|
      invariant FindProfile(profiles, id) == FindProfile(profiles[i..], id)
    {
      assert profiles[i..][1..] == profiles[i + 1..];
      if profiles[i].profileId == id {
        return Some(profiles[i]);
      }
    }
    return None;
  }

  /** The loop of the Profiles branch over the remote profiles. */
  method NegotiateLists(local: seq<ProfileDescriptor>, remote: seq<ProfileDescriptor>)
    returns (negotiated: map<Bytes, ProfileDescriptor>, rejected: seq<Bytes>)
    ensures Agreement(negotiated, rejected) == Negotiate(local, remote)
  {
    negotiated, rejected := map[], [];
    assert remote[..0] == [];
    for i := 0 to |remote|
      invariant Agreement(negotiated, rejected) == Negotiate(local, remote[..i])
    {
      assert remote[..i + 1][..i] == remote[..i];
      var mine := FindLocal(local, remote[i].profileId);
      if mine.None? {
        rejected := rejected + [remote[i].profileId];
        continue;
      }
      var agreed := NegotiateProfile(mine.value, remote[i]);
      if agreed.None? {
        rejected := rejected + [remote[i].profileId];
      } else {
        negotiated := negotiated[remote[i].profileId := agreed.value];
      }
    }
    assert remote[..|remote|] == remote;
  }

  class Runtime {
    const config: Config
    var sessions: SessionTable
    var leases: LeaseTable
    var entityUids: seq<Bytes>
    var nextSessionId: u64

    ghost const startEntities: seq<Bytes>
    ghost var history: seq<Event>

    function State(): RuntimeSteps.State
      reads this
    {
      RuntimeSteps.State(sessions, leases, entityUids, nextSessionId)
    }

    /** The tables are where the recorded events lead, so what holds of every run holds here. */
    ghost predicate Valid()
      reads this
    {
      State() == Run(config, startEntities, history)
    }

    constructor (c: Config, entities: seq<Bytes>)
      ensures Valid() && history == [] && State() == Started(entities)
    {
      config := c;
      sessions, leases, entityUids, nextSessionId := map[], map[], entities, 1;
      startEntities, history := entities, [];
    }

    lemma Extend(event: Event)
      requires Valid()
      ensures Run(config, startEntities, history + [event]) == Step(config, State(), event).0
    {
      assert (history + [event])[..|history|] == history;
    }

    /** `open_session` on a connected peer. */
    method OpenSession(peer: PeerId) returns (id: u64)
      requires Valid()
      modifies this
      ensures Valid() && history == old(history) + [Open(peer)]
      ensures id == old(nextSessionId) && SessionKey(peer, id) in sessions
      ensures State() == Opened(old(State()), peer)
      ensures sessions
           == old(sessions)[SessionKey(peer, id)
                            := SessionInfo(id, peer, [], Handshaking, false, map[], [])]
      ensures nextSessionId == if id == 0xFFFF_FFFF_FFFF_FFFF then 0 else id + 1
      ensures leases == old(leases) && entityUids == old(entityUids)
    {
      hide Run;
      Extend(Open(peer));
      history := history + [Open(peer)];
      id := nextSessionId;
      nextSessionId := (nextSessionId + 1) % 0x1_0000_0000_0000_0000;
      var key := SessionKey(peer, id);
      sessions := sessions[key := FreshSession(key)];
    }

    /** The locked region of `runtime_handle_envelope` for session messages. */
    method OnSessionMessage(peer: PeerId, e: Envelope) returns (info: SessionInfo, reply: Reply)
      requires e.operation != OP_LANE_BIND && e.operation != OP_LANE_READY
      modifies this`sessions
      ensures sessions == HandleSession(config.me, old(sessions), peer, e)
      ensures info == sessions[SessionKey(peer, e.sessionId)]
      ensures reply == ReplyTo(config.me, EntryAt(old(sessions), SessionKey(peer, e.sessionId)), e)
    {
      hide Negotiate, DecodeText, DecodeProfileList, ValidUid;
      var key := SessionKey(peer, e.sessionId);
      var session := if key in sessions then sessions[key] else FreshSession(key);
      session := session.(sessionId := e.sessionId, peerId := peer);
      reply := NoReply;
      if session.remoteUid != [] && session.remoteUid != e.source.endpointUid {
        session := session.(state := Invalid);
        sessions := sessions[key := session];
        return session, NoReply;
      }
      session := session.(remoteUid := e.source.endpointUid);
      if e.operation == OP_HELLO {
        var uid := DecodeTextPayload(e.payload);
        if uid != Some(e.source.endpointUid) || !ValidUid(e.source.endpointUid) {
          session := session.(state := Invalid);
        }
      } else if e.operation == OP_AUTHENTICATE {
        var secret := DecodeTextPayload(e.payload);
        session := session.(authenticated := secret == Some(config.me.sharedSecret));
        session := session.(state := if session.authenticated then Authenticated else Invalid);
      } else if e.operation == OP_PROFILES {
        var remote := DecodeProfiles(e.payload);
        if remote.None? {
          session := session.(state := Invalid);
        } else {
          var negotiated, rejected := NegotiateLists(config.me.profiles, remote.value);
          session := session.(negotiated := negotiated, rejected := rejected);
          if session.state != Invalid {
            session := session.(state := Negotiated);
          }
          reply := if e.correlationId == 0 then ReplyProfiles else NoReply;
        }
      } else if e.operation == OP_READY {
        if session.state == Negotiated {
          session := session.(state := Active, authenticated := true);
          reply := if e.correlationId == 0 then ReplyReady else NoReply;
        } else if session.state != Active {
          session := session.(state := Invalid);
        }
      }
      sessions := sessions[key := session];
      info := session;
    }

    /** `runtime_handle_authority`: whether it took the envelope, and the reply. */
    method HandleAuthority(peer: PeerId, e: Envelope, now: nat)
      returns (handled: bool, verdict: Verdict)
      modifies this`leases
      ensures handled <==> IsRequest(e)
      ensures handled ==> Ruling(verdict, leases) == HandleRequest(old(leases), peer, e, now)
      ensures !handled ==> leases == old(leases)
    {
      hide DecodeRequest;
      if !e.family.Authority? || e.operation == OP_STATUS {
        return false, Refused(InvalidArgument);
      }
      if !WellFormed(e) {
        return true, Refused(InvalidArgument);
      }
      var key, request := RequestKey(e), DecodeRequest(e.payload).value;
      if key in leases && leases[key].expiresAt <= now {
        leases := leases - {key};
      }
      var owner := Owns(leases, key, peer, e.sessionId);
      handled, verdict := true, Refused(InvalidArgument);
      if e.operation == OP_RELEASE {
        if owner {
          leases := leases - {key};
          verdict := Released;
        } else {
          verdict := Refused(Unauthorized);
        }
      } else if e.operation == OP_RENEW {
        if owner {
          leases := leases[key := leases[key].(expiresAt := Expiry(e, now))];
          verdict := Controller;
        } else {
          verdict := Refused(Unauthorized);
        }
      } else if e.operation == OP_CLAIM {
        if key !in leases || owner || request.allowPreempt {
          leases := leases[key := Lease(peer, e.sessionId, Expiry(e, now))];
          verdict := Controller;
        } else {
          verdict := Refused(Conflict);
        }
      }
    }

    /** `runtime_handle_envelope`. */
    method HandleEnvelope(peer: PeerId, e: Envelope, now: nat) returns (outcome: Outcome)
      requires Valid()
      modifies this
      ensures Valid() && history == old(history) + [Receive(peer, e, now)]
      ensures (State(), outcome) == Receiving(config, old(State()), peer, e, now)
    {
      hide Run, HandleSession, HandleRequest, Addressed, TypeSupported, ActionAuthorized, ReplyTo;
      Extend(Receive(peer, e, now));
      history := history + [Receive(peer, e, now)];
      if e.family.Session? {
        if e.operation == OP_LANE_BIND || e.operation == OP_LANE_READY {
          return Nothing;
        }
        var info, reply := OnSessionMessage(peer, e);
        return SessionChanged(info, reply);
      }
      if !Addressed(config, State(), peer, e) {
        return Blocked(Unauthorized);
      }
      var key := SessionKey(peer, e.sessionId);
      assert key in sessions by { AddressedHasEntry(config, State(), peer, e); }
      if !TypeSupported(sessions[key], e.typ) {
        return Blocked(Unsupported);
      }
      var handled, verdict := HandleAuthority(peer, e, now);
      if handled {
        return Status(verdict);
      }
      if !ActionAuthorized(leases, config.resolver(e.typ), peer, e, now) {
        return Blocked(Unauthorized);
      }
      return Delivered(e);
    }

    lemma AddressedHasEntry(c: Config, s: RuntimeSteps.State, peer: PeerId, e: Envelope)
      requires Addressed(c, s, peer, e)
      ensures SessionKey(peer, e.sessionId) in s.sessions
    {
    }

    /**
     `has_authority`. With a clock that has not gone back, the answer is exactly whether the
     recorded events entitle the peer and session.
     */
    method HasAuthority(peer: PeerId, session: u64, uid: Bytes, scope: Bytes, now: nat)
      returns (held: bool)
      requires Valid()
      ensures (forall j :: 0 <= j < |history| && history[j].Receive? ==> history[j].now <= now) ==>
        (held <==> Entitled(config, startEntities, history, LeaseKey(uid, scope), peer, session,
                            now))
    {
      hide Entitled, Run;
      var key := LeaseKey(uid, scope);
      held := key in leases && leases[key].peerId == peer && leases[key].sessionId == session
        && leases[key].expiresAt > now;
      if forall j :: 0 <= j < |history| && history[j].Receive? ==> history[j].now <= now {
        AuthorityExactly(config, startEntities, history, key, peer, session, now);
      }
    }

    /** The loop of `set_entities` over the leases. */
    method PruneLeases(uids: seq<Bytes>)
      modifies this`leases
      ensures leases == Pruned(old(leases), uids)
      ensures leases == old(leases) - (set k | k in old(leases) && k.entityUid !in uids)
    {
      var pending := leases.Keys;
      while pending != {}
        invariant pending <= leases.Keys
        invariant forall k :: k in leases <==>
          k in old(leases) && (k in pending || k.entityUid in uids)
        invariant forall k :: k in leases ==> leases[k] == old(leases)[k]
        decreases |pending|
      {
        var key :| key in pending;
        pending := pending - {key};
        if key.entityUid !in uids {
          leases := leases - {key};
        }
      }
    }

    /** `set_entities`: refused as a whole if any uid is invalid. */
    method SetEntities(uids: seq<Bytes>) returns (code: ErrorCode)
      requires Valid()
      modifies this
      ensures Valid() && history == old(history) + [RuntimeSteps.SetEntities(uids)]
      ensures code == if ValidUids(uids) then NoError else InvalidArgument
      ensures code == NoError ==>
        leases == Pruned(old(leases), uids) && entityUids == uids && sessions == old(sessions)
        && leases == old(leases) - (set k | k in old(leases) && k.entityUid !in uids)
      ensures code != NoError ==> State() == old(State())
    {
      hide Run, Pruned;
      Extend(RuntimeSteps.SetEntities(uids));
      history := history + [RuntimeSteps.SetEntities(uids)];
      for i := 0 to |uids|
        invariant forall j :: 0 <= j < i ==> ValidUid(uids[j])
        invariant State() == old(State())
        invariant history == old(history) + [RuntimeSteps.SetEntities(uids)]
      {
        if !ValidUid(uids[i]) {
          return InvalidArgument;
        }
      }
      PruneLeases(uids);
      entityUids := uids;
      return NoError;
    }

    /** The loop of `runtime_revoke_authority`. */
    method RevokeLeases(peer: PeerId, session: u64, uids: seq<Bytes>)
      modifies this`leases
      ensures leases == Revoked(old(leases), peer, session, uids)
      ensures
        leases == old(leases)
                  - (set k | k in old(leases) && old(leases)[k].peerId == peer
                             && old(leases)[k].sessionId == session
                             && (uids == [] || k.entityUid in uids))
    {
      var pending := leases.Keys;
      while pending != {}
        invariant pending <= leases.Keys
        invariant forall k :: k in leases <==>
          k in old(leases)
          && (k in pending
              || !((uids == [] || k.entityUid in uids) && old(leases)[k].peerId == peer
                   && old(leases)[k].sessionId == session))
        invariant forall k :: k in leases ==> leases[k] == old(leases)[k]
        decreases |pending|
      {
        var key :| key in pending;
        pending := pending - {key};
        var requested := uids == [] || key.entityUid in uids;
        if requested && leases[key].peerId == peer && leases[key].sessionId == session {
          leases := leases - {key};
        }
      }
    }

    /** `runtime_revoke_authority`. */
    method RevokeAuthority(peer: PeerId, session: u64, uids: seq<Bytes>)
      requires Valid()
      modifies this
      ensures Valid() && history == old(history) + [Revoke(peer, session, uids)]
      ensures leases == Revoked(old(leases), peer, session, uids)
      ensures
        leases == old(leases)
                  - (set k | k in old(leases) && old(leases)[k].peerId == peer
                             && old(leases)[k].sessionId == session
                             && (uids == [] || k.entityUid in uids))
      ensures sessions == old(sessions) && entityUids == old(entityUids)
    {
      hide Run, Revoked;
      Extend(Revoke(peer, session, uids));
      history := history + [Revoke(peer, session, uids)];
      RevokeLeases(peer, session, uids);
    }

    /** The two loops of `runtime_drop_peer_state`. */
    method DropSessions(peer: PeerId)
      modifies this`sessions
      ensures sessions == WithoutPeer(old(sessions), peer)
      ensures sessions == old(sessions) - (set k | k in old(sessions) && k.peerId == peer)
    {
      var pending := sessions.Keys;
      while pending != {}
        invariant pending <= sessions.Keys
        invariant forall k :: k in sessions <==>
          k in old(sessions) && (k in pending || k.peerId != peer)
        invariant forall k :: k in sessions ==> sessions[k] == old(sessions)[k]
        decreases |pending|
      {
        var key :| key in pending;
        pending := pending - {key};
        if key.peerId == peer {
          sessions := sessions - {key};
        }
      }
    }

    method DropLeases(peer: PeerId)
      modifies this`leases
      ensures leases == WithoutHolder(old(leases), peer)
      ensures leases == old(leases) - (set k | k in old(leases) && old(leases)[k].peerId == peer)
    {
      var pending := leases.Keys;
      while pending != {}
        invariant pending <= leases.Keys
        invariant forall k :: k in leases <==>
          k in old(leases) && (k in pending || old(leases)[k].peerId != peer)
        invariant forall k :: k in leases ==> leases[k] == old(leases)[k]
        decreases |pending|
      {
        var key :| key in pending;
        pending := pending - {key};
        if leases[key].peerId == peer {
          leases := leases - {key};
        }
      }
    }

    /** `runtime_drop_peer_state`. */
    method DropPeerState(peer: PeerId)
      requires Valid()
      modifies this
      ensures Valid() && history == old(history) + [Drop(peer)]
      ensures sessions == WithoutPeer(old(sessions), peer)
      ensures sessions == old(sessions) - (set k | k in old(sessions) && k.peerId == peer)
      ensures leases == WithoutHolder(old(leases), peer)
      ensures leases == old(leases) - (set k | k in old(leases) && old(leases)[k].peerId == peer)
      ensures entityUids == old(entityUids)
    {
      hide Run, WithoutPeer, WithoutHolder;
      Extend(Drop(peer));
      history := history + [Drop(peer)];
      DropSessions(peer);
      DropLeases(peer);
    }

    /** `stop` on a running runtime. */
    method Stop()
      requires Valid()
      modifies this
      ensures Valid() && history == old(history) + [RuntimeSteps.Stop]
      ensures sessions == map[] && leases == map[] && entityUids == old(entityUids)
    {
      hide Run;
      Extend(RuntimeSteps.Stop);
      history := history + [RuntimeSteps.Stop];
      sessions, leases := map[], map[];
    }
  }
}
