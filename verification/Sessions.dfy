/**
 One received session message as a step on the session table: the handshake states, the pinned
 endpoint uid, and profile negotiation.
 */
module Sessions {
  import opened ByteLayout
  import opened Sequences
  import opened SessionCodec
  import opened Wire

  type PeerId = Bytes

  const OP_HELLO: byte := 1
  const OP_AUTHENTICATE: byte := 2
  const OP_PROFILES: byte := 3
  const OP_READY: byte := 4
  const OP_LANE_BIND: byte := 5
  const OP_LANE_READY: byte := 6

  datatype SessionState = Handshaking | Authenticated | Negotiated | Active | Invalid

  datatype SessionInfo = SessionInfo(
    sessionId: u64,
    peerId: PeerId,
    remoteUid: Bytes,
    state: SessionState,
    authenticated: bool,
    negotiated: map<Bytes, ProfileDescriptor>,
    rejected: seq<Bytes>)
  {
    predicate SupportsProfile(profileId: Bytes, major: u16, minimumMinor: u16)
    {
      && profileId in negotiated
      && negotiated[profileId].major == major
      && negotiated[profileId].minor >= minimumMinor
    }
  }

  datatype SessionKey = SessionKey(peerId: PeerId, sessionId: u64)

  type SessionTable = map<SessionKey, SessionInfo>

  /** The part of the configuration the session messages depend on. */
  datatype Identity = Identity(
    endpointUid: Bytes,
    sharedSecret: Bytes,
    profiles: seq<ProfileDescriptor>)

  function FreshSession(key: SessionKey): SessionInfo
  {
    SessionInfo(key.sessionId, key.peerId, [], Handshaking, false, map[], [])
  }

  // Negotiation

  /** `negotiate_profile`; None is the descriptor without a profile id. */
  function NegotiateProfile(local: ProfileDescriptor, remote: ProfileDescriptor)
    : Option<ProfileDescriptor>
  {
    if local.profileId != remote.profileId || local.major != remote.major then None
    else if local.minor == remote.minor && local.schemaDigest != remote.schemaDigest then None
    else if local.minor <= remote.minor then Some(local) else Some(remote)
  }

  /** The first local profile with this id. */
  function FindProfile(profiles: seq<ProfileDescriptor>, id: Bytes)
    : (r: Option<ProfileDescriptor>)
    ensures r.Some? ==> r.value in profiles && r.value.profileId == id
    ensures r.None? ==> forall p :: p in profiles ==> p.profileId != id
  {
    if profiles == [] then None
    else if profiles[0].profileId == id then Some(profiles[0])
    else FindProfile(profiles[1..], id)
  }

  function Offer(local: seq<ProfileDescriptor>, remote: ProfileDescriptor)
    : Option<ProfileDescriptor>
  {
    match FindProfile(local, remote.profileId)
    case None => None
    case Some(p) => NegotiateProfile(p, remote)
  }

  datatype Agreement = Agreement(
    negotiated: map<Bytes, ProfileDescriptor>,
    rejected: seq<Bytes>)

  /** The remote profiles in order; a later entry for the same id replaces an earlier one. */
  function Negotiate(local: seq<ProfileDescriptor>, remote: seq<ProfileDescriptor>): Agreement
  {
    if remote == [] then Agreement(map[], [])
    else
      Agreed(local, remote[|remote| - 1], Negotiate(local, remote[..|remote| - 1]))
  }

  function Agreed(local: seq<ProfileDescriptor>, r: ProfileDescriptor, a: Agreement): Agreement
  {
    match Offer(local, r)
    case None => a.(rejected := a.rejected + [r.profileId])
    case Some(p) => a.(negotiated := a.negotiated[r.profileId := p])
  }

  // One message

  /** Whether a message may change anything but the state of its entry. */
  predicate FromPinnedSource(info: SessionInfo, source: Bytes)
  {
    info.remoteUid == [] || info.remoteUid == source
  }

  predicate HelloAccepted(e: Envelope)
  {
    DecodeText(e.payload) == Some(e.source.endpointUid) && ValidUid(e.source.endpointUid)
  }

  predicate SecretAccepted(me: Identity, e: Envelope)
  {
    DecodeText(e.payload) == Some(me.sharedSecret)
  }

  function OnProfiles(me: Identity, info: SessionInfo, e: Envelope): SessionInfo
  {
    match DecodeProfileList(e.payload)
    case None => info.(state := Invalid)
    case Some(remote) =>
      var a := Negotiate(me.profiles, remote);
      info.(negotiated := a.negotiated, rejected := a.rejected,
            state := if info.state == Invalid then Invalid else Negotiated)
  }

  function OnReady(info: SessionInfo): SessionInfo
  {
    match info.state
    case Negotiated => info.(state := Active, authenticated := true)
    case Active => info
    case _ => info.(state := Invalid)
  }

  /** The entry after one message of its session. */
  function AfterMessage(me: Identity, info: SessionInfo, e: Envelope): SessionInfo
  {
    if !FromPinnedSource(info, e.source.endpointUid) then info.(state := Invalid)
    else
      var pinned := info.(remoteUid := e.source.endpointUid);
      if e.operation == OP_HELLO then
        if HelloAccepted(e) then pinned else pinned.(state := Invalid)
      else if e.operation == OP_AUTHENTICATE then
        var ok := SecretAccepted(me, e);
        pinned.(authenticated := ok, state := if ok then Authenticated else Invalid)
      else if e.operation == OP_PROFILES then OnProfiles(me, pinned, e)
      else if e.operation == OP_READY then OnReady(pinned)
      else pinned
  }

  /** What goes back on the connection the message came from. */
  datatype Reply = NoReply | ReplyProfiles | ReplyReady

  function ReplyTo(me: Identity, info: SessionInfo, e: Envelope): Reply
  {
    if !FromPinnedSource(info, e.source.endpointUid) || e.correlationId != 0 then NoReply
    else if e.operation == OP_PROFILES && DecodeProfileList(e.payload).Some? then ReplyProfiles
    else if e.operation == OP_READY && info.state == Negotiated then ReplyReady
    else NoReply
  }

  /** `sessions[key]`: the entry, created when it is not there. */
  function EntryAt(t: SessionTable, key: SessionKey): SessionInfo
  {
    (if key in t then t[key] else FreshSession(key))
      .(sessionId := key.sessionId, peerId := key.peerId)
  }

  function HandleSession(me: Identity, t: SessionTable, peer: PeerId, e: Envelope): SessionTable
  {
    var key := SessionKey(peer, e.sessionId);
    t[key := AfterMessage(me, EntryAt(t, key), e)]
  }

  /** `runtime_drop_peer_state`: the sessions of a lost peer are erased. */
  function WithoutPeer(t: SessionTable, peer: PeerId): SessionTable
  {
    map key | key in t && key.peerId != peer :: t[key]
  }

  // What one message can do

  /**
   One message, exactly as far as its session is concerned: a pinned uid never changes, a
   mismatching source changes nothing but the state, Invalid is left only by a correct secret
   from the pinned source, and Active is entered only from Negotiated by Ready.
   */
  lemma MessageRules(me: Identity, info: SessionInfo, e: Envelope)
    ensures
      var after := AfterMessage(me, info, e);
      && after.sessionId == info.sessionId && after.peerId == info.peerId
      && (info.remoteUid != [] ==> after.remoteUid == info.remoteUid)
      && (info.remoteUid != [] && info.remoteUid != e.source.endpointUid ==>
            after == info.(state := Invalid) && ReplyTo(me, info, e) == NoReply)
      && (info.state == Invalid && after.state != Invalid
          <==> info.state == Invalid && e.operation == OP_AUTHENTICATE && SecretAccepted(me, e)
               && FromPinnedSource(info, e.source.endpointUid))
      && (info.state != Active && after.state == Active
          <==> info.state == Negotiated && e.operation == OP_READY
               && FromPinnedSource(info, e.source.endpointUid))
      && (after.negotiated != info.negotiated ==>
            e.operation == OP_PROFILES && DecodeProfileList(e.payload).Some?
            && FromPinnedSource(info, e.source.endpointUid))
  {
    hide DecodeText, DecodeProfileList, Negotiate;
  }

  /** The payload is this text, as it is printed. */
  predicate Says(e: Envelope, text: Bytes)
  {
    |text| <= 0xFFFF && e.payload == EncodeText(text)
  }

  lemma SaysMeans(e: Envelope, text: Bytes)
    ensures DecodeText(e.payload) == Some(text) <==> Says(e, text)
  {
    hide EncodeText, DecodeText;
    TextRoundTrip(text);
    if DecodeText(e.payload).Some? {
      TextCanonical(e.payload);
      if |DecodeText(e.payload).value| > 0xFFFF {
        TextRoundTrip(DecodeText(e.payload).value);
      }
    }
  }

  /**
   One message in full: the entry afterwards and the reply. Operation 1 is Hello and must repeat
   the source, 2 is Authenticate and must hold the secret, 3 is a profile list, 4 is Ready. A
   source other than the pinned one only invalidates. Only what is not itself a reply is answered:
   a list that can be read, and a Ready that makes the session Active.
   */
  lemma MessageExactly(me: Identity, info: SessionInfo, e: Envelope)
    ensures
      var source := e.source.endpointUid;
      var known := info.(remoteUid := source);
      var after := AfterMessage(me, info, e);
      if info.remoteUid != [] && info.remoteUid != source then after == info.(state := Invalid)
      else if e.operation == 1 then
        after == if Says(e, source) && ValidUid(source) then known else known.(state := Invalid)
      else if e.operation == 2 then
        after == if Says(e, me.sharedSecret)
                 then known.(authenticated := true, state := Authenticated)
                 else known.(authenticated := false, state := Invalid)
      else if e.operation == 3 then
        match DecodeProfileList(e.payload)
        case None => after == known.(state := Invalid)
        case Some(remote) =>
          var agreed := Negotiate(me.profiles, remote);
          after == known.(negotiated := agreed.negotiated, rejected := agreed.rejected,
                          state := if info.state == Invalid then Invalid else Negotiated)
      else if e.operation == 4 then
        after == if info.state == Negotiated then known.(state := Active, authenticated := true)
                 else if info.state == Active then known
                 else known.(state := Invalid)
      else after == known
    ensures
      var pinned := info.remoteUid == [] || info.remoteUid == e.source.endpointUid;
      ReplyTo(me, info, e)
        == if pinned && e.correlationId == 0 && e.operation == 3
              && DecodeProfileList(e.payload).Some?
           then ReplyProfiles
           else if pinned && e.correlationId == 0 && e.operation == 4 && info.state == Negotiated
           then ReplyReady
           else NoReply
  {
    hide DecodeText, DecodeProfileList, Negotiate, Says, ValidUid;
    SaysMeans(e, e.source.endpointUid);
    SaysMeans(e, me.sharedSecret);
  }

  /** The entry a message meets names its own key, and is otherwise the stored one, or a new one. */
  lemma EntryMet(t: SessionTable, key: SessionKey)
    ensures
      var found := EntryAt(t, key);
      && found.peerId == key.peerId && found.sessionId == key.sessionId
      && (key in t ==> found == t[key].(peerId := key.peerId, sessionId := key.sessionId))
      && (key !in t ==>
            found == SessionInfo(key.sessionId, key.peerId, [], Handshaking, false, map[], []))
  {
  }

  // Negotiation as a relation

  /** The first local profile with an id is the one that is found. */
  lemma {:induction false} FindFirst(profiles: seq<ProfileDescriptor>, id: Bytes, i: nat)
    requires i < |profiles| && profiles[i].profileId == id
    requires forall j :: 0 <= j < i ==> profiles[j].profileId != id
    ensures FindProfile(profiles, id) == Some(profiles[i])
  {
    if i > 0 {
      assert profiles[0].profileId != id;
      FindFirst(profiles[1..], id, i - 1);
    }
  }

  /** Whether a remote profile leads to no agreement. */
  function Declined(local: seq<ProfileDescriptor>): ProfileDescriptor -> bool
  {
    (r: ProfileDescriptor) => Offer(local, r).None?
  }

  function Ids(profiles: seq<ProfileDescriptor>): seq<Bytes>
  {
    seq(|profiles|, i requires 0 <= i < |profiles| => profiles[i].profileId)
  }

  /** The rejected ids are those of the remote profiles without an offer, in their order. */
  lemma {:induction false} RejectedExactly(local: seq<ProfileDescriptor>,
                                           remote: seq<ProfileDescriptor>)
    ensures Negotiate(local, remote).rejected == Ids(Select(remote, Declined(local)))
    decreases |remote|
  {
    hide Offer;
    if remote != [] {
      RejectedExactly(local, remote[..|remote| - 1]);
    }
  }

  /** Of the remote profiles with one id, the last one with an offer counts. */
  lemma {:induction false} LastOfferCounts(local: seq<ProfileDescriptor>,
                                           remote: seq<ProfileDescriptor>, id: Bytes, i: nat)
    requires i < |remote| && remote[i].profileId == id && Offer(local, remote[i]).Some?
    requires forall j :: i < j < |remote| && remote[j].profileId == id ==>
      Offer(local, remote[j]).None?
    ensures
      var m := Negotiate(local, remote).negotiated;
      id in m && m[id] == Offer(local, remote[i]).value
    decreases |remote|
  {
    hide Offer;
    if i < |remote| - 1 {
      LastOfferCounts(local, remote[..|remote| - 1], id, i);
    }
  }

  predicate UniqueIds(profiles: seq<ProfileDescriptor>)
  {
    forall i, j :: 0 <= i < j < |profiles| ==> profiles[i].profileId != profiles[j].profileId
  }

  lemma {:induction false} FindUnique(profiles: seq<ProfileDescriptor>, p: ProfileDescriptor)
    requires UniqueIds(profiles) && p in profiles
    ensures FindProfile(profiles, p.profileId) == Some(p)
  {
    if profiles[0] != p {
      assert p in profiles[1..];
      var i :| 0 <= i < |profiles| && profiles[i] == p;
      assert profiles[0].profileId != profiles[i].profileId;
      FindUnique(profiles[1..], p);
    }
  }

  /**
   What negotiation yields for an id, when the remote list names no id twice: exactly the
   offer made for the remote profile of that id.
   */
  lemma {:induction false} NegotiateMeans(local: seq<ProfileDescriptor>,
                                          remote: seq<ProfileDescriptor>, id: Bytes)
    requires UniqueIds(remote)
    ensures
      var m := Negotiate(local, remote).negotiated;
      match FindProfile(remote, id)
      case None => id !in m
      case Some(r) => if Offer(local, r).Some? then id in m && m[id] == Offer(local, r).value
                      else id !in m
    decreases |remote|
  {
    hide Offer;
    if remote != [] {
      var init, last := remote[..|remote| - 1], remote[|remote| - 1];
      NegotiateMeans(local, init, id);
      FindUnique(remote, last);
      FindInit(remote, id);
      if FindProfile(init, id).Some? {
        assert FindProfile(init, id).value in init;
        assert last.profileId != id;
      }
    }
  }

  lemma {:induction false} FindInit(profiles: seq<ProfileDescriptor>, id: Bytes)
    requires profiles != []
    ensures
      var init, last := profiles[..|profiles| - 1], profiles[|profiles| - 1];
      FindProfile(profiles, id)
        == if FindProfile(init, id).Some? then FindProfile(init, id)
           else if last.profileId == id then Some(last) else None
  {
    if |profiles| > 1 {
      FindInit(profiles[1..], id);
      assert profiles[..|profiles| - 1][1..] == profiles[1..][..|profiles| - 2];
    }
  }

  /** Negotiation of two profiles is symmetric. */
  lemma OffersAgree(a: ProfileDescriptor, b: ProfileDescriptor)
    ensures NegotiateProfile(a, b) == NegotiateProfile(b, a)
  {
  }

  lemma NegotiateAt(local: seq<ProfileDescriptor>, remote: seq<ProfileDescriptor>, id: Bytes)
    requires UniqueIds(local) && UniqueIds(remote)
    ensures
      var m, m' := Negotiate(local, remote).negotiated, Negotiate(remote, local).negotiated;
      (id in m <==> id in m') && (id in m ==> m[id] == m'[id])
  {
    hide NegotiateProfile, Negotiate;
    NegotiateMeans(local, remote, id);
    NegotiateMeans(remote, local, id);
    var a, b := FindProfile(local, id), FindProfile(remote, id);
    if a.Some? && b.Some? {
      OffersAgree(a.value, b.value);
    }
  }

  /** Two endpoints that name no id twice negotiate the same map from each other's lists. */
  lemma NegotiationSymmetric(local: seq<ProfileDescriptor>, remote: seq<ProfileDescriptor>)
    requires UniqueIds(local) && UniqueIds(remote)
    ensures Negotiate(local, remote).negotiated == Negotiate(remote, local).negotiated
  {
    hide Negotiate;
    forall id: Bytes
      ensures
        var m, m' := Negotiate(local, remote).negotiated, Negotiate(remote, local).negotiated;
        (id in m <==> id in m') && (id in m ==> m[id] == m'[id])
    {
      NegotiateAt(local, remote, id);
    }
  }

  /**
   What an agreed profile is worth: it admits exactly the versions both sides admit, and none
   is agreed if and only if ids or majors differ, or equal minors have different schemas.
   */
  lemma AgreedAdmits(local: ProfileDescriptor, remote: ProfileDescriptor, minor: u16)
    ensures
      match NegotiateProfile(local, remote)
      case None =>
        || local.profileId != remote.profileId || local.major != remote.major
        || (local.minor == remote.minor && local.schemaDigest != remote.schemaDigest)
      case Some(p) =>
        && p.profileId == local.profileId == remote.profileId
        && p.major == local.major == remote.major
        && (minor <= p.minor <==> minor <= local.minor && minor <= remote.minor)
        && (p == local || p == remote)
        && (local.minor == remote.minor ==> local.schemaDigest == remote.schemaDigest)
  {
  }
}
