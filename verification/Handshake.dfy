/**
 Two endpoints, one opening a session to the other over a pair of first-in first-out channels.
 Sends and deliveries interleave in any way; every message is printed and decoded by the frame
 codec on its way.
 */
module Handshake {
  import opened ByteLayout
  import opened Wire
  import opened WireCodec
  import opened WireLayout
  import opened SessionCodec
  import opened Sessions

  /** The two identities, the names they know each other's connection by, and the session id. */
  datatype Setup = Setup(a: Identity, b: Identity, peerAtA: PeerId, peerAtB: PeerId, sid: u64)

  /** The entries of the session at both ends, the channels, and how far each end has got. */
  datatype World = World(
    a: SessionInfo,
    b: SessionInfo,
    toB: seq<Envelope>,
    toA: seq<Envelope>,
    sent: nat,
    handledByB: nat,
    handledByA: nat)

  /** Each step carries the message id and the clock of the envelope it may send. */
  datatype Step =
    | SendNext(id: u64, now: u64)
    | AtB(id: u64, now: u64)
    | AtA(id: u64, now: u64)

  function TypeName(op: byte): (r: Bytes)
    ensures 0 < |r| <= 20
  {
    if op == OP_HELLO then Ascii("session.hello")
    else if op == OP_AUTHENTICATE then Ascii("session.authenticate")
    else if op == OP_PROFILES then Ascii("session.profiles")
    else Ascii("session.ready")
  }

  /** `send_session`. */
  function SessionEnvelope(me: Identity, sid: u64, op: byte, payload: Bytes, correlation: u64,
                           id: u64, now: u64): Envelope
  {
    Envelope(PROTOCOL_MAJOR, HEADER_VERSION, 0, 0, 0, ReliableOrdered, Session, op,
             SCHEMA_VERSION, sid, id, correlation, SourceIdentity(me.endpointUid, []),
             TargetSelector(Broadcast, []), TypeRef(CORE_PROFILE, 2, 0, TypeName(op)),
             now, 5000, payload, SecurityContext(0, []), 0)
  }

  /** What arrives of an envelope: nothing when the codec refuses to print it. */
  function Carried(e: Envelope, now: u64): seq<Envelope>
  {
    var frame := Encode(e, true, now);
    if frame != [] && Decode(frame).Accepted? then [Decode(frame).envelope] else []
  }

  /** The payloads `open_session` sends, in order. */
  function OpeningPayload(me: Identity, n: nat): Bytes
  {
    if n == 0 then EncodeText(me.endpointUid)
    else if n == 1 then EncodeText(me.sharedSecret)
    else if n == 2 then EncodeProfileList(me.profiles)
    else []
  }

  function OpeningOperation(n: nat): byte
    requires n < 4
  {
    n + 1
  }

  /** The message a reply puts on the channel back. */
  function Answer(me: Identity, sid: u64, reply: Reply, correlation: u64, id: u64, now: u64)
    : seq<Envelope>
  {
    match reply
    case NoReply => []
    case ReplyProfiles =>
      Carried(SessionEnvelope(me, sid, OP_PROFILES, EncodeProfileList(me.profiles), correlation,
                              id, now), now)
    case ReplyReady =>
      Carried(SessionEnvelope(me, sid, OP_READY, [], correlation, id, now), now)
  }

  function Opening(p: Setup): World
  {
    World(FreshSession(SessionKey(p.peerAtA, p.sid)), FreshSession(SessionKey(p.peerAtB, p.sid)),
          [], [], 0, 0, 0)
  }

  function Next(p: Setup, w: World, step: Step): World
  {
    match step
    case SendNext(id, now) =>
      if w.sent >= 4 then w
      else
        var e := SessionEnvelope(p.a, p.sid, OpeningOperation(w.sent),
                                 OpeningPayload(p.a, w.sent), 0, id, now);
        w.(toB := w.toB + Carried(e, now), sent := w.sent + 1)
    case AtB(id, now) =>
      if w.toB == [] then w
      else
        var e := w.toB[0];
        w.(b := AfterMessage(p.b, w.b, e),
           toB := w.toB[1..],
           toA := w.toA + Answer(p.b, p.sid, ReplyTo(p.b, w.b, e), e.messageId, id, now),
           handledByB := w.handledByB + 1)
    case AtA(id, now) =>
      if w.toA == [] then w
      else
        var e := w.toA[0];
        w.(a := AfterMessage(p.a, w.a, e),
           toA := w.toA[1..],
           toB := w.toB + Answer(p.a, p.sid, ReplyTo(p.a, w.a, e), e.messageId, id, now),
           handledByA := w.handledByA + 1)
  }

  function Reached(p: Setup, steps: seq<Step>): World
  {
    if steps == [] then Opening(p)
    else Next(p, Reached(p, steps[..|steps| - 1]), steps[|steps| - 1])
  }

  /** Message ids come from a counter that starts at one. */
  predicate Numbered(steps: seq<Step>)
  {
    forall i :: 0 <= i < |steps| ==> steps[i].id > 0
  }

  /** What an endpoint must have configured for its own messages to be sent and understood. */
  predicate Fit(me: Identity)
  {
    && ValidUid(me.endpointUid)
    && |me.sharedSecret| <= 0xFFFF
    && |me.profiles| <= 0xFFFF
    && (forall i :: 0 <= i < |me.profiles| ==> Decodable(me.profiles[i]))
    && UniqueIds(me.profiles)
    && |EncodeProfileList(me.profiles)| <= MAX_PAYLOAD_BYTES
  }

  // Messages survive the codec

  /** A session message of this sender, with this operation and payload. */
  predicate Means(e: Envelope, me: Identity, sid: u64, op: byte, payload: Bytes)
  {
    && e.family.Session? && e.sessionId == sid && e.operation == op && e.payload == payload
    && e.source.endpointUid == me.endpointUid
  }

  lemma CoreIsValid()
    ensures ValidProfileId(CORE_PROFILE) && |CORE_PROFILE| == 12
  {
  }

  lemma SessionEnvelopeEncodable(me: Identity, sid: u64, op: byte, payload: Bytes,
                                 correlation: u64, id: u64, now: u64)
    requires ValidUid(me.endpointUid) && |payload| <= MAX_PAYLOAD_BYTES
    ensures Encodable(SessionEnvelope(me, sid, op, payload, correlation, id, now))
  {
    CoreIsValid();
    hide ValidProfileId, TypeName;
    var e := SessionEnvelope(me, sid, op, payload, correlation, id, now);
    assert TargetBytes([]) == [];
    assert |TextsBytes(TextsOf(e))| == |me.endpointUid| + 12 + |TypeName(op)|;
  }

  lemma MessageSurvives(me: Identity, sid: u64, op: byte, payload: Bytes, correlation: u64,
                        id: u64, now: u64)
    requires ValidUid(me.endpointUid) && |payload| <= MAX_PAYLOAD_BYTES && id > 0
    ensures
      var c := Carried(SessionEnvelope(me, sid, op, payload, correlation, id, now), now);
      && |c| == 1 && Means(c[0], me, sid, op, payload)
      && c[0].correlationId == correlation && c[0].messageId == id
  {
    hide Encode, Decode, Encodable, ValidUid;
    var e := SessionEnvelope(me, sid, op, payload, correlation, id, now);
    SessionEnvelopeEncodable(me, sid, op, payload, correlation, id, now);
    EncodeAccepts(e, now);
    RoundTrip(e, true, now, []);
    assert Encode(e, true, now) + [] == Encode(e, true, now);
  }

  function MessageName(op: byte): Bytes
  {
    match op
    case 1 => Ascii("session.hello")
    case 2 => Ascii("session.authenticate")
    case 3 => Ascii("session.profiles")
    case _ => Ascii("session.ready")
  }

  /** A session message, in every field but the lengths and the checksum: a core type, broadcast,
      with five seconds to live. */
  predicate Complete(r: Envelope, me: Identity, sid: u64, op: byte, payload: Bytes,
                     correlation: u64, id: u64, now: u64)
  {
    r == Envelope(2, 2, 0, r.headerLen, r.payloadLen, ReliableOrdered, Session, op, 2, sid, id,
                  correlation, SourceIdentity(me.endpointUid, []), TargetSelector(Broadcast, []),
                  TypeRef(CORE_PROFILE, 2, 0, MessageName(op)), now, 5000, payload,
                  SecurityContext(0, []), r.checksum)
  }

  lemma SentComplete(me: Identity, sid: u64, op: byte, payload: Bytes, correlation: u64, id: u64,
                     now: u64)
    ensures Complete(SessionEnvelope(me, sid, op, payload, correlation, id, now), me, sid, op,
                     payload, correlation, id, now)
  {
    hide Ascii;
  }

  /** And so it arrives. */
  lemma SessionMessageExactly(me: Identity, sid: u64, op: byte, payload: Bytes, correlation: u64,
                              id: u64, now: u64)
    requires ValidUid(me.endpointUid) && |payload| <= MAX_PAYLOAD_BYTES && id > 0
    ensures
      var c := Carried(SessionEnvelope(me, sid, op, payload, correlation, id, now), now);
      |c| == 1 && Complete(c[0], me, sid, op, payload, correlation, id, now)
  {
    hide Encode, Decode, Encodable, ValidUid, Printed, MessageName, SessionEnvelope;
    var e := SessionEnvelope(me, sid, op, payload, correlation, id, now);
    SessionEnvelopeEncodable(me, sid, op, payload, correlation, id, now);
    SentComplete(me, sid, op, payload, correlation, id, now);
    EncodeAccepts(e, now);
    RoundTrip(e, true, now, []);
    TimesKept(e, now, []);
    assert Encode(e, true, now) + [] == Encode(e, true, now);
  }

  lemma OpeningFits(me: Identity, n: nat)
    requires Fit(me)
    ensures |OpeningPayload(me, n)| <= MAX_PAYLOAD_BYTES
  {
    hide EncodeProfileList;
  }

  // The states, in closed form

  predicate SameSecret(p: Setup)
  {
    p.a.sharedSecret == p.b.sharedSecret
  }

  /** The opener's messages the answering end has handled determine its entry. */
  function EntryOfB(p: Setup, handled: nat): SessionInfo
  {
    var agreed := Negotiate(p.b.profiles, p.a.profiles);
    var blank := FreshSession(SessionKey(p.peerAtB, p.sid));
    var pinned := blank.(remoteUid := p.a.endpointUid);
    if handled == 0 then blank
    else if handled == 1 then pinned
    else
      var proved := pinned.(authenticated := SameSecret(p),
                            state := if SameSecret(p) then Authenticated else Invalid);
      if handled == 2 then proved
      else
        proved.(negotiated := agreed.negotiated, rejected := agreed.rejected,
                state := if !SameSecret(p) then Invalid
                         else if handled == 3 then Negotiated else Active)
  }

  /** How many replies the answering end has sent. */
  function Replies(p: Setup, handled: nat): nat
  {
    if handled < 3 then 0 else if handled == 3 || !SameSecret(p) then 1 else 2
  }

  function EntryOfA(p: Setup, handled: nat): SessionInfo
  {
    var agreed := Negotiate(p.a.profiles, p.b.profiles);
    var blank := FreshSession(SessionKey(p.peerAtA, p.sid));
    if handled == 0 then blank
    else
      blank.(remoteUid := p.b.endpointUid, negotiated := agreed.negotiated,
             rejected := agreed.rejected, authenticated := handled > 1,
             state := if handled == 1 then Negotiated else Active)
  }

  predicate OpeningQueued(p: Setup, queue: seq<Envelope>, from: nat)
  {
    forall m :: 0 <= m < |queue| && from + m < 4 ==>
      && Means(queue[m], p.a, p.sid, OpeningOperation(from + m), OpeningPayload(p.a, from + m))
      && queue[m].correlationId == 0 && queue[m].messageId > 0
  }

  predicate RepliesQueued(p: Setup, queue: seq<Envelope>, from: nat)
  {
    forall m :: 0 <= m < |queue| ==>
      && queue[m].correlationId > 0
      && (from + m == 0 ==>
            Means(queue[m], p.b, p.sid, OP_PROFILES, EncodeProfileList(p.b.profiles)))
      && (from + m == 1 ==> Means(queue[m], p.b, p.sid, OP_READY, []))
  }

  /** Where a run can be: three counts determine both entries and both channels. */
  predicate Good(p: Setup, w: World)
  {
    && w.handledByB <= w.sent <= 4
    && w.handledByA <= Replies(p, w.handledByB)
    && w.a == EntryOfA(p, w.handledByA)
    && w.b == EntryOfB(p, w.handledByB)
    && |w.toB| == w.sent - w.handledByB
    && OpeningQueued(p, w.toB, w.handledByB)
    && |w.toA| == Replies(p, w.handledByB) - w.handledByA
    && RepliesQueued(p, w.toA, w.handledByA)
  }

  // Single messages

  lemma TextsReadBack(me: Identity)
    requires Fit(me)
    ensures DecodeText(EncodeText(me.endpointUid)) == Some(me.endpointUid)
    ensures DecodeText(EncodeText(me.sharedSecret)) == Some(me.sharedSecret)
    ensures DecodeProfileList(EncodeProfileList(me.profiles)) == Some(me.profiles)
  {
    hide DecodeText, EncodeText, DecodeProfileList, EncodeProfileList, Decodable;
    TextRoundTrip(me.endpointUid);
    TextRoundTrip(me.sharedSecret);
    ProfileListRoundTrip(me.profiles);
  }

  /** The answering end on the opener's message number `n`. */
  lemma OpeningAtB(p: Setup, n: nat, e: Envelope)
    requires Fit(p.a) && n < 4
    requires Means(e, p.a, p.sid, OpeningOperation(n), OpeningPayload(p.a, n))
    requires e.correlationId == 0
    ensures AfterMessage(p.b, EntryOfB(p, n), e) == EntryOfB(p, n + 1)
    ensures ReplyTo(p.b, EntryOfB(p, n), e)
         == if n == 2 then ReplyProfiles
            else if n == 3 && SameSecret(p) then ReplyReady else NoReply
  {
    hide DecodeText, EncodeText, DecodeProfileList, EncodeProfileList, Negotiate;
    TextsReadBack(p.a);
  }

  /** The opener on reply number `n`. */
  lemma ReplyAtA(p: Setup, n: nat, e: Envelope)
    requires Fit(p.b) && n < 2 && e.correlationId > 0
    requires n == 0 ==> Means(e, p.b, p.sid, OP_PROFILES, EncodeProfileList(p.b.profiles))
    requires n == 1 ==> Means(e, p.b, p.sid, OP_READY, [])
    ensures AfterMessage(p.a, EntryOfA(p, n), e) == EntryOfA(p, n + 1)
    ensures ReplyTo(p.a, EntryOfA(p, n), e) == NoReply
  {
    hide DecodeText, EncodeText, DecodeProfileList, EncodeProfileList, Negotiate, ValidUid;
    TextsReadBack(p.b);
  }

  // Steps

  lemma SendKeepsGood(p: Setup, w: World, id: u64, now: u64)
    requires Fit(p.a) && Good(p, w) && id > 0
    ensures Good(p, Next(p, w, SendNext(id, now)))
  {
    hide Carried, SessionEnvelope, OpeningPayload, EntryOfA, EntryOfB, ValidUid, UniqueIds,
      EncodeProfileList, Decodable;
    if w.sent < 4 {
      var n := w.sent;
      OpeningFits(p.a, n);
      MessageSurvives(p.a, p.sid, OpeningOperation(n), OpeningPayload(p.a, n), 0, id, now);
    }
  }

  lemma AnswerMeans(p: Setup, reply: Reply, correlation: u64, id: u64, now: u64)
    requires Fit(p.b) && id > 0
    ensures
      var c := Answer(p.b, p.sid, reply, correlation, id, now);
      && (reply.NoReply? ==> c == [])
      && (!reply.NoReply? ==> |c| == 1 && c[0].correlationId == correlation)
      && (reply.ReplyProfiles? ==>
            Means(c[0], p.b, p.sid, OP_PROFILES, EncodeProfileList(p.b.profiles)))
      && (reply.ReplyReady? ==> Means(c[0], p.b, p.sid, OP_READY, []))
  {
    hide Carried, SessionEnvelope, EncodeProfileList, UniqueIds, Decodable, ValidUid;
    MessageSurvives(p.b, p.sid, OP_PROFILES, EncodeProfileList(p.b.profiles), correlation, id, now);
    MessageSurvives(p.b, p.sid, OP_READY, [], correlation, id, now);
  }

  lemma AtBKeepsGood(p: Setup, w: World, id: u64, now: u64)
    requires Fit(p.a) && Fit(p.b) && Good(p, w) && id > 0
    ensures Good(p, Next(p, w, AtB(id, now)))
  {
    hide Answer, OpeningPayload, EntryOfA, EntryOfB, AfterMessage, ReplyTo, EncodeProfileList, Fit;
    if w.toB != [] {
      var e, n := w.toB[0], w.handledByB;
      OpeningAtB(p, n, e);
      AnswerMeans(p, ReplyTo(p.b, w.b, e), e.messageId, id, now);
    }
  }

  lemma AtAKeepsGood(p: Setup, w: World, id: u64, now: u64)
    requires Fit(p.b) && Good(p, w)
    ensures Good(p, Next(p, w, AtA(id, now)))
  {
    hide OpeningPayload, EntryOfA, EntryOfB, AfterMessage, ReplyTo, EncodeProfileList, Fit;
    if w.toA != [] {
      ReplyAtA(p, w.handledByA, w.toA[0]);
    }
  }

  lemma {:induction false} EveryWorld(p: Setup, steps: seq<Step>)
    requires Fit(p.a) && Fit(p.b) && Numbered(steps)
    ensures Good(p, Reached(p, steps))
    decreases |steps|
  {
    hide Good, Next, Fit;
    if steps == [] {
      OpeningGood(p);
    } else {
      var init, step := steps[..|steps| - 1], steps[|steps| - 1];
      EveryWorld(p, init);
      var w := Reached(p, init);
      match step
      case SendNext(id, now) => SendKeepsGood(p, w, id, now);
      case AtB(id, now) => AtBKeepsGood(p, w, id, now);
      case AtA(id, now) => AtAKeepsGood(p, w, id, now);
    }
  }

  lemma OpeningGood(p: Setup)
    ensures Good(p, Opening(p))
  {
  }

  // Results

  /** How many steps of the run did anything. */
  function Progress(w: World): nat
  {
    w.sent + w.handledByB + w.handledByA
  }

  function Longest(p: Setup): nat
  {
    if SameSecret(p) then 10 else 9
  }

  /** Nothing is left to send or to deliver. */
  predicate Quiet(w: World)
  {
    w.sent == 4 && w.toB == [] && w.toA == []
  }

  /** The step that sends or delivers whatever is waiting. */
  function Waiting(w: World, id: u64, now: u64): Step
  {
    if w.sent < 4 then SendNext(id, now) else if w.toB != [] then AtB(id, now) else AtA(id, now)
  }

  /** A run that is not quiet can go on, and the step it can take makes progress. */
  lemma NotQuietMoves(p: Setup, steps: seq<Step>, id: u64, now: u64)
    requires Fit(p.a) && Fit(p.b) && Numbered(steps) && !Quiet(Reached(p, steps))
    ensures
      var w := Reached(p, steps);
      var w' := Reached(p, steps + [Waiting(w, id, now)]);
      Progress(w') == Progress(w) + 1
  {
    hide Fit, AfterMessage, ReplyTo, Answer, Carried, SessionEnvelope, EntryOfA, EntryOfB,
      OpeningQueued, RepliesQueued;
    var step := Waiting(Reached(p, steps), id, now);
    assert (steps + [step])[..|steps|] == steps;
    EveryWorld(p, steps);
  }

  /**
   The handshake ends. A step either does nothing or makes progress, none undoes any, and there
   are at most ten that do something: four messages of the opener, four deliveries and two
   replies, which are never answered. A run is quiet exactly when they have all been taken.
   */
  lemma HandshakeEnds(p: Setup, steps: seq<Step>, step: Step)
    requires Fit(p.a) && Fit(p.b) && Numbered(steps + [step])
    ensures
      var w, w' := Reached(p, steps), Reached(p, steps + [step]);
      && (w' == w || Progress(w') == Progress(w) + 1)
      && Progress(w') <= Longest(p)
      && (Quiet(w) ==> w' == w)
      && (Quiet(w) <==> Progress(w) == Longest(p))
  {
    hide Fit, Negotiate, AfterMessage, ReplyTo, Answer, Carried, SessionEnvelope,
      OpeningPayload, EntryOfA, EntryOfB, OpeningQueued, RepliesQueued;
    assert (steps + [step])[..|steps|] == steps;
    assert Numbered(steps) by {
      assert forall i :: 0 <= i < |steps| ==> (steps + [step])[i] == steps[i];
    }
    EveryWorld(p, steps);
    EveryWorld(p, steps + [step]);
  }

  /**
   With the same secret, a quiet run has both ends Active, each with the other's uid pinned,
   and with the same negotiated profiles.
   */
  lemma BothActive(p: Setup, steps: seq<Step>)
    requires Fit(p.a) && Fit(p.b) && Numbered(steps)
    requires SameSecret(p) && Quiet(Reached(p, steps))
    ensures
      var w := Reached(p, steps);
      && w.a.state == Active && w.b.state == Active
      && w.a.authenticated && w.b.authenticated
      && w.a.remoteUid == p.b.endpointUid && w.b.remoteUid == p.a.endpointUid
      && w.a.negotiated == w.b.negotiated
  {
    hide Negotiate, UniqueIds;
    EveryWorld(p, steps);
    assert UniqueIds(p.a.profiles) && UniqueIds(p.b.profiles);
    NegotiationSymmetric(p.a.profiles, p.b.profiles);
  }

  /** With different secrets neither end becomes Active, at any point of any run. */
  lemma NeitherActive(p: Setup, steps: seq<Step>)
    requires Fit(p.a) && Fit(p.b) && Numbered(steps) && !SameSecret(p)
    ensures
      var w := Reached(p, steps);
      && w.a.state != Active && w.b.state != Active
      && (Quiet(w) ==> w.b.state == Invalid && !w.b.authenticated && !w.a.authenticated)
  {
    hide Negotiate, Fit;
    EveryWorld(p, steps);
  }

  /**
   The gates agree. At any point of any run, a type that the opener's sending gate admits is
   one the answering end's profile check admits; and once the opener has handled the reply,
   the same holds the other way.
   */
  lemma GatesAgree(p: Setup, steps: seq<Step>, id: Bytes, major: u16, minor: u16)
    requires Fit(p.a) && Fit(p.b) && Numbered(steps)
    ensures
      var w := Reached(p, steps);
      && (w.a.SupportsProfile(id, major, minor) ==> w.b.SupportsProfile(id, major, minor))
      && (w.handledByA > 0 && w.b.SupportsProfile(id, major, minor) ==>
            w.a.SupportsProfile(id, major, minor))
  {
    hide Negotiate, UniqueIds;
    EveryWorld(p, steps);
    assert UniqueIds(p.a.profiles) && UniqueIds(p.b.profiles);
    NegotiationSymmetric(p.a.profiles, p.b.profiles);
  }
}
