/**
 The receiving half as functions on the buffer: finding one frame, draining the buffer,
 recovering from overflow, and feeding a chunk. `ReceiveBuffers` holds the loops.
 */
module Receive {
  import opened ByteLayout
  import opened Wire
  import opened FixedHeader
  import opened WireCodec

  const MAX_CHUNK := 8192

  // One frame

  /** The scan for the magic: the first match at or after `at`, or the last three bytes. */
  function FindMagic(b: Bytes, at: nat): (r: nat)
    ensures at <= r && (r > at ==> r + 3 <= |b|)
    ensures r + 3 < |b| ==> HasMagic(b[r..])
    ensures forall i :: at <= i < r ==> !HasMagic(b[i..])
    decreases |b| - at
  {
    if at + 3 < |b| && !HasMagic(b[at..]) then FindMagic(b, at + 1) else at
  }

  datatype Popped =
    | Nothing(rest: Bytes)
    | Failed(code: ErrorCode, rest: Bytes)
    | Got(envelope: Envelope, rest: Bytes)

  /** `pop_frame`. */
  function PopFrame(b: Bytes, max: nat): (r: Popped)
    ensures !r.Nothing? ==> |r.rest| < |b|
  {
    if |b| < 4 then Nothing(b)
    else
      var m := FindMagic(b, 0);
      if m + 3 >= |b| then Nothing([])
      else if |b[m..]| < 14 then Nothing(b[m..])
      else PopAnnounced(b[m..], max)
  }

  /** The frame announced at the front of a buffer. */
  function PopAnnounced(b: Bytes, max: nat): (r: Popped)
    requires |b| >= 14
    ensures !r.Nothing? ==> |r.rest| < |b|
  {
    var headerLen := U16At(b, 8);
    var frameLen := headerLen + U32At(b, 10) + TRAILER_SIZE;
    if headerLen < FIXED_HEADER_SIZE || frameLen > max then Failed(DecodeError, b[1..])
    else if |b| < frameLen then Nothing(b)
    else
      match Decode(b[..frameLen])
      case Rejected(code, _) => Failed(code, b[frameLen..])
      case Accepted(e, n) =>
        ConsumedBound(b[..frameLen]);
        Got(e, b[n..])
  }

  lemma ConsumedBound(data: Bytes)
    requires Decode(data).Accepted?
    ensures 0 < Decode(data).consumed <= |data|
  {
    hide HasMagic, ParseTexts, KnownEnumerators, AcceptableTexts, EnvelopeOf, FieldLe;
  }

  /** Whatever `pop_frame` does, the buffer becomes a suffix of itself. */
  lemma PopLeavesSuffix(b: Bytes, max: nat)
    ensures
      var r := PopFrame(b, max).rest;
      |r| <= |b| && r == b[|b| - |r|..]
  {
    hide Decode, U16At, U32At, HasMagic;
    if |b| >= 4 {
      var m := FindMagic(b, 0);
      if m + 3 < |b| && |b[m..]| >= 14 {
        AnnouncedLeavesSuffix(b[m..], max);
        var r := PopAnnounced(b[m..], max).rest;
        assert b[m..][|b| - m - |r|..] == b[|b| - |r|..];
      }
    }
  }

  lemma AnnouncedLeavesSuffix(b: Bytes, max: nat)
    requires |b| >= 14
    ensures
      var r := PopAnnounced(b, max).rest;
      |r| <= |b| && r == b[|b| - |r|..]
  {
    hide Decode, U16At, U32At;
    var frameLen := U16At(b, 8) + U32At(b, 10) + TRAILER_SIZE;
    if frameLen <= |b| && Decode(b[..frameLen]).Accepted? {
      ConsumedBound(b[..frameLen]);
    }
  }

  // Draining

  datatype Event = Received(envelope: Envelope) | FrameRejected(code: ErrorCode) | LossyDropped

  /** The inner receive loop: pop until nothing more comes out. */
  function Drain(b: Bytes, max: nat): (seq<Event>, Bytes)
    decreases |b|
  {
    match PopFrame(b, max)
    case Nothing(rest) => ([], rest)
    case Failed(code, rest) =>
      var (events, left) := Drain(rest, max);
      ([FrameRejected(code)] + events, left)
    case Got(e, rest) =>
      var (events, left) := Drain(rest, max);
      ([Received(e)] + events, left)
  }

  // Overflow recovery

  datatype Peek = Peek(frameLen: nat, qos: QosClass)

  /** `peek_frame_header`. */
  function PeekHeader(b: Bytes): (r: Option<Peek>)
    ensures r.Some? ==> r.value.frameLen > 0 && |b| >= 15
  {
    if |b| < 15 || !HasMagic(b) then None
    else if U16At(b, 8) < FIXED_HEADER_SIZE || QosOf(b[14]).None? then None
    else Some(Peek(U16At(b, 8) + U32At(b, 10) + TRAILER_SIZE, QosOf(b[14]).value))
  }

  datatype Recovery = Recovery(ok: bool, rest: Bytes)

  function Min(a: nat, b: nat): nat
  {
    if a < b then a else b
  }

  /** `recover_receive_overflow`. */
  function Recover(b: Bytes, max: nat): (r: Recovery)
    ensures r.ok ==> |r.rest| <= max
    ensures |r.rest| <= |b|
    decreases |b|
  {
    if |b| <= max then Recovery(true, b)
    else
      match PeekHeader(b)
      case Some(p) =>
        if !Lossy(p.qos) then Recovery(false, b)
        else Recover(b[Min(|b|, p.frameLen)..], max)
      case None =>
        var m := FindMagic(b, 1);
        if m + 3 >= |b| then Recovery(true, []) else Recover(b[m..], max)
  }

  /** Recovery leaves a suffix of the buffer. */
  lemma {:induction false} RecoverLeavesSuffix(b: Bytes, max: nat)
    ensures
      var r := Recover(b, max).rest;
      |r| <= |b| && r == b[|b| - |r|..]
    decreases |b|
  {
    hide HasMagic, U16At, U32At;
    if |b| > max {
      var skip :=
        if PeekHeader(b).Some? then Min(|b|, PeekHeader(b).value.frameLen)
        else FindMagic(b, 1);
      if skip <= |b| && (PeekHeader(b).Some? || skip + 3 < |b|) {
        RecoverLeavesSuffix(b[skip..], max);
        var r := Recover(b[skip..], max).rest;
        assert b[skip..][|b| - skip - |r|..] == b[|b| - |r|..];
      }
    }
  }

  // Feeding chunks

  datatype Receiver = Receiver(buffer: Bytes, events: seq<Event>, open: bool)

  const FRESH := Receiver([], [], true)

  /** One turn of the receive loop on a chunk that was read. */
  function Feed(r: Receiver, chunk: Bytes, max: nat): Receiver
  {
    if !r.open then r
    else
      var b := r.buffer + chunk;
      if |b| <= max then
        var (events, rest) := Drain(b, max);
        Receiver(rest, r.events + events, true)
      else
        var recovery := Recover(b, max);
        if !recovery.ok then Receiver(recovery.rest, r.events, false)
        else
          var (events, rest) := Drain(recovery.rest, max);
          Receiver(rest, r.events + [LossyDropped] + events, true)
  }

  function FeedAll(chunks: seq<Bytes>, max: nat): Receiver
  {
    if chunks == [] then FRESH
    else Feed(FeedAll(chunks[..|chunks| - 1], max), chunks[|chunks| - 1], max)
  }
}
