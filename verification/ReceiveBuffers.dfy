/**
 The receive buffer as the program updates it: scanning for the magic, erasing from the
 front, recovering from overflow, and the two nested loops of the receive thread. Each method
 is proved equal to its specification in `Receive`.
 */
module ReceiveBuffers {
  import opened ByteLayout
  import opened Wire
  import opened FixedHeader
  import opened WireCodec
  import opened WireCodecLoops
  import opened Receive

  /** What one call of `pop_frame` reports. */
  datatype PopResult = NoFrame | Bad(code: ErrorCode) | Frame(envelope: Envelope)

  function ResultOf(p: Popped): PopResult
  {
    match p
    case Nothing(_) => NoFrame
    case Failed(code, _) => Bad(code)
    case Got(e, _) => Frame(e)
  }

  class ReceiveBuffer {
    const maxBytes: nat
    var bytes: Bytes
    var open: bool
    /** What was reported to the subscribers, oldest first. */
    var events: seq<Event>

    constructor (max: nat)
      ensures State() == FRESH && maxBytes == max
    {
      maxBytes := max;
      bytes, open, events := [], true, [];
    }

    ghost function State(): Receiver
      reads this
    {
      Receiver(bytes, events, open)
    }

    /** The inner loop of `pop_frame` and of `recover_receive_overflow`. */
    method ScanForMagic(start: nat) returns (magic: nat)
      ensures magic == FindMagic(bytes, start)
    {
      magic := start;
      while magic + 3 < |bytes| && !HasMagic(bytes[magic..])
        invariant start <= magic
        invariant FindMagic(bytes, magic) == FindMagic(bytes, start)
        decreases |bytes| - magic
      {
        magic := magic + 1;
      }
    }

    /** `pop_frame`. */
    method PopFrame() returns (result: PopResult)
      modifies this`bytes
      ensures
        var p := Receive.PopFrame(old(bytes), maxBytes);
        result == ResultOf(p) && bytes == p.rest
    {
      hide Decode, HasMagic, FieldLe;
      if |bytes| < 4 {
        return NoFrame;
      }
      var magic := ScanForMagic(0);
      if magic + 3 >= |bytes| {
        bytes := [];
        return NoFrame;
      }
      bytes := bytes[magic..];
      if |bytes| < 14 {
        return NoFrame;
      }
      var headerLen := ReadLe(bytes, 8, 2);
      var payloadLen := ReadLe(bytes, 10, 4);
      var frameLen := headerLen + payloadLen + TRAILER_SIZE;
      if headerLen < FIXED_HEADER_SIZE || frameLen > maxBytes {
        bytes := bytes[1..];
        return Bad(DecodeError);
      }
      if |bytes| < frameLen {
        return NoFrame;
      }
      var decoded := DecodeFrame(bytes[..frameLen]);
      match decoded
      case Rejected(code, _) =>
        bytes := bytes[frameLen..];
        return Bad(code);
      case Accepted(envelope, consumed) =>
        ConsumedBound(bytes[..frameLen]);
        bytes := bytes[consumed..];
        return Frame(envelope);
    }

    /** `recover_receive_overflow`. */
    method RecoverOverflow() returns (ok: bool)
      modifies this`bytes
      ensures Recovery(ok, bytes) == Recover(old(bytes), maxBytes)
    {
      hide HasMagic, U16At, U32At;
      while |bytes| > maxBytes
        invariant Recover(bytes, maxBytes) == Recover(old(bytes), maxBytes)
        decreases |bytes|
      {
        var peek := PeekHeader(bytes);
        if peek.Some? {
          if !Lossy(peek.value.qos) {
            return false;
          }
          bytes := bytes[Min(|bytes|, peek.value.frameLen)..];
          continue;
        }
        var magic := ScanForMagic(1);
        if magic + 3 >= |bytes| {
          bytes := [];
          return true;
        }
        bytes := bytes[magic..];
      }
      return true;
    }

    /** The inner receive loop: every frame that can be popped is reported. */
    method DrainFrames()
      modifies this`bytes, this`events
      ensures
        var (reported, rest) := Drain(old(bytes), maxBytes);
        bytes == rest && events == old(events) + reported
    {
      hide Receive.PopFrame;
      while true
        invariant
          var (more, rest) := Drain(bytes, maxBytes);
          var (reported, rest') := Drain(old(bytes), maxBytes);
          rest == rest' && events + more == old(events) + reported
        decreases |bytes|
      {
        ghost var before := bytes;
        var result := PopFrame();
        match result {
          case NoFrame =>
            assert events + [] == events;
            return;
          case Bad(code) =>
            RegroupEvents(events, FrameRejected(code), Drain(bytes, maxBytes).0);
            events := events + [FrameRejected(code)];
          case Frame(envelope) =>
            RegroupEvents(events, Received(envelope), Drain(bytes, maxBytes).0);
            events := events + [Received(envelope)];
        }
      }
    }

    lemma RegroupEvents(a: seq<Event>, x: Event, b: seq<Event>)
      ensures a + ([x] + b) == a + [x] + b
    {
    }

    /** One turn of the receive loop. */
    method OnChunk(chunk: Bytes)
      requires open
      modifies this
      ensures State() == Feed(old(State()), chunk, maxBytes)
    {
      hide Drain, Recover;
      bytes := bytes + chunk;
      if |bytes| > maxBytes {
        var ok := RecoverOverflow();
        if !ok {
          open := false;
          return;
        }
        events := events + [LossyDropped];
      }
      DrainFrames();
    }

    /** `runtime_receive_loop` on the chunks that were read, until it gives up. */
    method ReceiveLoop(chunks: seq<Bytes>)
      requires State() == FRESH
      modifies this
      ensures State() == FeedAll(chunks, maxBytes)
    {
      hide Feed;
      var i := 0;
      assert chunks[..0] == [];
      while i < |chunks| && open
        invariant i <= |chunks| && State() == FeedAll(chunks[..i], maxBytes)
      {
        assert chunks[..i + 1][..i] == chunks[..i];
        OnChunk(chunks[i]);
        i := i + 1;
      }
      ClosedStaysClosed(chunks, i);
      assert chunks[..|chunks|] == chunks;
    }

    lemma {:induction false} ClosedStaysClosed(chunks: seq<Bytes>, i: nat)
      requires i <= |chunks| && (i < |chunks| ==> !FeedAll(chunks[..i], maxBytes).open)
      ensures FeedAll(chunks, maxBytes) == FeedAll(chunks[..i], maxBytes)
      decreases |chunks| - i
    {
      if i == |chunks| {
        assert chunks[..i] == chunks;
      } else {
        assert chunks[..i + 1][..i] == chunks[..i];
        ClosedStaysClosed(chunks, i + 1);
      }
    }
  }
}
