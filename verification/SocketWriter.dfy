/**
 Writing one frame to a socket that accepts any prefix of what it is offered, with or without an
 error. The socket keeps what was exchanged with it, and the status reported is a function of it.
 */
module SocketWriter {
  import opened ByteLayout

  const WRITE_QUANTUM_BYTES := 16 * 1024
  const CONGESTION_RETRY_LIMIT := 1000

  datatype WriteStatus = Complete | Congested | Disconnected

  /** What the socket reports: success, would-block or try-again, or any other error. */
  datatype SocketError = Fine | WouldBlock | Failed

  /** One exchange with the socket: the `running` callback, or a write of some of the bytes. */
  datatype Call = Asked(running: bool) | Wrote(offered: nat, sent: nat, error: SocketError)

  /** The peer's end of the byte stream: it holds what the socket has accepted so far. */
  class Socket {
    var wire: Bytes
    /** Every exchange so far. */
    ghost var calls: seq<Call>

    constructor ()
      ensures wire == [] && calls == []
    {
      wire := [];
      calls := [];
    }

    /** `write_some`: any prefix of the chunk may go out, with or without an error. */
    method WriteSome(chunk: Bytes) returns (sent: nat, error: SocketError)
      requires 0 < |chunk| <= WRITE_QUANTUM_BYTES
      modifies this
      ensures sent <= |chunk| && wire == old(wire) + chunk[..sent]
      ensures calls == old(calls) + [Wrote(|chunk|, sent, error)]
    {
      sent :| 0 <= sent <= |chunk|;
      error := *;
      wire := wire + chunk[..sent];
      calls := calls + [Wrote(|chunk|, sent, error)];
    }

    /** The `running` callback: other threads may clear the flag at any time. */
    method Running() returns (running: bool)
      modifies this`calls
      ensures calls == old(calls) + [Asked(running)]
    {
      running := *;
      calls := calls + [Asked(running)];
    }
  }

  // What the exchanges of one frame say

  function SentBy(calls: seq<Call>): nat
  {
    if calls == [] then 0
    else
      var c := calls[|calls| - 1];
      SentBy(calls[..|calls| - 1]) + if c.Wrote? then c.sent else 0
  }

  /** The socket was seen to have been stopped. */
  predicate Halted(calls: seq<Call>)
  {
    Asked(false) in calls
  }

  /** A write failed, or succeeded without a byte. */
  predicate Faulted(calls: seq<Call>)
  {
    exists i :: 0 <= i < |calls| && calls[i].Wrote?
      && (calls[i].error == Failed || (calls[i].error == Fine && calls[i].sent == 0))
  }

  /** How many writes would block in a row, counting from the last one that sent a byte. */
  function Stalls(calls: seq<Call>): nat
  {
    if calls == [] then 0
    else
      var before := Stalls(calls[..|calls| - 1]);
      match calls[|calls| - 1]
      case Wrote(_, sent, Fine) => 0
      case Wrote(_, sent, WouldBlock) => if sent == 0 then before + 1 else 1
      case _ => before
  }

  /**
   What the writer must report of a frame after these exchanges: a fault means Disconnected,
   more retries in a row than allowed mean Congested, and otherwise the frame is complete. A
   socket that was stopped before the last byte is asked once more, and the answer decides.
   */
  function Verdict(bytes: Bytes, retryLimit: nat, calls: seq<Call>): WriteStatus
  {
    if bytes == [] || Faulted(calls) then Disconnected
    else if Stalls(calls) > retryLimit then Congested
    else if SentBy(calls) == |bytes| then Complete
    else if calls != [] && calls[|calls| - 1] == Asked(true) then Congested
    else Disconnected
  }

  /** Every write is offered all that is left, up to the quantum. */
  predicate OffersRest(bytes: Bytes, calls: seq<Call>)
  {
    forall i :: 0 <= i < |calls| && calls[i].Wrote? ==>
      calls[i].offered == (if |bytes| - SentBy(calls[..i]) > 16384 then 16384
                           else |bytes| - SentBy(calls[..i]))
  }

  lemma OneMoreCall(bytes: Bytes, calls: seq<Call>, c: Call)
    ensures SentBy(calls + [c]) == SentBy(calls) + if c.Wrote? then c.sent else 0
    ensures Halted(calls + [c]) <==> Halted(calls) || c == Asked(false)
    ensures Faulted(calls + [c]) <==>
      || Faulted(calls)
      || (c.Wrote? && (c.error == Failed || (c.error == Fine && c.sent == 0)))
    ensures Stalls(calls + [c])
         == match c
            case Wrote(_, sent, Fine) => 0
            case Wrote(_, sent, WouldBlock) => if sent == 0 then Stalls(calls) + 1 else 1
            case _ => Stalls(calls)
    ensures OffersRest(bytes, calls + [c]) <==>
      && OffersRest(bytes, calls)
      && (c.Wrote? ==>
            c.offered == (if |bytes| - SentBy(calls) > 16384 then 16384
                          else |bytes| - SentBy(calls)))
  {
    var more := calls + [c];
    assert more[..|calls|] == calls && more[|calls|] == c;
    forall i | 0 <= i < |calls|
      ensures more[i] == calls[i] && more[..i] == calls[..i]
    {
    }
  }

  /** Where the writer is after these exchanges, none of which was a fault. */
  predicate Tracks(bytes: Bytes, calls: seq<Call>, offset: nat, retryCount: nat)
  {
    && SentBy(calls) == offset && OffersRest(bytes, calls)
    && !Faulted(calls) && Stalls(calls) == retryCount
  }

  lemma NoCalls(bytes: Bytes, calls: seq<Call>)
    requires calls == []
    ensures Tracks(bytes, calls, 0, 0) && !Halted(calls)
  {
  }

  /** One more question. */
  lemma Asks(bytes: Bytes, calls: seq<Call>, running: bool, offset: nat, retryCount: nat)
    requires Tracks(bytes, calls, offset, retryCount)
    ensures Tracks(bytes, calls + [Asked(running)], offset, retryCount)
    ensures !running || Halted(calls) ==> Halted(calls + [Asked(running)])
  {
    hide SentBy, Stalls, Faulted, OffersRest;
    OneMoreCall(bytes, calls, Asked(running));
  }

  /** One more write of all that is left, up to the quantum. */
  lemma Writes(bytes: Bytes, calls: seq<Call>, offset: nat, retryCount: nat, size: nat, sent: nat,
               error: SocketError)
    requires Tracks(bytes, calls, offset, retryCount) && offset <= |bytes|
    requires size == if |bytes| - offset > 16384 then 16384 else |bytes| - offset
    ensures
      var more := calls + [Wrote(size, sent, error)];
      && SentBy(more) == offset + sent && OffersRest(bytes, more)
      && (error == Failed || (error == Fine && sent == 0) ==> Faulted(more))
      && (error == Fine && sent > 0 ==> Tracks(bytes, more, offset + sent, 0))
      && (error == WouldBlock ==>
            Tracks(bytes, more, offset + sent, if sent > 0 then 1 else retryCount + 1))
  {
    hide SentBy, Stalls, Faulted, OffersRest;
    OneMoreCall(bytes, calls, Wrote(size, sent, error));
  }

  /**
   What is reported, against the exchanges: the status they ask for and the bytes they sent.
   Complete means all bytes, Congested that some are left if retries are allowed at all, and
   without a fault, a stopped socket or too many retries the frame is complete.
   */
  predicate Judged(bytes: Bytes, retryLimit: nat, calls: seq<Call>, status: WriteStatus,
                   written: nat)
  {
    && written == SentBy(calls) && status == Verdict(bytes, retryLimit, calls)
    && OffersRest(bytes, calls)
    && (status == Complete ==> written == |bytes| && bytes != [])
    && (status == Congested && retryLimit > 0 ==> written < |bytes|)
    && (status != Complete ==>
          bytes == [] || Faulted(calls) || Halted(calls) || Stalls(calls) > retryLimit)
  }

  /**
   `write_frame_chunks`. Exactly the first `written` bytes go out, once and in order, and the
   status is what the exchanges with the socket make it. It terminates because every retry
   either sends a byte or uses up one of the retries left.
   */
  method WriteFrameChunks(bytes: Bytes, socket: Socket, retryLimit: nat)
    returns (status: WriteStatus, written: nat, ghost calls: seq<Call>)
    modifies socket
    ensures written <= |bytes| && socket.wire == old(socket.wire) + bytes[..written]
    ensures socket.calls == old(socket.calls) + calls
    ensures Judged(bytes, retryLimit, calls, status, written)
  {
    hide SentBy, Stalls, Faulted, Halted, OffersRest, Judged;
    calls := [];
    NoCalls(bytes, calls);
    if bytes == [] {
      NothingToWrite(bytes, retryLimit, calls);
      return Disconnected, 0, calls;
    }
    hide Tracks;
    var running := socket.Running();
    Asks(bytes, calls, running, 0, 0);
    calls := calls + [Asked(running)];
    if !running {
      Reporting(bytes, retryLimit, calls, 0, 0, Disconnected);
      return Disconnected, 0, calls;
    }
    var offset, retryCount := 0, 0;
    running := socket.Running();
    Asks(bytes, calls, running, 0, 0);
    calls := calls + [Asked(running)];
    while offset < |bytes| && running
      invariant offset <= |bytes| && retryCount <= retryLimit
      invariant socket.wire == old(socket.wire) + bytes[..offset]
      invariant socket.calls == old(socket.calls) + calls
      invariant Tracks(bytes, calls, offset, retryCount)
      invariant !running ==> Halted(calls)
      decreases |bytes| - offset, retryLimit - retryCount
    {
      var remaining := |bytes| - offset;
      var size := if remaining > WRITE_QUANTUM_BYTES then WRITE_QUANTUM_BYTES else remaining;
      var sent, error := socket.WriteSome(bytes[offset..offset + size]);
      Writes(bytes, calls, offset, retryCount, size, sent, error);
      calls := calls + [Wrote(size, sent, error)];
      WrittenFurther(bytes, offset, size, sent);
      offset := offset + sent;
      if error == Fine {
        if sent == 0 {
          Failing(bytes, retryLimit, calls, offset);
          return Disconnected, offset, calls;
        }
        retryCount := 0;
      } else if error == WouldBlock {
        retryCount := (if sent != 0 then 0 else retryCount) + 1;
        if retryCount > retryLimit {
          Reporting(bytes, retryLimit, calls, offset, retryCount, Congested);
          return Congested, offset, calls;
        }
      } else {
        Failing(bytes, retryLimit, calls, offset);
        return Disconnected, offset, calls;
      }
      running := socket.Running();
      Asks(bytes, calls, running, offset, retryCount);
      calls := calls + [Asked(running)];
    }
    if offset == |bytes| {
      Reporting(bytes, retryLimit, calls, offset, retryCount, Complete);
      return Complete, offset, calls;
    }
    running := socket.Running();
    Asks(bytes, calls, running, offset, retryCount);
    calls := calls + [Asked(running)];
    status := if running then Congested else Disconnected;
    Reporting(bytes, retryLimit, calls, offset, retryCount, status);
    return status, offset, calls;
  }

  lemma WrittenFurther(bytes: Bytes, offset: nat, size: nat, sent: nat)
    requires offset + size <= |bytes| && sent <= size
    ensures bytes[..offset] + bytes[offset..offset + size][..sent] == bytes[..offset + sent]
  {
  }

  lemma NothingToWrite(bytes: Bytes, retryLimit: nat, calls: seq<Call>)
    requires bytes == [] && calls == []
    ensures Judged(bytes, retryLimit, calls, Disconnected, 0)
  {
  }

  lemma Failing(bytes: Bytes, retryLimit: nat, calls: seq<Call>, offset: nat)
    requires Faulted(calls) && SentBy(calls) == offset && OffersRest(bytes, calls)
    ensures Judged(bytes, retryLimit, calls, Disconnected, offset)
  {
    hide SentBy, Stalls, Faulted, OffersRest;
  }

  /** What is to be reported where the writer is. */
  lemma Reporting(bytes: Bytes, retryLimit: nat, calls: seq<Call>, offset: nat, retryCount: nat,
                  status: WriteStatus)
    requires Tracks(bytes, calls, offset, retryCount) && calls != [] && bytes != []
    requires offset <= |bytes|
    requires
      if retryCount > retryLimit then status == Congested && (retryLimit > 0 ==> offset < |bytes|)
      else if offset == |bytes| then status == Complete
      else status == (if calls[|calls| - 1] == Asked(true) then Congested else Disconnected)
           && Halted(calls)
    ensures Judged(bytes, retryLimit, calls, status, offset)
  {
    hide SentBy, Stalls, Faulted, OffersRest, Halted;
  }
}
