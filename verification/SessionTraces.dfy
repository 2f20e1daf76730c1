/**
 What one end makes of any order of honest session messages.
 */
module SessionTraces {
  import opened ByteLayout
  import opened Sequences
  import opened SessionCodec
  import opened Wire
  import opened Sessions

  /** A well-formed message of the pinned source: a good hello, the right secret, a list that
      can be read, or Ready. */
  predicate Honest(me: Identity, source: Bytes, e: Envelope)
  {
    && e.source.endpointUid == source
    && (|| (e.operation == OP_HELLO && HelloAccepted(e))
        || (e.operation == OP_AUTHENTICATE && SecretAccepted(me, e))
        || (e.operation == OP_PROFILES && DecodeProfileList(e.payload).Some?)
        || e.operation == OP_READY)
  }

  predicate AllHonest(me: Identity, source: Bytes, messages: seq<Envelope>)
  {
    forall i :: 0 <= i < |messages| ==> Honest(me, source, messages[i])
  }

  /** The entry after the messages, in order. */
  function After(me: Identity, info: SessionInfo, messages: seq<Envelope>): SessionInfo
  {
    if messages == [] then info
    else
      var n := |messages| - 1;
      AfterMessage(me, After(me, info, messages[..n]), messages[n])
  }

  function Operations(messages: seq<Envelope>): (r: seq<byte>)
    ensures |r| == |messages|
  {
    seq(|messages|, i requires 0 <= i < |messages| => messages[i].operation)
  }

  /** The operations after the last Authenticate. */
  function SinceAuthenticate(ops: seq<byte>): seq<byte>
  {
    if ops == [] || ops[|ops| - 1] == OP_AUTHENTICATE then []
    else SinceAuthenticate(ops[..|ops| - 1]) + [ops[|ops| - 1]]
  }

  function ProfilesOrReady(): byte -> bool
  {
    (op: byte) => op == OP_PROFILES || op == OP_READY
  }

  /** The Profiles and Ready messages after the last Authenticate. */
  function Closing(ops: seq<byte>): seq<byte>
  {
    Select(SinceAuthenticate(ops), ProfilesOrReady())
  }

  /** Whether a state is Invalid, Negotiated or Active, as the closing messages decide it. */
  predicate StateFits(state: SessionState, ops: seq<byte>)
  {
    var t := Closing(ops);
    if t == [] then state == Handshaking || state == Authenticated
    else if t[0] == OP_READY then state == Invalid
    else if t[|t| - 1] == OP_READY then state == Active
    else state == Negotiated
  }

  lemma ClosingStep(ops: seq<byte>, op: byte)
    ensures op == OP_AUTHENTICATE ==> Closing(ops + [op]) == []
    ensures op == OP_PROFILES || op == OP_READY ==> Closing(ops + [op]) == Closing(ops) + [op]
    ensures op == OP_HELLO ==> Closing(ops + [op]) == Closing(ops)
  {
    hide Select;
    assert (ops + [op])[..|ops|] == ops;
    SelectAppend(SinceAuthenticate(ops), op, ProfilesOrReady());
    if op == OP_AUTHENTICATE {
      SelectNone<byte>([], ProfilesOrReady());
    }
  }

  lemma {:induction false} ClosingKinds(ops: seq<byte>)
    ensures forall i :: 0 <= i < |Closing(ops)| ==>
      Closing(ops)[i] == OP_PROFILES || Closing(ops)[i] == OP_READY
  {
    OnlyKinds(SinceAuthenticate(ops));
  }

  lemma {:induction false} OnlyKinds(ops: seq<byte>)
    ensures forall i :: 0 <= i < |Select(ops, ProfilesOrReady())| ==>
      ProfilesOrReady()(Select(ops, ProfilesOrReady())[i])
    decreases |ops|
  {
    if ops != [] {
      OnlyKinds(ops[..|ops| - 1]);
    }
  }

  lemma HonestStep(me: Identity, info: SessionInfo, source: Bytes, e: Envelope, ops: seq<byte>)
    requires Honest(me, source, e) && FromPinnedSource(info, source)
    requires StateFits(info.state, ops)
    ensures
      var after := AfterMessage(me, info, e);
      FromPinnedSource(after, source) && StateFits(after.state, ops + [e.operation])
  {
    hide DecodeText, DecodeProfileList, Negotiate, HelloAccepted, SecretAccepted, Closing;
    ClosingStep(ops, e.operation);
    ClosingKinds(ops);
  }

  /**
   The state of an end, exactly, after any honest messages in any order: what decides is the
   Profiles and Ready messages since the last Authenticate. The session is Active if and only if
   the first of them is Profiles and the last is Ready, and Invalid if and only if the first is
   Ready.
   */
  lemma {:induction false} ActiveExactly(me: Identity, info: SessionInfo, source: Bytes,
                                         messages: seq<Envelope>)
    requires AllHonest(me, source, messages)
    requires info.state == Handshaking && FromPinnedSource(info, source)
    ensures FromPinnedSource(After(me, info, messages), source)
    ensures StateFits(After(me, info, messages).state, Operations(messages))
    decreases |messages|
  {
    hide Honest, FromPinnedSource, StateFits, AfterMessage;
    if messages == [] {
      FreshFits();
      assert Operations(messages) == [];
    } else {
      var n := |messages| - 1;
      ActiveExactly(me, info, source, messages[..n]);
      HonestStep(me, After(me, info, messages[..n]), source, messages[n],
                 Operations(messages[..n]));
      assert Operations(messages) == Operations(messages[..n]) + [messages[n].operation];
    }
  }

  lemma FreshFits()
    ensures StateFits(Handshaking, [])
  {
  }
}
