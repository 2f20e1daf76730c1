/**
 Two endpoints that open a session with the same id to each other at once, over a pair of
 first-in first-out channels: each opening message, each reply and each delivery is a step, and
 the steps interleave in any way. The two openings share the entry at each end.
 */
module Crossing {
  import opened ByteLayout
  import opened Wire
  import opened SessionCodec
  import opened Sessions
  import opened Handshake
  import opened CrossingCounts

  /** The entry of the session at one end, the channel to that end, and how far it has got. */
  datatype Side = Side(entry: SessionInfo, inbox: seq<Envelope>, tally: Tally)

  datatype Ends = Ends(here: Side, there: Side)

  /** Each step carries the message id and the clock of the envelope it may send. */
  datatype Move = Move(atA: bool, act: Act, id: u64, now: u64)

  function Mirror(p: Setup): Setup
  {
    Setup(p.b, p.a, p.peerAtB, p.peerAtA, p.sid)
  }

  function Turned(w: Ends): Ends
  {
    Ends(w.there, w.here)
  }

  function Unopened(p: Setup): Ends
  {
    Ends(Side(FreshSession(SessionKey(p.peerAtA, p.sid)), [], UNOPENED),
         Side(FreshSession(SessionKey(p.peerAtB, p.sid)), [], UNOPENED))
  }

  /** The next step of `open_session` at the end here. */
  function Opened(p: Setup, w: Ends, id: u64, now: u64): Ends
  {
    var t := w.here.tally;
    if t.own == 0 then
      w.(here := w.here.(entry := FreshSession(SessionKey(p.peerAtA, p.sid)),
                         tally := t.(own := 1, dropped := t.took)))
    else if t.own < 5 then
      var e := SessionEnvelope(p.a, p.sid, OpeningOperation(t.own - 1),
                               OpeningPayload(p.a, t.own - 1), 0, id, now);
      Ends(w.here.(tally := t.(own := t.own + 1)),
           w.there.(inbox := w.there.inbox + Carried(e, now)))
    else w
  }

  /** What the handling of a message adds to the tally of its end. */
  function Noted(t: Tally, e: Envelope, reply: Reply): Tally
  {
    var opening := e.correlationId == 0;
    t.(took := t.took + 1,
       profilesAt := if opening && e.operation == OP_PROFILES then Some(t.own) else t.profilesAt,
       readyAt := if opening && e.operation == OP_READY then Some(t.own) else t.readyAt,
       readied := if opening && e.operation == OP_READY then reply.ReplyReady? else t.readied)
  }

  /** The end here handles the message that arrived first. */
  function Received(p: Setup, w: Ends, id: u64, now: u64): Ends
  {
    if w.here.inbox == [] then w
    else
      var e := w.here.inbox[0];
      var reply := ReplyTo(p.a, w.here.entry, e);
      Ends(Side(AfterMessage(p.a, w.here.entry, e), w.here.inbox[1..],
                Noted(w.here.tally, e, reply)),
           w.there.(inbox := w.there.inbox + Answer(p.a, p.sid, reply, e.messageId, id, now)))
  }

  function AtHere(p: Setup, w: Ends, act: Act, id: u64, now: u64): Ends
  {
    match act
    case Advance => Opened(p, w, id, now)
    case Handle => Received(p, w, id, now)
  }

  function Moved(p: Setup, w: Ends, m: Move): Ends
  {
    if m.atA then AtHere(p, w, m.act, m.id, m.now)
    else Turned(AtHere(Mirror(p), Turned(w), m.act, m.id, m.now))
  }

  function Played(p: Setup, moves: seq<Move>): Ends
  {
    if moves == [] then Unopened(p)
    else Moved(p, Played(p, moves[..|moves| - 1]), moves[|moves| - 1])
  }

  /** Message ids come from a counter that starts at one. */
  predicate Counting(moves: seq<Move>)
  {
    forall i :: 0 <= i < |moves| ==> moves[i].id > 0
  }

  // What is kept

  function PayloadOf(me: Identity, m: Message): Bytes
  {
    match m
    case Opening(n) => OpeningPayload(me, n)
    case AnswerProfiles => EncodeProfileList(me.profiles)
    case AnswerReady => []
  }

  /** The envelope is this message of this sender. */
  predicate Carries(e: Envelope, me: Identity, sid: u64, m: Message)
  {
    && Means(e, me, sid, OperationOf(m), PayloadOf(me, m))
    && (m.Opening? ==> m.index < 4)
    && (e.correlationId == 0 <==> m.Opening?) && e.messageId > 0
  }

  /** The channel to `x` holds the messages of `y` that `x` has not handled. */
  predicate Queued(inbox: seq<Envelope>, me: Identity, sid: u64, y: Tally, took: nat)
  {
    && took + |inbox| == Length(y)
    && forall i :: 0 <= i < |inbox| ==> Carries(inbox[i], me, sid, At(y, took + i))
  }

  /** An entry that only the honest other end has written to. */
  predicate EntryFits(me: Identity, other: Identity, entry: SessionInfo, state: SessionState)
  {
    && entry.state == state && FromPinnedSource(entry, other.endpointUid)
    && (state == Negotiated || state == Active ==>
          && entry.remoteUid == other.endpointUid
          && entry.negotiated == Negotiate(me.profiles, other.profiles).negotiated)
    && (state == Active ==> entry.authenticated)
  }

  predicate SideGood(p: Setup, x: Side, y: Tally)
  {
    && Queued(x.inbox, p.b, p.sid, y, x.tally.took)
    && x.tally.dropped <= x.tally.took
    && EntryFits(p.a, p.b, x.entry, StateAt(y, x.tally.dropped, x.tally.took))
  }

  predicate Consistent(p: Setup, w: Ends)
  {
    && Counted(w.here.tally, w.there.tally) && Counted(w.there.tally, w.here.tally)
    && SideGood(p, w.here, w.there.tally) && SideGood(Mirror(p), w.there, w.here.tally)
  }

  // Single messages

  predicate BothHonest(p: Setup)
  {
    Fit(p.a) && Fit(p.b) && SameSecret(p)
  }

  lemma OnMessage(p: Setup, entry: SessionInfo, state: SessionState, e: Envelope, m: Message)
    requires BothHonest(p) && EntryFits(p.a, p.b, entry, state) && Carries(e, p.b, p.sid, m)
    ensures EntryFits(p.a, p.b, AfterMessage(p.a, entry, e), StateAfter(state, m))
    ensures ReplyTo(p.a, entry, e)
         == if m == Opening(2) then ReplyProfiles
            else if m == Opening(3) && state == Negotiated then ReplyReady else NoReply
  {
    hide DecodeText, EncodeText, DecodeProfileList, EncodeProfileList, Negotiate, ValidUid;
    TextsReadBack(p.b);
  }

  /** A reply arrives as the message it is. */
  lemma AnswerCarries(p: Setup, reply: Reply, correlation: u64, id: u64, now: u64)
    requires Fit(p.a) && id > 0 && correlation > 0
    ensures
      var c := Answer(p.a, p.sid, reply, correlation, id, now);
      match reply
      case NoReply => c == []
      case ReplyProfiles => |c| == 1 && Carries(c[0], p.a, p.sid, AnswerProfiles)
      case ReplyReady => |c| == 1 && Carries(c[0], p.a, p.sid, AnswerReady)
  {
    hide Carried, SessionEnvelope, EncodeProfileList, UniqueIds, Decodable, ValidUid;
    MessageSurvives(p.a, p.sid, OP_PROFILES, EncodeProfileList(p.a.profiles), correlation, id, now);
    MessageSurvives(p.a, p.sid, OP_READY, [], correlation, id, now);
  }

  /** A tally that has grown by the message sent keeps the channel as it should be. */
  lemma SentOne(inbox: seq<Envelope>, sent: seq<Envelope>, me: Identity, sid: u64, t: Tally,
                u: Tally, took: nat)
    requires Queued(inbox, me, sid, t, took) && Grown(t, u)
    requires Length(u) == Length(t) + |sent| && |sent| <= 1
    requires |sent| == 1 ==> Carries(sent[0], me, sid, At(u, Length(t)))
    ensures Queued(inbox + sent, me, sid, u, took)
  {
    hide At, Length, Grown, Carries;
    forall i | 0 <= i < |inbox + sent|
      ensures Carries((inbox + sent)[i], me, sid, At(u, took + i))
    {
      if i < |inbox| {
        LineGrows(t, u, took + i);
      }
    }
  }

  // Steps

  lemma TheOtherSide(p: Setup, w: Side, sent: seq<Envelope>, t: Tally, u: Tally)
    requires SideGood(p, w, t) && Grown(t, u) && w.tally.took <= Length(t)
    requires Length(u) == Length(t) + |sent| && |sent| <= 1
    requires |sent| == 1 ==> Carries(sent[0], p.b, p.sid, At(u, Length(t)))
    ensures SideGood(p, w.(inbox := w.inbox + sent), u)
  {
    hide At, Length, Grown, Carries, EntryFits, Queued;
    SentOne(w.inbox, sent, p.b, p.sid, t, u, w.tally.took);
    StateStays(t, u, w.tally.dropped, w.tally.took);
  }

  lemma OpeningCarries(p: Setup, n: nat, id: u64, now: u64)
    requires Fit(p.a) && n < 4 && id > 0
    ensures
      var e := SessionEnvelope(p.a, p.sid, OpeningOperation(n), OpeningPayload(p.a, n), 0, id, now);
      |Carried(e, now)| == 1 && Carries(Carried(e, now)[0], p.a, p.sid, Opening(n))
  {
    hide Carried, SessionEnvelope, OpeningPayload, EncodeProfileList, UniqueIds, Decodable,
      ValidUid;
    OpeningFits(p.a, n);
    MessageSurvives(p.a, p.sid, OpeningOperation(n), OpeningPayload(p.a, n), 0, id, now);
  }

  lemma ResetGood(p: Setup, w: Side, y: Tally)
    requires SideGood(p, w, y)
    ensures SideGood(p, Side(FreshSession(SessionKey(p.peerAtA, p.sid)), w.inbox,
                             w.tally.(own := 1, dropped := w.tally.took)), y)
  {
    hide At, Length, Carries, Negotiate;
  }

  lemma OpenedGood(p: Setup, w: Ends, id: u64, now: u64)
    requires BothHonest(p) && Consistent(p, w) && id > 0
    ensures
      var v := Opened(p, w, id, now);
      && Consistent(p, v)
      && v.here.tally == Advanced(w.here.tally) && v.there.tally == w.there.tally
  {
    hide Carried, SessionEnvelope, OpeningPayload, Fit, Grown, Length, At, StateAt, Queued,
      EntryFits, Carries;
    var x, y := w.here.tally, w.there.tally;
    AdvanceCounted(x, y);
    OpeningStands(x, y);
    assert y.took <= Length(x);
    hide Counted;
    if x.own == 0 {
      ResetGood(p, w.here, y);
      TheOtherSide(Mirror(p), w.there, [], x, Advanced(x));
      assert w.there.inbox + [] == w.there.inbox;
    } else if x.own < 5 {
      var n := x.own - 1;
      OpeningCarries(p, n, id, now);
      var e := SessionEnvelope(p.a, p.sid, OpeningOperation(n), OpeningPayload(p.a, n), 0, id, now);
      TheOtherSide(Mirror(p), w.there, Carried(e, now), x, Advanced(x));
    }
  }

  /** The end that handles a message, apart from its reply. */
  lemma TheHandlingSide(p: Setup, w: Side, y: Tally, u: Tally, entry: SessionInfo)
    requires SideGood(p, w, y) && w.inbox != []
    requires u.took == w.tally.took + 1 && u.dropped == w.tally.dropped
    requires
      var state := StateAt(y, w.tally.dropped, w.tally.took);
      EntryFits(p.a, p.b, entry, StateAfter(state, At(y, w.tally.took)))
    ensures SideGood(p, Side(entry, w.inbox[1..], u), y)
  {
    hide At, Length, Carries, EntryFits, StateAfter;
  }

  lemma ReceivedGood(p: Setup, w: Ends, id: u64, now: u64)
    requires BothHonest(p) && Consistent(p, w) && id > 0
    ensures
      var v := Received(p, w, id, now);
      && Consistent(p, v)
      && v.here.tally == Handled(w.here.tally, w.there.tally) && v.there.tally == w.there.tally
  {
    hide Answer, OpeningPayload, Fit, AfterMessage, ReplyTo, EntryFits, Grown, Length, At, StateAt,
      StateAfter, PayloadOf;
    var x, y := w.here.tally, w.there.tally;
    if w.here.inbox != [] {
      var e, m := w.here.inbox[0], At(y, x.took);
      var reply := ReplyTo(p.a, w.here.entry, e);
      assert Carries(e, p.b, p.sid, m);
      OnMessage(p, w.here.entry, StateAt(y, x.dropped, x.took), e, m);
      HandleCounted(x, y);
      ReplyStands(x, y);
      assert y.took <= Length(x);
      var u := Handled(x, y);
      assert u == Noted(x, e, reply);
      hide Counted, Handled;
      TheHandlingSide(p, w.here, y, u, AfterMessage(p.a, w.here.entry, e));
      AnswerCarries(p, reply, e.messageId, id, now);
      TheOtherSide(Mirror(p), w.there, Answer(p.a, p.sid, reply, e.messageId, id, now), x, u);
    }
  }

  lemma UnopenedGood(p: Setup)
    ensures Consistent(p, Unopened(p))
  {
    hide Negotiate;
  }

  function Tallies(w: Ends): (Tally, Tally)
  {
    (w.here.tally, w.there.tally)
  }

  lemma MovedGood(p: Setup, w: Ends, m: Move)
    requires BothHonest(p) && Consistent(p, w) && m.id > 0
    ensures Consistent(p, Moved(p, w, m))
    ensures Tallies(Moved(p, w, m)) == Tallied(Tallies(w), m.atA, m.act)
  {
    hide Opened, Received, Advanced, Handled, Counted, SideGood, Fit;
    assert BothHonest(Mirror(p));
    assert Mirror(Mirror(p)) == p;
    var q, v := if m.atA then p else Mirror(p), if m.atA then w else Turned(w);
    match m.act
    case Advance => OpenedGood(q, v, m.id, m.now);
    case Handle => ReceivedGood(q, v, m.id, m.now);
  }

  /** Where any run can be: the tallies determine the states of both entries and both channels. */
  lemma {:induction false} EveryRun(p: Setup, moves: seq<Move>)
    requires BothHonest(p) && Counting(moves)
    ensures Consistent(p, Played(p, moves))
    decreases |moves|
  {
    hide Consistent, Moved, BothHonest;
    if moves == [] {
      UnopenedGood(p);
    } else {
      var init, m := moves[..|moves| - 1], moves[|moves| - 1];
      EveryRun(p, init);
      MovedGood(p, Played(p, init), m);
    }
  }

  lemma OneMore(p: Setup, moves: seq<Move>, m: Move)
    requires BothHonest(p) && Counting(moves) && m.id > 0
    ensures Counting(moves + [m])
    ensures Played(p, moves + [m]) == Moved(p, Played(p, moves), m)
    ensures Tallies(Played(p, moves + [m]))
         == Tallied(Tallies(Played(p, moves)), m.atA, m.act)
  {
    hide Consistent, Moved, BothHonest, Tallied;
    assert (moves + [m])[..|moves|] == moves;
    EveryRun(p, moves);
    MovedGood(p, Played(p, moves), m);
  }

  // Results

  /** Nothing is left to send or to handle. */
  predicate Settled(w: Ends)
  {
    w.here.tally.own == 5 && w.there.tally.own == 5 && w.here.inbox == [] && w.there.inbox == []
  }

  function Efforts(w: Ends): nat
  {
    w.here.tally.own + w.there.tally.own + w.here.tally.took + w.there.tally.took
  }

  /** A move that sends or handles whatever is waiting. */
  function Pending(w: Ends, id: u64, now: u64): Move
  {
    if w.here.tally.own < 5 then Move(true, Advance, id, now)
    else if w.there.tally.own < 5 then Move(false, Advance, id, now)
    else Move(w.here.inbox != [], Handle, id, now)
  }

  lemma MoveProgresses(p: Setup, w: Ends, m: Move)
    requires w.here.tally.own <= 5 && w.there.tally.own <= 5
    ensures
      var v := Moved(p, w, m);
      && (v == w || Efforts(v) == Efforts(w) + 1)
      && (Settled(w) ==> v == w)
      && (!Settled(w) && m == Pending(w, m.id, m.now) ==> Efforts(v) == Efforts(w) + 1)
  {
    hide AfterMessage, ReplyTo, Answer, Carried, SessionEnvelope, OpeningPayload;
  }

  lemma WithinCounts(p: Setup, moves: seq<Move>)
    requires BothHonest(p) && Counting(moves)
    ensures
      var w := Played(p, moves);
      w.here.tally.own <= 5 && w.there.tally.own <= 5 && Efforts(w) <= 22
  {
    hide BothHonest, Counting, Played, SideGood, At, StateAt, Openings;
    EveryRun(p, moves);
  }

  /**
   Crossing opens settle. A move does nothing or is progress, at most 22 of them are, and a run
   that has not settled has one that is: every run can be played to its end.
   */
  lemma CrossingSettles(p: Setup, moves: seq<Move>, m: Move)
    requires BothHonest(p) && Counting(moves) && m.id > 0
    ensures
      var w, w' := Played(p, moves), Played(p, moves + [m]);
      && (w' == w || Efforts(w') == Efforts(w) + 1)
      && Efforts(w') <= 22
      && (Settled(w) ==> w' == w)
      && (!Settled(w) && m == Pending(w, m.id, m.now) ==> Efforts(w') == Efforts(w) + 1)
  {
    hide BothHonest, Counting, Played, Moved, Settled, Efforts, Pending;
    OneMore(p, moves, m);
    WithinCounts(p, moves);
    WithinCounts(p, moves + [m]);
    MoveProgresses(p, Played(p, moves), m);
  }

  /**
   How crossing opens end, exactly: once a run has settled, how much of its own opening each end
   had sent when it handled the other's Profiles and Ready decides both states. Both are Active
   if and only if neither end fell behind the other, and then each is pinned to the other and
   both negotiated the same profiles.
   */
  lemma CrossingExactly(p: Setup, moves: seq<Move>)
    requires BothHonest(p) && Counting(moves) && Settled(Played(p, moves))
    ensures
      var w := Played(p, moves);
      var a, b := w.here, w.there;
      && a.entry.state == Outcome(a.tally, b.tally)
      && b.entry.state == Outcome(b.tally, a.tally)
      && (a.entry.state == Active && b.entry.state == Active
          <==> !FellBehind(a.tally, b.tally) && !FellBehind(b.tally, a.tally))
      && (a.entry.state == Active && b.entry.state == Active ==>
            && a.entry.remoteUid == p.b.endpointUid && b.entry.remoteUid == p.a.endpointUid
            && a.entry.negotiated == b.entry.negotiated
            && a.entry.authenticated && b.entry.authenticated)
  {
    hide Negotiate, UniqueIds, At, StateAt, Openings, Decodable, ValidUid, EncodeProfileList;
    EveryRun(p, moves);
    var a, b := Played(p, moves).here.tally, Played(p, moves).there.tally;
    CountsDecide(a, b);
    CountsDecide(b, a);
    assert UniqueIds(p.a.profiles) && UniqueIds(p.b.profiles);
    NegotiationSymmetric(p.a.profiles, p.b.profiles);
  }

  // The guard

  /** How often an end has gone on with its own opening. */
  function Advances(moves: seq<Move>, atA: bool): nat
  {
    if moves == [] then 0
    else
      var m := moves[|moves| - 1];
      Advances(moves[..|moves| - 1], atA) + if m.atA == atA && m.act.Advance? then 1 else 0
  }

  /** Each end has sent its whole opening before it handles anything. */
  predicate SendsFirst(moves: seq<Move>)
  {
    forall i :: 0 <= i < |moves| && moves[i].act.Handle? ==>
      Advances(moves[..i], moves[i].atA) >= 5
  }

  predicate AllSentBefore(t: Tally, advances: nat)
  {
    && t.own == (if advances < 5 then advances else 5)
    && (t.profilesAt.Some? ==> t.profilesAt == Some(5))
    && (t.readyAt.Some? ==> t.readyAt == Some(5))
  }

  lemma {:induction false} SendingFirst(p: Setup, moves: seq<Move>)
    requires BothHonest(p) && Counting(moves) && SendsFirst(moves)
    ensures AllSentBefore(Played(p, moves).here.tally, Advances(moves, true))
    ensures AllSentBefore(Played(p, moves).there.tally, Advances(moves, false))
    decreases |moves|
  {
    hide BothHonest, Moved, At, StateAt;
    if moves != [] {
      var init, m := moves[..|moves| - 1], moves[|moves| - 1];
      assert moves == init + [m];
      forall i | 0 <= i < |init| && init[i].act.Handle?
        ensures Advances(init[..i], init[i].atA) >= 5
      {
        assert moves[..i] == init[..i] && moves[i] == init[i];
      }
      SendingFirst(p, init);
      OneMore(p, init, m);
    }
  }

  /** When each end has sent all four before it handles anything, every run ends Active. */
  lemma SendFirstSuffices(p: Setup, moves: seq<Move>)
    requires BothHonest(p) && Counting(moves) && SendsFirst(moves) && Settled(Played(p, moves))
    ensures
      Played(p, moves).here.entry.state == Active && Played(p, moves).there.entry.state == Active
  {
    hide BothHonest, Played, Advances, Counting;
    SendingFirst(p, moves);
    CrossingExactly(p, moves);
  }

  // Runs in which both ends are honest and not both end Active

  /** Every run can be played until it settles. */
  lemma {:induction false} PlayOut(p: Setup, moves: seq<Move>, id: u64, now: u64)
    returns (more: seq<Move>)
    requires BothHonest(p) && Counting(moves) && id > 0
    ensures Counting(more) && Settled(Played(p, more))
    ensures Later(Played(p, moves).here.tally, Played(p, more).here.tally)
    ensures Later(Played(p, moves).there.tally, Played(p, more).there.tally)
    decreases 22 - Efforts(Played(p, moves))
  {
    hide BothHonest, Played, Moved, Tallied, EntryFits, At, StateAt, Openings;
    var w := Played(p, moves);
    if Settled(w) {
      more := moves;
    } else {
      var m := Pending(w, id, now);
      EveryRun(p, moves);
      MoveIsLater(Tallies(w), m.atA, m.act);
      CrossingSettles(p, moves, m);
      OneMore(p, moves, m);
      more := PlayOut(p, moves + [m], id, now);
    }
  }

  /** The run goes on with the same move `n` times. */
  lemma {:induction false} GoOn(p: Setup, moves: seq<Move>, m: Move, n: nat)
    returns (more: seq<Move>)
    requires BothHonest(p) && Counting(moves) && m.id > 0
    ensures Counting(more)
    ensures Tallies(Played(p, more))
         == Repeated(Tallies(Played(p, moves)), m.atA, m.act, n)
    decreases n
  {
    hide BothHonest, Played, Tallied;
    if n == 0 {
      more := moves;
    } else {
      OneMore(p, moves, m);
      more := GoOn(p, moves + [m], m, n - 1);
    }
  }

  lemma NothingPlayed(p: Setup)
    ensures Counting([]) && Tallies(Played(p, [])) == (UNOPENED, UNOPENED)
  {
  }

  /**
   Every way to fall behind happens: for any counts in order, a run in which B had got that far
   when it handled Profiles and Ready, while A had sent all when it handled the Profiles of B.
   */
  lemma CountsHappen(p: Setup, profilesAt: nat, readyAt: nat, id: u64, now: u64)
    returns (moves: seq<Move>)
    requires BothHonest(p) && id > 0 && profilesAt <= readyAt <= 5
    ensures Counting(moves) && Settled(Played(p, moves))
    ensures
      var w := Played(p, moves);
      && w.here.tally.profilesAt == Some(5)
      && w.there.tally.profilesAt == Some(profilesAt) && w.there.tally.readyAt == Some(readyAt)
  {
    hide BothHonest, Played, Counting, Repeated;
    NothingPlayed(p);
    var opens, handles := Move(false, Advance, id, now), Move(false, Handle, id, now);
    AdvancedBy(UNOPENED, UNOPENED, 5);
    moves := GoOn(p, [], Move(true, Advance, id, now), 5);
    AdvancedBy(SENT_ALL, UNOPENED, profilesAt);
    moves := GoOn(p, moves, opens, profilesAt);
    var dropped := if profilesAt == 0 && readyAt > 0 then 3 else 0;
    TookAll(profilesAt, readyAt, dropped);
    moves := GoOn(p, moves, handles, 3);
    AdvancedBy(SENT_ALL, Tally(profilesAt, 3, 0, Some(profilesAt), None, false),
               readyAt - profilesAt);
    moves := GoOn(p, moves, opens, readyAt - profilesAt);
    moves := GoOn(p, moves, handles, 1);
    moves := PlayOut(p, moves, id, now);
    SettledHandledAll(p, moves);
  }

  lemma SettledHandledAll(p: Setup, moves: seq<Move>)
    requires BothHonest(p) && Counting(moves) && Settled(Played(p, moves))
    ensures
      var w := Played(p, moves);
      && Finished(w.here.tally, w.there.tally)
      && w.here.tally.profilesAt.Some? && w.here.tally.profilesAt.value <= 5
  {
    hide BothHonest, Played, EntryFits, StateAt, Carries;
    EveryRun(p, moves);
    RepliedWhen(Played(p, moves).here.tally, Played(p, moves).there.tally);
  }

  /**
   The three ways it fails, each in a whole run. B handled Profiles with one of its messages
   sent and Ready with two: its reply reaches A before its own Profiles, A ends Invalid and never
   answers. B handled both with three sent: its own Ready finds A Active and is not answered.
   B reset its entry between the two: Ready finds a fresh entry.
   */
  lemma HonestEndsFail(p: Setup, id: u64, now: u64)
    returns (first: seq<Move>, second: seq<Move>, third: seq<Move>)
    requires BothHonest(p) && id > 0
    ensures Counting(first) && Counting(second) && Counting(third)
    ensures Settled(Played(p, first)) && Settled(Played(p, second)) && Settled(Played(p, third))
    ensures States(Played(p, first)) == (Invalid, Negotiated)
    ensures States(Played(p, second)) == (Active, Negotiated)
    ensures States(Played(p, third)) == (Active, Invalid)
  {
    hide BothHonest, Played, Counting, Settled;
    first := CountsHappen(p, 2, 3, id, now);
    CrossingExactly(p, first);
    second := CountsHappen(p, 4, 4, id, now);
    CrossingExactly(p, second);
    third := CountsHappen(p, 0, 1, id, now);
    CrossingExactly(p, third);
  }

  function States(w: Ends): (SessionState, SessionState)
  {
    (w.here.entry.state, w.there.entry.state)
  }
}
