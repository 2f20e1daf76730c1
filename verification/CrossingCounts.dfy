/**
 Two ends that open a session with the same id at once, as counts. What an end sends is its
 four opening messages with its replies to the other's opening in between, so how many it had
 sent when it handled the other's Profiles and Ready determines all of it, and with it the
 state of the other end.
 */
module CrossingCounts {
  import opened ByteLayout
  import opened Sessions

  /** One message on the way: the sender's opening message of this number, or its reply to the
      other's Profiles or Ready. */
  datatype Message = Opening(index: nat) | AnswerProfiles | AnswerReady

  function OperationOf(m: Message): byte
  {
    match m
    case Opening(n) => if n < 4 then n + 1 else OP_READY
    case AnswerProfiles => OP_PROFILES
    case AnswerReady => OP_READY
  }

  /** The state after an honest message. */
  function StateAfter(s: SessionState, m: Message): SessionState
  {
    var op := OperationOf(m);
    if op == OP_HELLO then s
    else if op == OP_AUTHENTICATE then Authenticated
    else if op == OP_PROFILES then if s == Invalid then Invalid else Negotiated
    else if s == Negotiated || s == Active then Active else Invalid
  }

  /**
   How far an end has got: `own` is zero before it opens, one when it has reset its entry, and
   then one more for each opening message it has sent; `took` counts the messages it has
   handled, `dropped` those it had handled when it reset the entry. The rest is how far it had
   got when it handled the other's opening Profiles and Ready, and whether it replied Ready.
   */
  datatype Tally = Tally(own: nat, took: nat, dropped: nat,
                         profilesAt: Option<nat>, readyAt: Option<nat>, readied: bool)

  const UNOPENED := Tally(0, 0, 0, None, None, false)

  /** How many opening messages an end that has got this far has sent. */
  function Sent(own: nat): nat
  {
    if own == 0 then 0 else own - 1
  }

  function Length(t: Tally): nat
  {
    Sent(t.own) + (if t.profilesAt.Some? then 1 else 0) + (if t.readied then 1 else 0)
  }

  predicate Replied(t: Tally)
  {
    t.readied && t.readyAt.Some?
  }

  /** The `i`-th message this end sends. */
  function At(t: Tally, i: nat): Message
  {
    if t.profilesAt.None? || i < Sent(t.profilesAt.value) then Opening(i)
    else if i == Sent(t.profilesAt.value) then AnswerProfiles
    else if !Replied(t) || i <= Sent(t.readyAt.value) then Opening(i - 1)
    else if i == Sent(t.readyAt.value) + 1 then AnswerReady
    else if i >= 2 then Opening(i - 2)
    else AnswerReady
  }

  /** How many of the first `n` messages are opening ones. */
  function Openings(t: Tally, n: nat): int
  {
    n - (if t.profilesAt.Some? && Sent(t.profilesAt.value) < n then 1 else 0)
      - (if Replied(t) && Sent(t.readyAt.value) + 1 < n then 1 else 0)
  }

  /** Where the opening Ready stands. */
  function ReadyIndex(t: Tally): nat
  {
    3 + (if t.profilesAt.Some? && Sent(t.profilesAt.value) <= 3 then 1 else 0)
      + (if Replied(t) && Sent(t.readyAt.value) <= 3 then 1 else 0)
  }

  /** The state the messages from `from` up to `n` lead to from a fresh entry. */
  function StateAt(t: Tally, from: nat, n: nat): SessionState
  {
    if n <= from then Handshaking else StateAfter(StateAt(t, from, n - 1), At(t, n - 1))
  }

  // Steps

  function Advanced(x: Tally): Tally
  {
    if x.own == 0 then x.(own := 1, dropped := x.took)
    else if x.own < 5 then x.(own := x.own + 1)
    else x
  }

  function Handled(x: Tally, y: Tally): Tally
  {
    if x.took >= Length(y) then x
    else
      var m := At(y, x.took);
      x.(took := x.took + 1,
         profilesAt := if m == Opening(2) then Some(x.own) else x.profilesAt,
         readyAt := if m == Opening(3) then Some(x.own) else x.readyAt,
         readied := if m == Opening(3) then StateAt(y, x.dropped, x.took) == Negotiated
                    else x.readied)
  }

  /** An end resets its entry or sends its next opening message, or handles what has arrived. */
  datatype Act = Advance | Handle

  /** One move, as the tallies see it. */
  function Tallied(t: (Tally, Tally), atA: bool, act: Act): (Tally, Tally)
  {
    if atA then (if act.Advance? then Advanced(t.0) else Handled(t.0, t.1), t.1)
    else (t.0, if act.Advance? then Advanced(t.1) else Handled(t.1, t.0))
  }

  // What is kept

  /** Where the entry began that the opening Ready met. */
  function ReadyFrom(x: Tally): nat
  {
    if x.readyAt == Some(0) then 0 else x.dropped
  }

  predicate Counted(x: Tally, y: Tally)
  {
    && x.own <= 5 && x.dropped <= x.took <= Length(y)
    && (x.own == 0 ==> x.dropped == 0)
    && (x.profilesAt.Some? <==> Openings(y, x.took) > 2)
    && (x.readyAt.Some? <==> Openings(y, x.took) > 3)
    && (x.readied ==> x.readyAt.Some?)
    && (x.profilesAt.Some? ==>
          && y.own >= 4 && x.profilesAt.value <= x.own
          && (x.own > 0 ==> (x.profilesAt.value == 0 <==> x.dropped > 2)))
    && (x.readyAt.Some? ==>
          && x.profilesAt.Some? && y.own == 5
          && x.profilesAt.value <= x.readyAt.value <= x.own
          && (x.own > 0 ==> (x.readyAt.value == 0 <==> x.dropped > 3))
          && (y.profilesAt.Some? && x.readyAt.value < 4 ==> y.profilesAt.value == 5)
          && (x.readied <==> StateAt(y, ReadyFrom(x), ReadyIndex(y)) == Negotiated))
    && (y.profilesAt.Some? ==> x.own >= 4 && x.dropped <= Sent(y.profilesAt.value))
  }

  /** The later tally only says more about what was sent after the earlier one. */
  predicate Grown(t: Tally, u: Tally)
  {
    && t.own <= u.own
    && (t.profilesAt.Some? ==> u.profilesAt == t.profilesAt && t.profilesAt.value <= t.own)
    && (t.profilesAt.None? ==> !Replied(t))
    && (t.profilesAt.None? && u.profilesAt.Some? ==> u.profilesAt.value >= t.own)
    && (Replied(t) ==> Replied(u) && u.readyAt == t.readyAt)
    && (t.readied ==> t.readyAt.Some? && t.profilesAt.value <= t.readyAt.value <= t.own)
    && (!Replied(t) && Replied(u) ==> u.readyAt.value >= t.own && u.profilesAt.Some?
                                      && u.profilesAt.value <= u.readyAt.value)
  }

  lemma LineGrows(t: Tally, u: Tally, i: nat)
    requires Grown(t, u) && i <= Length(t)
    ensures i < Length(t) ==> At(u, i) == At(t, i)
    ensures Openings(u, i) == Openings(t, i)
  {
  }

  lemma {:induction false} StateStays(t: Tally, u: Tally, from: nat, n: nat)
    requires Grown(t, u) && n <= Length(t)
    ensures StateAt(u, from, n) == StateAt(t, from, n)
  {
    hide Grown, At, Length;
    if n > from {
      StateStays(t, u, from, n - 1);
      LineGrows(t, u, n - 1);
    }
  }

  lemma AdvanceCounted(x: Tally, y: Tally)
    requires Counted(x, y) && Counted(y, x)
    ensures Counted(Advanced(x), y) && Counted(y, Advanced(x))
  {
    var u := Advanced(x);
    assert Grown(x, u);
    hide At, StateAt;
    LineGrows(x, u, y.took);
    if y.readyAt.Some? {
      StateStays(x, u, ReadyFrom(y), ReadyIndex(x));
    }
  }

  lemma HandleCounted(x: Tally, y: Tally)
    requires Counted(x, y) && Counted(y, x)
    ensures Counted(Handled(x, y), y) && Counted(y, Handled(x, y))
  {
    var u := Handled(x, y);
    assert Grown(x, u) by { hide StateAt; }
    hide StateAt;
    LineGrows(x, u, y.took);
    if y.readyAt.Some? {
      StateStays(x, u, ReadyFrom(y), ReadyIndex(x));
    }
  }

  /** An opening message is the next message of its end. */
  lemma OpeningStands(x: Tally, y: Tally)
    requires Counted(x, y) && Counted(y, x)
    ensures
      var u := Advanced(x);
      && Grown(x, u) && u.took == x.took
      && if 0 < x.own < 5 then
           Length(u) == Length(x) + 1 && At(u, Length(x)) == Opening(x.own - 1)
         else Length(u) == Length(x)
  {
    hide StateAt;
  }

  /** The reply to an opening message is the next message of the end that handled it. */
  lemma ReplyStands(x: Tally, y: Tally)
    requires Counted(x, y) && Counted(y, x) && x.took < Length(y)
    ensures
      var m, u := At(y, x.took), Handled(x, y);
      && Grown(x, u) && u.took == x.took + 1 && u.dropped == x.dropped <= x.took
      && if m == Opening(2) then
           Length(u) == Length(x) + 1 && At(u, Length(x)) == AnswerProfiles
         else if m == Opening(3) && StateAt(y, x.dropped, x.took) == Negotiated then
           Length(u) == Length(x) + 1 && At(u, Length(x)) == AnswerReady
         else Length(u) == Length(x)
  {
    hide StateAt;
  }

  // How it ends

  predicate Finished(x: Tally, y: Tally)
  {
    && x.own == 5 && x.took == Length(y)
    && y.own == 5 && y.took == Length(x)
  }

  /** Handling Profiles and Ready this far into one's own opening: Ready alone after the reset,
      Ready with only Hello and Authenticate sent, or Ready just before one's own. */
  predicate Early(profilesAt: nat, readyAt: nat)
  {
    || (profilesAt == 0 && readyAt >= 1)
    || (1 <= profilesAt <= 2 && readyAt == 3)
    || (1 <= profilesAt <= 4 && readyAt == 4)
  }

  /** `x` was early, while `y` had sent everything when it handled the Profiles of `x`. */
  predicate FellBehind(x: Tally, y: Tally)
  {
    && x.profilesAt.Some? && x.readyAt.Some? && y.profilesAt == Some(5)
    && Early(x.profilesAt.value, x.readyAt.value)
  }

  /** How the end `x` ends, from the counts alone. */
  function Outcome(x: Tally, y: Tally): SessionState
  {
    if FellBehind(x, y) then if x.profilesAt == Some(0) then Invalid else Negotiated
    else if FellBehind(y, x) && y.profilesAt != Some(0) && y.readyAt == Some(3) then Invalid
    else Active
  }

  /** Where the first messages lead. */
  lemma Unrolled(t: Tally, from: nat, n: nat)
    requires n <= 6
    ensures
      var s1 := if from < 1 then StateAfter(Handshaking, At(t, 0)) else Handshaking;
      var s2 := if from < 2 then StateAfter(s1, At(t, 1)) else Handshaking;
      var s3 := if from < 3 then StateAfter(s2, At(t, 2)) else Handshaking;
      var s4 := if from < 4 then StateAfter(s3, At(t, 3)) else Handshaking;
      var s5 := if from < 5 then StateAfter(s4, At(t, 4)) else Handshaking;
      var s6 := if from < 6 then StateAfter(s5, At(t, 5)) else Handshaking;
      StateAt(t, from, n) == [Handshaking, s1, s2, s3, s4, s5, s6][n]
  {
    hide At, StateAfter;
  }

  /** The end `x` replied Ready unless it was past Negotiated or not yet there. */
  lemma RepliedWhen(x: Tally, y: Tally)
    requires Counted(x, y) && Counted(y, x) && Finished(x, y)
    ensures x.profilesAt.Some? && x.readyAt.Some? && y.profilesAt.Some? && y.readyAt.Some?
    ensures
      x.readied <==>
        || x.readyAt == Some(0)
        || (if y.profilesAt == Some(5) then x.profilesAt != Some(0)
            else !(y.readied && (y.readyAt == Some(4)
                                 || (y.readyAt == Some(3) && y.profilesAt.value <= 2))))
  {
    Unrolled(y, ReadyFrom(x), ReadyIndex(y));
  }

  lemma EndsAt(x: Tally, y: Tally)
    requires Counted(x, y) && Counted(y, x) && Finished(x, y)
    ensures
      StateAt(y, x.dropped, x.took)
        == if y.profilesAt == Some(5)
           then if x.dropped == 3 then Invalid else if y.readied then Active else Negotiated
           else if y.readied && y.readyAt == Some(3) && y.profilesAt.value <= 2 then Invalid
           else Active
  {
    RepliedWhen(x, y);
    Unrolled(y, x.dropped, x.took);
  }

  /** Both ends, exactly. */
  lemma CountsDecide(x: Tally, y: Tally)
    requires Counted(x, y) && Counted(y, x) && Finished(x, y)
    ensures StateAt(y, x.dropped, x.took) == Outcome(x, y)
  {
    EndsAt(x, y);
    RepliedWhen(x, y);
    RepliedWhen(y, x);
  }

  // Later counts

  /** What has been recorded stays, and what is recorded later says how far the end has got. */
  predicate Later(t: Tally, u: Tally)
  {
    && t.own <= u.own
    && (t.profilesAt.Some? ==> u.profilesAt == t.profilesAt)
    && (t.readyAt.Some? ==> u.readyAt == t.readyAt)
    && (t.profilesAt.None? && u.profilesAt.Some? ==> t.own <= u.profilesAt.value)
    && (t.readyAt.None? && u.readyAt.Some? ==> t.own <= u.readyAt.value)
  }

  lemma MoveIsLater(t: (Tally, Tally), atA: bool, act: Act)
    requires Counted(t.0, t.1) && Counted(t.1, t.0)
    ensures
      var u := Tallied(t, atA, act);
      Later(t.0, u.0) && Later(t.1, u.1)
  {
    hide StateAt;
  }

  /** The same move `n` times. */
  function Repeated(t: (Tally, Tally), atA: bool, act: Act, n: nat): (Tally, Tally)
    decreases n
  {
    if n == 0 then t else Repeated(Tallied(t, atA, act), atA, act, n - 1)
  }

  /** The next `n` messages of one's own opening. */
  lemma {:induction false} AdvancedBy(t: Tally, u: Tally, n: nat)
    requires u.own + n <= 5
    ensures
      var v := u.(own := u.own + n,
                  dropped := if u.own == 0 && n > 0 then u.took else u.dropped);
      && Repeated((t, u), false, Advance, n) == (t, v)
      && Repeated((u, t), true, Advance, n) == (v, t)
    decreases n
  {
    if n > 0 {
      AdvancedBy(t, Advanced(u), n - 1);
    }
  }

  const SENT_ALL := Tally(5, 0, 0, None, None, false)

  /** Against an end that has sent all and handled nothing: Hello, Authenticate and Profiles,
      and later Ready. */
  lemma TookAll(own: nat, later: nat, dropped: nat)
    ensures Repeated((SENT_ALL, Tally(own, 0, 0, None, None, false)), false, Handle, 3)
         == (SENT_ALL, Tally(own, 3, 0, Some(own), None, false))
    ensures
      var t := Repeated((SENT_ALL, Tally(later, 3, dropped, Some(own), None, false)),
                        false, Handle, 1);
      && t.0 == SENT_ALL && t.1.own == later
      && t.1.profilesAt == Some(own) && t.1.readyAt == Some(later)
  {
    hide StateAt;
    var f := (n: nat) => (SENT_ALL, Tally(own, n, 0, None, None, false));
    assert Tallied(f(0), false, Handle) == f(1);
    assert Tallied(f(1), false, Handle) == f(2);
  }
}
