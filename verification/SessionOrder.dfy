// In-order delivery, complete outbound history, and what a jump over queued
// messages leaves behind (exchangesim/fix/session.py).
module SessionOrder {
  import opened Options
  import opened SessionRules

  // ---- delivery in order -----------------------------------------------------------

  // From s to t the expected number did not go back, and whatever was delivered in
  // between was numbered in strictly ascending order from one to the other.
  ghost predicate Advances(s: Session, t: Session) {
    var n := |s.delivered|;
    && s.store.nextIn <= t.store.nextIn && n <= |t.delivered| && t.delivered[..n] == s.delivered
    && (forall i :: n <= i < |t.delivered| ==> s.store.nextIn <= t.delivered[i].seqNum < t.store.nextIn)
    && (forall i, j :: n <= i < j < |t.delivered| ==> t.delivered[i].seqNum < t.delivered[j].seqNum)
  }

  lemma AdvancesOn(s: Session, t: Session, u: Session)
    requires Advances(s, t) && Advances(t, u)
    ensures Advances(s, u)
  {
    var n, m := |s.delivered|, |t.delivered|;
    assert u.delivered[..n] == t.delivered[..n];
    forall i | n <= i < m ensures u.delivered[i] == t.delivered[i] {
      assert u.delivered[..m][i] == t.delivered[i];
    }
  }

  // A message may be dispatched when its number is the one expected; a SequenceReset
  // whatever its number.
  predicate Current(s: Session, m: Message) {
    m.kind.SequenceReset? || m.seqNum == Some(s.store.nextIn)
  }

  // Queued messages are filed under their own number.
  ghost predicate Filed(s: Session) {
    forall n :: n in s.pending ==> s.pending[n].seqNum == Some(n)
  }

  // Any other message takes exactly one number.
  lemma DispatchConsumes(s: Session, m: Message)
    requires !m.kind.SequenceReset? && m.seqNum == Some(s.store.nextIn)
    ensures Advances(s, Dispatch(s, m)) && Dispatch(s, m).store.nextIn == s.store.nextIn + 1
    ensures Dispatch(s, m).pending == s.pending || Dispatch(s, m).pending == map[]
  {
  }

  predicate Moves(s: Session, m: Message) {
    m.kind.SequenceReset? && m.kind.newSeqNo.Some? && m.kind.newSeqNo.value >= s.store.nextIn
  }

  lemma DispatchReset(s: Session, m: Message)
    requires m.kind.SequenceReset?
    ensures Dispatch(s, m) ==
      if Moves(s, m) then Drain(SetNextIn(s, m.kind.newSeqNo.value)) else Send(s, Rejection(SeqOrZero(m)))
  {
  }

  lemma {:induction false} DispatchAdvances(s: Session, m: Message)
    requires Current(s, m) && Filed(s)
    ensures Advances(s, Dispatch(s, m)) && Filed(Dispatch(s, m))
    decreases |s.pending|, 1
  {
    if !m.kind.SequenceReset? {
      DispatchConsumes(s, m);
      assert Filed(Dispatch(s, m));
    } else {
      DispatchReset(s, m);
      if Moves(s, m) {
        var s1 := SetNextIn(s, m.kind.newSeqNo.value);
        DrainAdvances(s1);
        AdvancesOn(s, s1, Drain(s1));
      }
    }
  }

  lemma {:induction false} DrainAdvances(s: Session)
    requires Filed(s)
    ensures Advances(s, Drain(s)) && Filed(Drain(s))
    decreases |s.pending|, 0
  {
    var n := s.store.nextIn;
    if n in s.pending {
      FewerPending(s.pending, n);
      var s1, m := s.(pending := s.pending - {n}), s.pending[n];
      DispatchAdvances(s1, m);
      AdvancesOn(s, s1, Dispatch(s1, m));
      DrainAdvances(Dispatch(s1, m));
      AdvancesOn(s, Dispatch(s1, m), Drain(Dispatch(s1, m)));
    }
  }

  // Within one logon epoch, one message moves the expected number forward only, and
  // the application is given messages only at the number expected.
  lemma ReceiveAdvances(c: Config, s: Session, m: Message)
    requires Filed(s) && !m.kind.Logon?
    ensures Advances(s, Receive(c, s, m)) && Filed(Receive(c, s, m))
  {
    if s.phase != Disconnected && m.valid && s.phase != AwaitingLogon && CheckSequence(s, m).Process? {
      DispatchAdvances(s, m);
      DrainAdvances(Dispatch(s, m));
      AdvancesOn(s, Dispatch(s, m), Drain(Dispatch(s, m)));
    }
  }

  // A Logon that does not reset the numbers only moves forward too, given that it
  // carries a number.
  lemma LogonAdvances(c: Config, s: Session, m: Message)
    requires Filed(s) && m.kind.Logon? && m.seqNum.Some? && !m.kind.reset && !c.resetOnLogon
    ensures Advances(s, Receive(c, s, m)) && Filed(Receive(c, s, m))
  {
  }

  // Under NextExpectedMsgSeqNum a Logon must claim a number already reached.
  predicate Overclaims(c: Config, s: Session, m: Message)
    requires m.kind.Logon?
  {
    c.nextExpectedSeqNum && (m.kind.nextExpected.None? || m.kind.nextExpected.value > s.store.nextOut)
  }

  // Without its number a Logon that is taken sends the expected number back to 1; so
  // an awaited Logon that resets nothing moves forward exactly when it is numbered,
  // turned away, or had nothing to lose.
  lemma LogonAdvancesExactly(c: Config, s: Session, m: Message)
    requires Filed(s) && m.kind.Logon? && m.valid && s.phase == AwaitingLogon
    requires !m.kind.reset && !c.resetOnLogon
    ensures Advances(s, Receive(c, s, m)) <==>
      m.seqNum.Some? || Overclaims(c, s, m) || s.store.nextIn <= 1
    ensures m.seqNum.None? && !Overclaims(c, s, m) ==> Receive(c, s, m).store.nextIn == 1
  {
    if m.seqNum.Some? {
      LogonAdvances(c, s, m);
    } else if Overclaims(c, s, m) {
      assert Receive(c, s, m) == LogoutAndDisconnect(s);
    } else {
      assert Receive(c, s, m) == AcceptLogon(c, s, m, false);
      assert Receive(c, s, m).store.nextIn == 1 && Receive(c, s, m).delivered == s.delivered;
    }
  }

  ghost predicate NoLogon(ms: seq<Message>) {
    forall i :: 0 <= i < |ms| ==> !ms[i].kind.Logon?
  }

  // Over any run of messages within an epoch: delivered in strictly ascending order,
  // each at its own number, and the expected number never goes back.
  lemma {:induction false} DeliversInOrder(c: Config, s: Session, ms: seq<Message>)
    requires Filed(s) && NoLogon(ms)
    ensures Advances(s, ReceiveAll(c, s, ms))
    decreases |ms|
  {
    if ms != [] {
      ReceiveAdvances(c, s, ms[0]);
      DeliversInOrder(c, Receive(c, s, ms[0]), ms[1..]);
      AdvancesOn(s, Receive(c, s, ms[0]), ReceiveAll(c, s, ms));
    }
  }

  // ---- outbound history ------------------------------------------------------------

  // Everything numbered so far is stored, and nothing else.
  ghost predicate Complete(st: Store) {
    st.nextOut >= 1 && forall n :: n in st.messages <==> 1 <= n < st.nextOut
  }

  lemma {:induction false} DispatchStaysComplete(s: Session, m: Message)
    requires Complete(s.store)
    ensures Complete(Dispatch(s, m).store)
    decreases |s.pending|, 1
  {
    if Moves(s, m) {
      DispatchReset(s, m);
      DrainStaysComplete(SetNextIn(s, m.kind.newSeqNo.value));
    }
  }

  lemma {:induction false} DrainStaysComplete(s: Session)
    requires Complete(s.store)
    ensures Complete(Drain(s).store)
    decreases |s.pending|, 0
  {
    var n := s.store.nextIn;
    if n in s.pending {
      FewerPending(s.pending, n);
      var s1, m := s.(pending := s.pending - {n}), s.pending[n];
      DispatchStaysComplete(s1, m);
      DrainStaysComplete(Dispatch(s1, m));
    }
  }

  lemma AcceptStaysComplete(c: Config, s: Session, m: Message, reset: bool)
    requires Complete(s.store) && m.kind.Logon? && (c.nextExpectedSeqNum ==> m.kind.nextExpected.Some?)
    ensures Complete(AcceptLogon(c, s, m, reset).store)
  {
  }

  lemma LogoutStaysComplete(s: Session)
    requires Complete(s.store)
    ensures Complete(LogoutAndDisconnect(s).store)
  {
  }

  lemma LogonStaysComplete(c: Config, s: Session, m: Message)
    requires Complete(s.store) && m.kind.Logon?
    ensures Complete(OnLogon(c, s, m).store)
  {
    var reset := m.kind.reset || c.resetOnLogon;
    var s1 := if reset then ResetStore(s) else s;
    var t := OnLogon(c, s, m);
    LogoutStaysComplete(s);
    LogoutStaysComplete(s1);
    if t == LogoutAndDisconnect(s) {
    } else if t == LogoutAndDisconnect(s1) {
    } else {
      AcceptStaysComplete(c, s1, m, reset);
    }
  }

  lemma CheckStaysComplete(s: Session, m: Message)
    requires Complete(s.store) && CheckSequence(s, m).Done?
    ensures Complete(CheckSequence(s, m).after.store)
  {
  }

  // Whatever arrives, logons and resets included, the store holds exactly the
  // messages numbered since the last reset.
  lemma ReceiveStaysComplete(c: Config, s: Session, m: Message)
    requires Complete(s.store)
    ensures Complete(Receive(c, s, m).store)
  {
    if s.phase == Disconnected || !m.valid || (s.phase == AwaitingLogon && !m.kind.Logon?) {
    } else if m.kind.Logon? {
      LogonStaysComplete(c, s, m);
    } else if CheckSequence(s, m).Done? {
      CheckStaysComplete(s, m);
    } else {
      DispatchStaysComplete(s, m);
      DrainStaysComplete(Dispatch(s, m));
    }
  }

  lemma SendStaysComplete(s: Session, m: Outgoing)
    requires Complete(s.store)
    ensures Complete(Send(s, m).store) && Send(s, m).store.messages[s.store.nextOut] == StoredAs(m)
    ensures forall n :: n in s.store.messages ==> Send(s, m).store.messages[n] == s.store.messages[n]
  {
  }

  // ---- jumping over queued messages -------------------------------------------------

  // A message is queued behind the number expected, so it can never become current.
  ghost predicate Stale(s: Session, k: int) {
    k in s.pending && k < s.store.nextIn && s.asked
  }

  // Nothing sent from s to t asks for a resend.
  ghost predicate AsksNothing(s: Session, t: Session) {
    && |s.wire| <= |t.wire|
    && (forall i :: |s.wire| <= i < |t.wire| ==> !(t.wire[i].Sent? && t.wire[i].message.ResendRequested?))
  }

  // The session is over, or still has the stale message queued.
  ghost predicate Stuck(s: Session, k: int) {
    (s.phase == Disconnected && s.pending == map[]) || Stale(s, k)
  }

  lemma AsksNothingOn(s: Session, t: Session, u: Session)
    requires AsksNothing(s, t) && AsksNothing(t, u) && t.wire <= u.wire
    ensures AsksNothing(s, u)
  {
    assert forall i :: 0 <= i < |t.wire| ==> u.wire[i] == t.wire[i];
  }

  lemma ReplayAsksNothing(st: Store, n: int, upper: int, gap: Option<int>)
    ensures forall i :: 0 <= i < |ReplayFrom(st, n, upper, gap)| ==> !ReplayFrom(st, n, upper, gap)[i].Sent?
    decreases upper + 1 - n
  {
    if n <= upper {
      if !Replayable(st, n) {
        ReplayAsksNothing(st, n + 1, upper, if gap.Some? then gap else Some(n));
      } else {
        ReplayAsksNothing(st, n + 1, upper, None);
      }
    }
  }

  // What one step adds to the wire asks for nothing.
  ghost predicate Quiet(s: Session, t: Session) {
    AsksNothing(s, t) && s.wire <= t.wire
  }

  lemma QuietOn(s: Session, t: Session, u: Session)
    requires Quiet(s, t) && Quiet(t, u)
    ensures Quiet(s, u)
  {
    AsksNothingOn(s, t, u);
    assert forall i :: 0 <= i < |s.wire| ==> u.wire[i] == t.wire[i];
  }

  lemma ReplayIsQuiet(s: Session, begin: int, end: int)
    ensures Quiet(s, Transmit(s, Replay(s.store, begin, end)))
  {
    ReplayAsksNothing(s.store, begin, ReplayUpper(s.store, end), None);
  }

  lemma ConsumeStaysStuck(s: Session, m: Message, k: int)
    requires Stuck(s, k) && !m.kind.SequenceReset? && m.seqNum == Some(s.store.nextIn)
    ensures Stuck(Dispatch(s, m), k) && Quiet(s, Dispatch(s, m))
  {
    DispatchConsumes(s, m);
    if m.kind.ResendRequest? {
      ReplayIsQuiet(SetNextIn(s, SeqOrZero(m) + 1), m.kind.begin, m.kind.end);
    }
  }

  lemma {:induction false} DispatchStaysStuck(s: Session, m: Message, k: int)
    requires Stuck(s, k) && Current(s, m) && Filed(s)
    ensures Stuck(Dispatch(s, m), k) && Quiet(s, Dispatch(s, m))
    decreases |s.pending|, 1
  {
    if !m.kind.SequenceReset? {
      ConsumeStaysStuck(s, m, k);
    } else {
      DispatchReset(s, m);
      if Moves(s, m) {
        DrainStaysStuck(SetNextIn(s, m.kind.newSeqNo.value), k);
      }
    }
  }

  lemma {:induction false} DrainStaysStuck(s: Session, k: int)
    requires Stuck(s, k) && Filed(s)
    ensures Stuck(Drain(s), k) && Quiet(s, Drain(s))
    decreases |s.pending|, 0
  {
    var n := s.store.nextIn;
    if n in s.pending {
      FewerPending(s.pending, n);
      var s1, m := s.(pending := s.pending - {n}), s.pending[n];
      DispatchAdvances(s1, m);
      DispatchStaysStuck(s1, m, k);
      DrainStaysStuck(Dispatch(s1, m), k);
      QuietOn(s1, Dispatch(s1, m), Drain(Dispatch(s1, m)));
    }
  }

  // Once a queued message has been jumped over, it stays queued, the session goes on
  // believing a resend outstanding, and no later gap is asked for until it ends.
  lemma ReceiveStaysStuck(c: Config, s: Session, m: Message, k: int)
    requires Stale(s, k) && Filed(s) && !m.kind.Logon?
    ensures Stuck(Receive(c, s, m), k) && Quiet(s, Receive(c, s, m))
  {
    if s.phase != Disconnected && m.valid && s.phase != AwaitingLogon && CheckSequence(s, m).Process? {
      DispatchAdvances(s, m);
      DispatchStaysStuck(s, m, k);
      DrainStaysStuck(Dispatch(s, m), k);
      QuietOn(s, Dispatch(s, m), Drain(Dispatch(s, m)));
    }
  }

  // A reset past a queued message is what strands it.
  lemma ResetStrands(c: Config, s: Session, m: Message, k: int)
    requires Filed(s) && s.phase == Active && s.asked && k in s.pending && k >= s.store.nextIn
    requires m.valid && m.seqNum.Some? && m.seqNum.value >= s.store.nextIn
    requires m.kind.SequenceReset? && !m.kind.gapFill && m.kind.newSeqNo.Some? && m.kind.newSeqNo.value > k
    ensures Stuck(Receive(c, s, m), k)
  {
    var s1 := SetNextIn(s, m.kind.newSeqNo.value);
    DispatchReset(s, m);
    DrainStaysStuck(s1, k);
    DrainAdvances(s1);
    DrainStaysStuck(Drain(s1), k);
    assert Receive(c, s, m) == Drain(Drain(s1));
  }

  // A session with nothing queued that jumps or ends: no SequenceReset and no Logout.
  ghost predicate Tame(s: Session) {
    && Filed(s) && s.phase == Active && (s.pending != map[] ==> s.asked)
    && forall n :: n in s.pending ==> !s.pending[n].kind.SequenceReset? && !s.pending[n].kind.Logout?
  }

  // Whatever is queued stands below v or still ahead.
  ghost predicate Split(s: Session, v: int) {
    v <= s.store.nextIn && forall n :: n in s.pending ==> n < v || n >= s.store.nextIn
  }

  lemma ConsumeKeeps(s: Session, v: int, n: int)
    requires Tame(s) && Split(s, v) && n == s.store.nextIn && n in s.pending
    ensures var s1 := s.(pending := s.pending - {n});
      var t := Dispatch(s1, s.pending[n]);
      && t.phase == Active && t.pending == s1.pending && t.asked == s.asked && t.store.nextIn == n + 1
  {
  }

  // A drain takes nothing from below v, and leaves nothing behind that was not there.
  lemma {:induction false} DrainSplits(s: Session, v: int)
    requires Tame(s) && Split(s, v)
    ensures Tame(Drain(s)) && Split(Drain(s), v)
    ensures forall k :: k < v ==> (k in Drain(s).pending <==> k in s.pending)
    decreases |s.pending|
  {
    var n := s.store.nextIn;
    if n in s.pending {
      FewerPending(s.pending, n);
      ConsumeKeeps(s, v, n);
      DrainSplits(Dispatch(s.(pending := s.pending - {n}), s.pending[n]), v);
    }
  }

  // A reset that is processed, gap fill or not, strands exactly what is queued below the
  // number it sets.
  lemma ResetStrandsExactly(c: Config, s: Session, m: Message)
    requires Tame(s) && m.valid && m.kind.SequenceReset? && CheckSequence(s, m).Process? && Moves(s, m)
    ensures var t, v := Receive(c, s, m), m.kind.newSeqNo.value;
      && forall k :: Stale(t, k) <==> k in s.pending && k < v
  {
    var v := m.kind.newSeqNo.value;
    var s1 := SetNextIn(s, v);
    DispatchReset(s, m);
    DrainSplits(s1, v);
    DrainSplits(Drain(s1), v);
    assert Receive(c, s, m) == Drain(Drain(s1));
  }
}
