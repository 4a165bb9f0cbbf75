// What one message does to a session, case by case: numbering, replies, disconnection, and
// what a replay may contain (exchangesim/fix/session.py).
module SessionReplies {
  import opened Options
  import opened SessionRules
  import opened SessionOrder
  import opened Recovery

  // ---- saying something ---------------------------------------------------------------

  // How a message sent is kept: only application messages can be replayed.
  predicate KeptAs(k: Stored, m: Outgoing) {
    match m
    case Application(readable, body) => k == Stored(false, readable, body)
    case _ => k.admin
  }

  // From s to t exactly this was sent, under the next number, and kept.
  ghost predicate SaysOne(s: Session, t: Session, m: Outgoing) {
    var n := s.store.nextOut;
    && t.wire == s.wire + [Sent(n, m)] && t.store.nextOut == n + 1
    && n in t.store.messages && KeptAs(t.store.messages[n], m)
    && t.store.messages == s.store.messages[n := t.store.messages[n]]
  }

  predicate SaysNothing(s: Session, t: Session) {
    t.wire == s.wire && t.store.nextOut == s.store.nextOut && t.store.messages == s.store.messages
  }

  // Nothing has changed on the inbound side.
  predicate HearsNothing(s: Session, t: Session) {
    t.store.nextIn == s.store.nextIn && t.delivered == s.delivered && t.pending == s.pending && t.asked == s.asked
  }

  predicate HangsUp(s: Session, t: Session) {
    t.phase == Disconnected && t.pending == map[] && t.store.nextIn == s.store.nextIn && t.delivered == s.delivered
  }

  // What is sent without a transport is numbered and kept all the same.
  lemma SentIsKept(s: Session, m: Outgoing)
    ensures var t, n := Send(s, m), s.store.nextOut;
      && (s.phase != Disconnected ==> SaysOne(s, t, m)) && (s.phase == Disconnected ==> t.wire == s.wire)
      && t.phase == s.phase && HearsNothing(s, t) && t.store.nextOut == n + 1
      && t.store.messages == s.store.messages[n := t.store.messages[n]] && KeptAs(t.store.messages[n], m)
  {
  }

  // ---- messages out of turn ---------------------------------------------------------------

  predicate LoggedOn(s: Session) {
    s.phase == Active || s.phase == AwaitingLogout
  }

  // Unnumbered, too low or too high: rejected; ignored, hung up on or logged out; queued.
  lemma OutOfTurn(c: Config, s: Session, m: Message)
    requires LoggedOn(s) && m.valid && !m.kind.Logon? && m.seqNum != Some(s.store.nextIn)
    requires m.kind.SequenceReset? && !m.kind.gapFill && m.seqNum.Some? ==> m.seqNum.value < s.store.nextIn
    ensures var t := Receive(c, s, m);
      match m.seqNum
      case None => SaysOne(s, t, Rejection(0)) && HearsNothing(s, t) && t.phase == s.phase
      case Some(n) =>
        if n > s.store.nextIn then
          && t.phase == s.phase && t.asked && t.pending == s.pending[n := m]
          && t.store.nextIn == s.store.nextIn && t.delivered == s.delivered
          && (if s.asked then SaysNothing(s, t) else SaysOne(s, t, ResendRequested(s.store.nextIn)))
        else if m.possDup then t == s
        else if m.kind.Logout? then HangsUp(s, t) && SaysNothing(s, t)
        else HangsUp(s, t) && SaysOne(s, t, LogoutNotice)
  {
  }

  // An invalid message is rejected, and used up if it was its turn; nothing is accepted
  // from a peer that has not logged on.
  lemma InvalidAnswered(c: Config, s: Session, m: Message)
    requires s.phase != Disconnected && !m.valid
    ensures var t := Receive(c, s, m);
      if s.phase == AwaitingLogon then HangsUp(s, t) && SaysOne(s, t, LogoutNotice)
      else
        && t.phase == s.phase && t.pending == s.pending && t.asked == s.asked && t.delivered == s.delivered
        && t.store.nextIn == (if m.seqNum == Some(s.store.nextIn) then s.store.nextIn + 1 else s.store.nextIn)
        && SaysOne(s, t, Rejection(if m.seqNum.Some? then m.seqNum.value else 0))
  {
  }

  lemma LogonComesFirst(c: Config, s: Session, m: Message)
    requires s.phase == AwaitingLogon && m.valid && !m.kind.Logon?
    ensures HangsUp(s, Receive(c, s, m)) && SaysOne(s, Receive(c, s, m), LogoutNotice)
  {
  }

  // ---- messages in turn --------------------------------------------------------------------

  lemma DrainNothing(s: Session)
    requires s.pending == map[]
    ensures Drain(s) == s.(asked := false)
  {
  }

  predicate DeliversNothing(s: Session, t: Session) {
    t.delivered == s.delivered && t.phase == s.phase
  }

  // With nothing queued, what each message does: it takes its number, and gets the one reply
  // that is due to it, if any.
  lemma InTurn(c: Config, s: Session, m: Message)
    requires LoggedOn(s) && m.valid && m.seqNum == Some(s.store.nextIn) && s.pending == map[]
    requires !m.kind.Logon? && !m.kind.SequenceReset?
    ensures var n, t := s.store.nextIn, Receive(c, s, m);
      && t.store.nextIn == n + 1 && t.pending == map[] && !t.asked
      && match m.kind
         case App(body, refused) =>
           && t.delivered == s.delivered + [Delivery(n, body)] && t.phase == s.phase
           && (if refused then SaysOne(s, t, Rejection(n)) else SaysNothing(s, t))
         case TestRequest => DeliversNothing(s, t) && SaysOne(s, t, HeartbeatReply)
         case ResendRequest(begin, end) =>
           && DeliversNothing(s, t) && t.store == s.store.(nextIn := n + 1)
           && t.wire == s.wire + Replay(s.store, begin, end)
         case Logout =>
           && t.phase == Disconnected && t.delivered == s.delivered
           && (if s.phase == AwaitingLogout then SaysNothing(s, t) else SaysOne(s, t, LogoutNotice))
         case _ => DeliversNothing(s, t) && SaysNothing(s, t)
  {
    DrainNothing(Dispatch(s, m));
    if m.kind.ResendRequest? {
      ReplayIgnoresNextIn(s.store, s.store.nextIn + 1, m.kind.begin, ReplayUpper(s.store, m.kind.end), None);
    }
  }

  // A reset sets the number expected, in turn or, unless it is a gap fill, ahead of it; one
  // that would go back is rejected.
  lemma ResetInTurn(c: Config, s: Session, m: Message)
    requires LoggedOn(s) && m.valid && m.kind.SequenceReset? && s.pending == map[] && m.seqNum.Some?
    requires m.seqNum.value == s.store.nextIn || (m.seqNum.value > s.store.nextIn && !m.kind.gapFill)
    ensures var t, to := Receive(c, s, m), m.kind.newSeqNo;
      && t.phase == s.phase && t.pending == map[] && !t.asked && t.delivered == s.delivered
      && (if to.Some? && to.value >= s.store.nextIn then t.store.nextIn == to.value && SaysNothing(s, t)
          else t.store.nextIn == s.store.nextIn && SaysOne(s, t, Rejection(m.seqNum.value)))
  {
    DispatchReset(s, m);
    DrainNothing(Dispatch(s, m));
    if Moves(s, m) {
      DrainNothing(SetNextIn(s, m.kind.newSeqNo.value));
    }
  }

  // ---- logging on ------------------------------------------------------------------------

  predicate Resets(c: Config, m: Message)
    requires m.kind.Logon?
  {
    m.kind.reset || c.resetOnLogon
  }

  // The session a Logon is read against: with its numbers, or from 1 again.
  function Fresh(c: Config, s: Session, m: Message): Session
    requires m.kind.Logon?
  {
    if Resets(c, m) then s.(store := Store(1, 1, map[]), delivered := []) else s
  }

  predicate NotWelcome(c: Config, s: Session, m: Message)
    requires m.kind.Logon?
  {
    s.phase == Active || (m.kind.reset && !c.allowLogonReset)
  }

  predicate OutOfStep(c: Config, s: Session, m: Message)
    requires m.kind.Logon?
  {
    || (c.nextExpectedSeqNum && (m.kind.nextExpected.None? || m.kind.nextExpected.value > s.store.nextOut))
    || (m.seqNum.Some? && m.seqNum.value < s.store.nextIn)
  }

  // A Logon is turned away when the session is up, when it may not reset, when it claims
  // more than was sent, and when its number is too low.
  lemma LogonTurnedAway(c: Config, s: Session, m: Message)
    requires s.phase != Disconnected && m.valid && m.kind.Logon?
    ensures var t, f := Receive(c, s, m), Fresh(c, s, m);
      && (NotWelcome(c, s, m) ==> HangsUp(s, t) && SaysOne(s, t, LogoutNotice))
      && (!NotWelcome(c, s, m) && OutOfStep(c, f, m) ==> HangsUp(f, t) && SaysOne(f, t, LogoutNotice))
      && (!NotWelcome(c, s, m) && !OutOfStep(c, f, m) ==> t.phase == Active)
  {
  }

  // What an accepted Logon is answered with: the acknowledgement, then a request for the
  // gap if there is one nobody has asked about, then what the peer says it is missing.
  function Acknowledgement(c: Config, f: Session, m: Message): Outgoing
    requires m.kind.Logon?
  {
    var expected := f.store.nextIn;
    LogonAck(Resets(c, m),
             if !c.nextExpectedSeqNum then None
             else if m.seqNum == Some(expected) then Some(expected + 1) else Some(expected))
  }

  function Requested(c: Config, f: Session, m: Message): seq<Wire> {
    if m.seqNum.Some? && m.seqNum.value > f.store.nextIn && !f.asked && !c.nextExpectedSeqNum
    then [Sent(f.store.nextOut + 1, ResendRequested(f.store.nextIn))] else []
  }

  function Missed(c: Config, f: Session, m: Message, st: Store): seq<Wire>
    requires m.kind.Logon? && (c.nextExpectedSeqNum ==> m.kind.nextExpected.Some?)
  {
    if c.nextExpectedSeqNum && m.kind.nextExpected.value < f.store.nextOut
    then Replay(st, m.kind.nextExpected.value, f.store.nextOut) else []
  }

  // A Logon above the number expected leaves the gap open, queues itself and asks once; in
  // turn, or unnumbered, it sets the number expected behind its own.
  lemma LogonTaken(c: Config, s: Session, m: Message)
    requires s.phase != Disconnected && m.valid && m.kind.Logon?
    requires !NotWelcome(c, s, m) && !OutOfStep(c, Fresh(c, s, m), m)
    ensures var t, f := Receive(c, s, m), Fresh(c, s, m);
      && t.phase == Active && t.delivered == f.delivered
      && t.wire == f.wire + [Sent(f.store.nextOut, Acknowledgement(c, f, m))] + Requested(c, f, m) + Missed(c, f, m, t.store)
      && t.store.nextOut == f.store.nextOut + 1 + |Requested(c, f, m)|
      && (if m.seqNum.Some? && m.seqNum.value > f.store.nextIn then
            t.store.nextIn == f.store.nextIn && t.pending == f.pending[m.seqNum.value := m] && t.asked
          else
            && t.store.nextIn == (if m.seqNum.Some? then m.seqNum.value + 1 else 1)
            && t.pending == f.pending && t.asked == f.asked)
  {
    var f := Fresh(c, s, m);
    var t := Receive(c, s, m);
    assert t == AcceptLogon(c, f, m, Resets(c, m));
  }

  // ---- what a replay holds -------------------------------------------------------------------

  // The numbers a request asks for; an end of 0 or 999999 leaves it open.
  predicate AskedFor(st: Store, begin: int, end: int, n: int) {
    begin <= n < st.nextOut && (end == 0 || end == 999999 || n <= end)
  }

  predicate CanBeResent(st: Store, n: int, body: nat) {
    n in st.messages && !st.messages[n].admin && st.messages[n].readable && st.messages[n].body == body
  }

  lemma {:induction false} ResentFrom(st: Store, n: int, upper: int, gap: Option<int>, x: int, body: nat)
    ensures Resent(x, body) in ReplayFrom(st, n, upper, gap) <==> n <= x <= upper && CanBeResent(st, x, body)
    decreases upper + 1 - n
  {
    if n <= upper {
      ResentFrom(st, n + 1, upper, if gap.Some? then gap else Some(n), x, body);
      ResentFrom(st, n + 1, upper, None, x, body);
    }
  }

  // A replay resends exactly the readable application messages asked for.
  lemma ReplaysExactly(st: Store, begin: int, end: int, n: int, body: nat)
    ensures Resent(n, body) in Replay(st, begin, end) <==> AskedFor(st, begin, end, n) && CanBeResent(st, n, body)
  {
    ResentFrom(st, begin, ReplayUpper(st, end), None, n, body);
  }

  // What was sent is what is replayed: an application message with its contents, as long as
  // it can be read again, and nothing administrative.
  lemma SentIsReplayed(s: Session, m: Outgoing, begin: int, end: int, body: nat)
    ensures var n, st := s.store.nextOut, Send(s, m).store;
      Resent(n, body) in Replay(st, begin, end) <==> AskedFor(st, begin, end, n) && m == Application(true, body)
  {
    SentIsKept(s, m);
    ReplaysExactly(Send(s, m).store, begin, end, s.store.nextOut, body);
  }

  // ---- from a Logon to recovery -----------------------------------------------------------------

  // A session attached again, at the number it had reached.
  lemma AttachedAgain(s: Session)
    ensures var r := Attach(s);
      && r.phase == AwaitingLogon && r.pending == map[] && !r.asked
      && r.store == s.store && r.delivered == s.delivered && r.wire == s.wire
  {
  }

  // What the sender's Logon finds: numbered n above what the receiver has had, and kept.
  ghost predicate LogsOnAbove(st: Store, e: int, m: Message) {
    && Complete(st) && m.valid && m.kind.Logon? && !m.kind.reset && m.seqNum.Some?
    && 1 <= e < m.seqNum.value < st.nextOut && st.messages[m.seqNum.value].admin
  }

  lemma LogonQueues(c: Config, r0: Session, m: Message)
    requires !c.resetOnLogon && !c.nextExpectedSeqNum && m.valid && m.kind.Logon? && !m.kind.reset
    requires m.seqNum.Some? && m.seqNum.value > r0.store.nextIn
    ensures var r, n := Receive(c, Attach(r0), m), m.seqNum.value;
      && r.phase == Active && r.store.nextIn == r0.store.nextIn && r.pending == map[n := m] && r.asked
      && r.wire == r0.wire + [Sent(r0.store.nextOut, LogonAck(false, None))]
                           + [Sent(r0.store.nextOut + 1, ResendRequested(r0.store.nextIn))]
  {
    AttachedAgain(r0);
    LogonTaken(c, Attach(r0), m);
  }

  lemma QueuedLogonWaits(st: Store, r: Session, m: Message)
    requires LogsOnAbove(st, r.store.nextIn, m) && r.phase == Active && r.pending == map[m.seqNum.value := m] && r.asked
    ensures Waiting(st, r) && !Replayable(st, m.seqNum.value)
  {
    assert m.seqNum.value in r.pending;
  }

  // Logging on above a gap: the receiver asks for it, the sender answers, and that recovers
  // everything, the queued Logon included, exactly when the messages on either side of the
  // Logon can be replayed; otherwise a gap fill jumps over it.
  lemma LogonRecovers(c: Config, r0: Session, m: Message, cs: Config, s: Session, refused: set<int>)
    requires !c.resetOnLogon && !c.nextExpectedSeqNum && LogsOnAbove(s.store, r0.store.nextIn, m)
    requires s.phase == Active && s.pending == map[] && s.store.nextIn == r0.store.nextOut + 1
    ensures var r, n := Receive(c, Attach(r0), m), m.seqNum.value;
      var request := r.wire[|r.wire| - 1];
      var answer := Receive(cs, s, Inbound(request, {})).wire[|s.wire|..];
      && r.wire[|r0.wire|..] == [Sent(r0.store.nextOut, LogonAck(false, None)), request]
      && (Recovered(CaseOf(s.store, r), ReceiveReplay(c, r, answer, refused)) <==>
            Replayable(s.store, n - 1) && (n + 1 == s.store.nextOut || Replayable(s.store, n + 1)))
  {
    var r, n := Receive(c, Attach(r0), m), m.seqNum.value;
    LogonQueues(c, r0, m);
    QueuedLogonWaits(s.store, r, m);
    ResendRecovers(cs, s, c, r, refused);
    TogetherIs(s.store, r, r0.store.nextIn, n);
  }

  // With one number queued that cannot be replayed, neighbours are queued alike exactly when
  // the numbers next to it can be.
  lemma TogetherIs(st: Store, r: Session, e: int, n: int)
    requires r.pending.Keys == {n} && e < n < st.nextOut && !Replayable(st, n)
    ensures Together(CaseOf(st, r), e, st.nextOut) <==>
      Replayable(st, n - 1) && (n + 1 == st.nextOut || Replayable(st, n + 1))
  {
    var k := CaseOf(st, r);
    assert n in k.q && n - 1 !in k.q && n + 1 !in k.q;
    if Together(k, e, st.nextOut) {
      assert Replayable(st, n - 1) || Replayable(st, n - 1 + 1);
    }
  }
}
