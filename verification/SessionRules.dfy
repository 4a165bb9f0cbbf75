// One end of a FIX session on values: sequencing, gap queue, store and replay
// (exchangesim/fix/session.py over exchangesim/fix/store.py).
module SessionRules {
  import opened Options

  // An outbound message as stored: whether it is administrative, whether it can be
  // decoded again, and what it carries.
  datatype Stored = Stored(admin: bool, readable: bool, body: nat)

  // What the session sends under a new number.
  datatype Outgoing =
    | LogonAck(reset: bool, nextExpected: Option<int>)
    | HeartbeatReply
    | Rejection(refSeqNum: int)
    | LogoutNotice
    | ResendRequested(beginSeqNo: int)
    | Application(readable: bool, body: nat)

  // What goes over the wire: new messages, and the two kinds of replay.
  datatype Wire =
    | Sent(seqNum: int, message: Outgoing)
    | Resent(seqNum: int, body: nat)
    | GapFill(seqNum: int, newSeqNo: int)

  datatype Kind =
    | App(body: nat, refused: bool)
    | Heartbeat
    | TestRequest
    | ResendRequest(begin: int, end: int)
    | SequenceReset(newSeqNo: Option<int>, gapFill: bool)
    | Reject
    | Logon(reset: bool, nextExpected: Option<int>)
    | Logout

  // An inbound message: `valid` is the dictionary's verdict, `refused` that of the
  // application.
  datatype Message = Message(seqNum: Option<int>, kind: Kind, possDup: bool, valid: bool)

  datatype Phase = Disconnected | AwaitingLogon | Active | AwaitingLogout

  datatype Store = Store(nextOut: int, nextIn: int, messages: map<int, Stored>)

  datatype Delivery = Delivery(seqNum: int, body: nat)

  // `delivered` is what the application has been given since the numbers were reset.
  datatype Session = Session(phase: Phase, pending: map<int, Message>, asked: bool, store: Store,
                             delivered: seq<Delivery>, wire: seq<Wire>)

  datatype Config = Config(allowLogonReset: bool, resetOnLogon: bool, nextExpectedSeqNum: bool)

  // ---- outbound -----------------------------------------------------------------

  function StoredAs(m: Outgoing): Stored {
    match m
    case Application(readable, body) => Stored(false, readable, body)
    case _ => Stored(true, true, 0)
  }

  function Transmit(s: Session, w: seq<Wire>): Session {
    if s.phase == Disconnected then s else s.(wire := s.wire + w)
  }

  // Number, persist and transmit; without a transport the message is only stored.
  function Send(s: Session, m: Outgoing): Session {
    var n := s.store.nextOut;
    Transmit(s.(store := s.store.(nextOut := n + 1, messages := s.store.messages[n := StoredAs(m)])), [Sent(n, m)])
  }

  function Disconnect(s: Session): Session {
    s.(phase := Disconnected, pending := map[])
  }

  function LogoutAndDisconnect(s: Session): Session {
    Disconnect(Send(s, LogoutNotice))
  }

  const OPEN_ENDED := 999999

  function ReplayUpper(st: Store, end: int): int {
    var upper := if end == 0 || end == OPEN_ENDED then st.nextOut - 1 else end;
    if upper >= st.nextOut then st.nextOut - 1 else upper
  }

  predicate Replayable(st: Store, n: int) {
    n in st.messages && !st.messages[n].admin
  }

  // Retransmits one stored message; one that cannot be decoded is gap-filled.
  function ResendOne(st: Store, n: int): Wire
    requires n in st.messages
  {
    if st.messages[n].readable then Resent(n, st.messages[n].body) else GapFill(n, n + 1)
  }

  // The replay of n..upper with a gap open since `gap`, if any.
  function ReplayFrom(st: Store, n: int, upper: int, gap: Option<int>): seq<Wire>
    decreases upper + 1 - n
  {
    if n > upper then
      if gap.Some? then [GapFill(gap.value, st.nextOut)] else []
    else if !Replayable(st, n) then
      ReplayFrom(st, n + 1, upper, if gap.Some? then gap else Some(n))
    else
      (if gap.Some? then [GapFill(gap.value, n)] else []) + [ResendOne(st, n)] + ReplayFrom(st, n + 1, upper, None)
  }

  function Replay(st: Store, begin: int, end: int): seq<Wire> {
    ReplayFrom(st, begin, ReplayUpper(st, end), None)
  }

  // ---- inbound ------------------------------------------------------------------

  function SetNextIn(s: Session, n: int): Session {
    s.(store := s.store.(nextIn := n))
  }

  function SeqOrZero(m: Message): int {
    if m.seqNum.Some? then m.seqNum.value else 0
  }

  // Routes an in-sequence message and consumes its number.
  function Dispatch(s: Session, m: Message): (t: Session)
    ensures |t.pending| <= |s.pending|
    decreases |s.pending|, 1
  {
    var s1 := if m.kind.SequenceReset? then s else SetNextIn(s, SeqOrZero(m) + 1);
    match m.kind
    case App(body, refused) =>
      var s2 := s1.(delivered := s1.delivered + [Delivery(SeqOrZero(m), body)]);
      if refused then Send(s2, Rejection(SeqOrZero(m))) else s2
    case Heartbeat => s1
    case TestRequest => Send(s1, HeartbeatReply)
    case ResendRequest(begin, end) => Transmit(s1, Replay(s1.store, begin, end))
    case SequenceReset(newSeqNo, _) =>
      if newSeqNo.None? || newSeqNo.value < s1.store.nextIn then Send(s1, Rejection(SeqOrZero(m)))
      else Drain(SetNextIn(s1, newSeqNo.value))
    case Reject => s1
    case Logon(_, _) => s1
    case Logout =>
      if s1.phase == AwaitingLogout then Disconnect(s1) else Disconnect(Send(s1, LogoutNotice))
  }

  // Processes queued messages that have become current.
  function Drain(s: Session): (t: Session)
    ensures |t.pending| <= |s.pending|
    decreases |s.pending|, 0
  {
    if s.pending == map[] then s.(asked := false)
    else if s.store.nextIn !in s.pending then s
    else
      var n := s.store.nextIn;
      FewerPending(s.pending, n);
      Drain(Dispatch(s.(pending := s.pending - {n}), s.pending[n]))
  }

  lemma FewerPending(p: map<int, Message>, n: int)
    requires n in p
    ensures |p - {n}| == |p| - 1
  {
    assert (p - {n}).Keys == p.Keys - {n};
  }

  function QueueAndRequest(s: Session, m: Message, expected: int, received: int, request: bool): Session {
    var q := s.(pending := s.pending[received := m]);
    if q.asked then q
    else if !request then q.(asked := true)
    else Send(q.(asked := true), ResendRequested(expected))
  }

  datatype Check = Process | Done(after: Session)

  // Whether a message may be processed now, or what became of it instead.
  function CheckSequence(s: Session, m: Message): Check {
    var expected := s.store.nextIn;
    if m.seqNum.None? then Done(Send(s, Rejection(0)))
    else if m.seqNum.value == expected then Process
    else if m.seqNum.value > expected then
      if m.kind.SequenceReset? && !m.kind.gapFill then Process
      else Done(QueueAndRequest(s, m, expected, m.seqNum.value, true))
    else if m.possDup then Done(s)
    else if m.kind.Logout? then Done(Disconnect(s))
    else Done(LogoutAndDisconnect(s))
  }

  function ResetStore(s: Session): Session {
    s.(store := Store(1, 1, map[]), delivered := [])
  }

  function NumberLogon(c: Config, s: Session, m: Message): Session {
    var expected := s.store.nextIn;
    if m.seqNum.Some? && m.seqNum.value > expected then
      QueueAndRequest(s, m, expected, m.seqNum.value, !c.nextExpectedSeqNum)
    else SetNextIn(s, SeqOrZero(m) + 1)
  }

  // A Logon that is accepted: acknowledged first, then numbered, then answered with
  // whatever the peer says it is missing.
  function AcceptLogon(c: Config, s: Session, m: Message, reset: bool): Session
    requires m.kind.Logon? && (c.nextExpectedSeqNum ==> m.kind.nextExpected.Some?)
  {
    var expected := s.store.nextIn;
    var claimed := if m.seqNum == Some(expected) then expected + 1 else expected;
    var response := s.store.nextOut;
    var s2 := Send(s.(phase := Active), LogonAck(reset, if c.nextExpectedSeqNum then Some(claimed) else None));
    var s3 := NumberLogon(c, s2, m);
    if c.nextExpectedSeqNum && m.kind.nextExpected.value < response then
      Transmit(s3, Replay(s3.store, m.kind.nextExpected.value, response))
    else s3
  }

  function OnLogon(c: Config, s: Session, m: Message): Session
    requires m.kind.Logon?
  {
    if s.phase == Active || (m.kind.reset && !c.allowLogonReset) then LogoutAndDisconnect(s)
    else
      var reset := m.kind.reset || c.resetOnLogon;
      var s1 := if reset then ResetStore(s) else s;
      if c.nextExpectedSeqNum && (m.kind.nextExpected.None? || m.kind.nextExpected.value > s1.store.nextOut) then
        LogoutAndDisconnect(s1)
      else if m.seqNum.Some? && m.seqNum.value < s1.store.nextIn then LogoutAndDisconnect(s1)
      else AcceptLogon(c, s1, m, reset)
  }

  // An invalid message is answered; in sequence, it still consumes its number.
  function OnInvalid(s: Session, m: Message): Session {
    if s.phase == AwaitingLogon then LogoutAndDisconnect(s)
    else
      Send(if m.seqNum == Some(s.store.nextIn) then SetNextIn(s, s.store.nextIn + 1) else s, Rejection(SeqOrZero(m)))
  }

  // One message from the transport.
  function Receive(c: Config, s: Session, m: Message): Session {
    if s.phase == Disconnected then s
    else if !m.valid then OnInvalid(s, m)
    else if s.phase == AwaitingLogon && !m.kind.Logon? then LogoutAndDisconnect(s)
    else if m.kind.Logon? then OnLogon(c, s, m)
    else
      match CheckSequence(s, m)
      case Done(t) => t
      case Process => Drain(Dispatch(s, m))
  }

  function ReceiveAll(c: Config, s: Session, ms: seq<Message>): Session
    decreases |ms|
  {
    if ms == [] then s else ReceiveAll(c, Receive(c, s, ms[0]), ms[1..])
  }

  function Attach(s: Session): Session {
    s.(phase := AwaitingLogon, pending := map[], asked := false)
  }
}
