// A replay met by the other end's inbound rules: what a resend recovers, and exactly
// when it recovers everything (exchangesim/fix/session.py).
module Recovery {
  import opened Options
  import opened SessionRules
  import opened SessionOrder

  // ---- a replay tiles the range asked for ----------------------------------------

  // Each message starts where the one before it left off, from a up to b.
  ghost predicate Tiles(ws: seq<Wire>, a: int, b: int)
    decreases |ws|
  {
    if ws == [] then a == b
    else
      match ws[0]
      case Sent(_, _) => false
      case Resent(n, _) => n == a && Tiles(ws[1..], a + 1, b)
      case GapFill(n, to) => n == a && a < to && Tiles(ws[1..], to, b)
  }

  // How far a replay of begin..upper reaches: its trailing gap fill goes on to the
  // next number to be sent, whatever was asked for.
  function ReachOf(st: Store, begin: int, upper: int): int {
    if begin > upper then begin
    else if Replayable(st, upper) then upper + 1
    else st.nextOut
  }

  function Position(n: int, gap: Option<int>): int {
    if gap.Some? then gap.value else n
  }

  // Nothing between the gap's start and n can be replayed.
  ghost predicate Gap(st: Store, n: int, gap: Option<int>) {
    gap.Some? ==> gap.value < n && forall x :: gap.value <= x < n ==> !Replayable(st, x)
  }

  lemma {:induction false} ReplayFromTiles(st: Store, n: int, upper: int, gap: Option<int>)
    requires Gap(st, n, gap) && n <= upper + 1 <= st.nextOut
    ensures Tiles(ReplayFrom(st, n, upper, gap), Position(n, gap), ReachOf(st, Position(n, gap), upper))
    decreases upper + 1 - n
  {
    var ws := ReplayFrom(st, n, upper, gap);
    if n > upper {
    } else if !Replayable(st, n) {
      ReplayFromTiles(st, n + 1, upper, Some(Position(n, gap)));
    } else {
      var rest := ReplayFrom(st, n + 1, upper, None);
      ReplayFromTiles(st, n + 1, upper, None);
      assert ([ResendOne(st, n)] + rest)[1..] == rest;
      if gap.Some? {
        assert ws[1..] == [ResendOne(st, n)] + rest;
      } else {
        assert ws == [ResendOne(st, n)] + rest;
      }
    }
  }

  // A replay covers begin..ReachOf without a hole or an overlap; asked for with no end,
  // that is everything numbered so far.
  lemma ReplayTiles(st: Store, begin: int, end: int)
    requires begin <= ReplayUpper(st, end) + 1
    ensures Tiles(Replay(st, begin, end), begin, ReachOf(st, begin, ReplayUpper(st, end)))
    ensures end == 0 ==> Tiles(Replay(st, begin, end), begin, st.nextOut)
  {
    ReplayFromTiles(st, begin, ReplayUpper(st, end), None);
  }

  lemma {:induction false} ReplayIgnoresNextIn(st: Store, k: int, n: int, upper: int, gap: Option<int>)
    ensures ReplayFrom(st.(nextIn := k), n, upper, gap) == ReplayFrom(st, n, upper, gap)
    decreases upper + 1 - n
  {
    if n <= upper {
      ReplayIgnoresNextIn(st, k, n + 1, upper, if gap.Some? then gap else Some(n));
      ReplayIgnoresNextIn(st, k, n + 1, upper, None);
    }
  }

  // A resend request in sequence is answered with the replay it asks for.
  lemma AnswersResend(c: Config, s: Session, m: Message)
    requires s.phase == Active && s.pending == map[]
    requires m.valid && m.kind.ResendRequest? && m.seqNum == Some(s.store.nextIn)
    ensures Receive(c, s, m).wire == s.wire + Replay(s.store, m.kind.begin, m.kind.end)
    ensures Receive(c, s, m).store == s.store.(nextIn := s.store.nextIn + 1)
  {
    ReplayIgnoresNextIn(s.store, s.store.nextIn + 1, m.kind.begin, ReplayUpper(s.store, m.kind.end), None);
  }

  // ---- the receiving end -----------------------------------------------------------

  function KindOf(m: Outgoing, refused: bool): Kind {
    match m
    case LogonAck(reset, nextExpected) => Logon(reset, nextExpected)
    case HeartbeatReply => Heartbeat
    case Rejection(_) => Reject
    case LogoutNotice => Logout
    case ResendRequested(begin) => ResendRequest(begin, 0)
    case Application(_, body) => App(body, refused)
  }

  // What is sent, as it arrives; the numbers in `refused` are the application's to turn
  // down.
  function Inbound(w: Wire, refused: set<int>): Message {
    match w
    case Sent(n, m) => Message(Some(n), KindOf(m, n in refused), false, true)
    case Resent(n, body) => Message(Some(n), App(body, n in refused), true, true)
    case GapFill(n, to) => Message(Some(n), SequenceReset(Some(to), true), true, true)
  }

  function ReceiveReplay(c: Config, r: Session, ws: seq<Wire>, refused: set<int>): Session
    decreases |ws|
  {
    if ws == [] then r else ReceiveReplay(c, Receive(c, r, Inbound(ws[0], refused)), ws[1..], refused)
  }

  lemma {:induction false} ReceiveReplayOn(c: Config, r: Session, us: seq<Wire>, ws: seq<Wire>, refused: set<int>)
    ensures ReceiveReplay(c, r, us + ws, refused) ==
            ReceiveReplay(c, ReceiveReplay(c, r, us, refused), ws, refused)
    decreases |us|
  {
    if us == [] {
      assert us + ws == ws;
    } else {
      assert (us + ws)[1..] == us[1..] + ws;
      ReceiveReplayOn(c, Receive(c, r, Inbound(us[0], refused)), us[1..], ws, refused);
    }
  }

  // A queued message is the one the sender stored under that number. A queued Logout
  // would end the session, and a SequenceReset is never stored.
  predicate Echo(st: Store, n: int, m: Message) {
    && m.valid && m.seqNum == Some(n) && n in st.messages
    && if st.messages[n].admin then !m.kind.App? && !m.kind.SequenceReset? && !m.kind.Logout?
       else m.kind.App? && m.kind.body == st.messages[n].body
  }

  ghost predicate Echoes(st: Store, q: map<int, Message>, from: int) {
    forall n :: n in q ==> from < n < st.nextOut && Echo(st, n, q[n])
  }

  // What the application is owed for the numbers a..b-1: every application message the
  // sender can still read, and every one already queued.
  predicate Owing(st: Store, q: map<int, Message>, n: int) {
    Replayable(st, n) && (st.messages[n].readable || n in q)
  }

  function Owed(st: Store, q: map<int, Message>, a: int, b: int): seq<Delivery>
    decreases b - a
  {
    if a >= b then []
    else Owed(st, q, a, b - 1) + if Owing(st, q, b - 1) then [Delivery(b - 1, st.messages[b - 1].body)] else []
  }

  // What a recovery is measured against: the sender's store, the queue and deliveries
  // the receiver began with, and the number it expected.
  datatype Case = Case(st: Store, q: map<int, Message>, base: seq<Delivery>, begin: int)

  // The receiver has taken everything below e and is still waiting for e.
  ghost predicate At(k: Case, r: Session, e: int) {
    && r.phase == Active && r.store.nextIn == e && e !in k.q
    && Waits(k, r, e) && (r.asked ==> r.pending != map[])
  }

  ghost predicate Waits(k: Case, r: Session, e: int) {
    && (forall n :: n in r.pending <==> n in k.q && e <= n)
    && (forall n :: n in r.pending ==> r.pending[n] == k.q[n])
    && r.delivered == k.base + Owed(k.st, k.q, k.begin, e)
    && (r.pending != map[] ==> r.asked)
  }

  ghost predicate Sound(k: Case) {
    Complete(k.st) && 1 <= k.begin <= k.st.nextOut && Echoes(k.st, k.q, k.begin)
  }

  // Everything up to the number the sender will use next is settled.
  predicate Recovered(k: Case, t: Session) {
    t.phase == Active && t.store.nextIn == k.st.nextOut && t.pending == map[] && !t.asked
  }

  // Neighbouring numbers that cannot be replayed are queued together or not at all.
  ghost predicate Together(k: Case, a: int, b: int) {
    forall x :: a <= x < b - 1 && !Replayable(k.st, x) && !Replayable(k.st, x + 1) ==> (x in k.q <==> x + 1 in k.q)
  }

  ghost predicate AllQueued(k: Case, a: int, b: int) {
    forall x :: a <= x < b ==> x in k.q
  }

  ghost predicate NoneQueued(k: Case, a: int, b: int) {
    forall x :: a <= x < b ==> x !in k.q
  }

  // The receiver has taken everything below `from` and whatever was queued from there on.
  ghost predicate Reaches(k: Case, t: Session, from: int) {
    At(k, t, t.store.nextIn) && from <= t.store.nextIn && AllQueued(k, from, t.store.nextIn)
  }

  // ---- one message at a time ---------------------------------------------------------

  lemma TakeQueued(k: Case, s: Session)
    requires Sound(k) && s.phase == Active && k.begin <= s.store.nextIn && Waits(k, s, s.store.nextIn)
    requires s.store.nextIn in s.pending
    ensures var e := s.store.nextIn;
            var t := Dispatch(s.(pending := s.pending - {e}), s.pending[e]);
            t.phase == Active && t.store.nextIn == e + 1 && t.pending == s.pending - {e} && Waits(k, t, e + 1)
  {
    var e := s.store.nextIn;
    assert Echo(k.st, e, k.q[e]);
    assert s.pending != map[];
  }

  lemma DrainHere(k: Case, s: Session)
    requires Sound(k) && s.phase == Active && k.begin <= s.store.nextIn && Waits(k, s, s.store.nextIn)
    requires s.store.nextIn !in s.pending
    ensures Reaches(k, Drain(s), s.store.nextIn)
  {
    DrainStops(s);
    assert Drain(s).pending == s.pending && Drain(s).store == s.store && Drain(s).delivered == s.delivered;
  }

  lemma {:induction false} DrainTo(k: Case, s: Session)
    requires Sound(k) && s.phase == Active && k.begin <= s.store.nextIn && Waits(k, s, s.store.nextIn)
    ensures Reaches(k, Drain(s), s.store.nextIn)
    decreases |s.pending|, 1
  {
    if s.store.nextIn in s.pending {
      DrainQueued(k, s);
    } else {
      DrainHere(k, s);
    }
  }

  lemma {:induction false} DrainQueued(k: Case, s: Session)
    requires Sound(k) && s.phase == Active && k.begin <= s.store.nextIn && Waits(k, s, s.store.nextIn)
    requires s.store.nextIn in s.pending
    ensures Reaches(k, Drain(s), s.store.nextIn)
    decreases |s.pending|, 0
  {
    var e := s.store.nextIn;
    FewerPending(s.pending, e);
    TakeQueued(k, s);
    var s2 := Dispatch(s.(pending := s.pending - {e}), s.pending[e]);
    DrainTo(k, s2);
    DrainOn(s);
    ReachesSooner(k, Drain(s2), e);
  }

  lemma ReachesSooner(k: Case, t: Session, e: int)
    requires Reaches(k, t, e + 1) && e in k.q
    ensures Reaches(k, t, e)
  {
  }

  lemma DrainOn(s: Session)
    requires s.store.nextIn in s.pending
    ensures var e := s.store.nextIn;
            Drain(s) == Drain(Dispatch(s.(pending := s.pending - {e}), s.pending[e]))
  {
  }

  lemma DrainStops(s: Session)
    requires s.store.nextIn !in s.pending
    ensures Drain(s) == s.(asked := s.asked && s.pending != map[])
  {
  }

  lemma TakeResent(c: Config, k: Case, r: Session, n: int, refused: set<int>)
    requires Sound(k) && k.begin <= n && Reaches(k, r, n)
    requires Replayable(k.st, n) && k.st.messages[n].readable
    ensures Reaches(k, Receive(c, r, Inbound(Resent(n, k.st.messages[n].body), refused)), n + 1)
  {
    var m := Inbound(Resent(n, k.st.messages[n].body), refused);
    if n == r.store.nextIn {
      var s := Dispatch(r, m);
      assert s.delivered == r.delivered + [Delivery(n, k.st.messages[n].body)];
      assert Owing(k.st, k.q, n);
      assert s.delivered == k.base + Owed(k.st, k.q, k.begin, n + 1);
      assert Waits(k, s, n + 1);
      DrainTo(k, s);
    }
  }

  // Nothing the sender could have resent lies between a and b.
  ghost predicate Unreadable(st: Store, a: int, b: int) {
    forall x :: a <= x < b ==> !(Replayable(st, x) && st.messages[x].readable)
  }

  lemma {:induction false} NothingOwed(k: Case, a: int, b: int)
    requires k.begin <= a <= b && Unreadable(k.st, a, b) && NoneQueued(k, a, b)
    ensures Owed(k.st, k.q, k.begin, b) == Owed(k.st, k.q, k.begin, a)
    decreases b - a
  {
    if a < b {
      NothingOwed(k, a, b - 1);
      assert !Owing(k.st, k.q, b - 1);
    }
  }

  // A gap fill over a..b either finds the whole of it queued or none of it, or loses
  // the thread.
  lemma TakeGap(c: Config, k: Case, r: Session, a: int, b: int, refused: set<int>)
    requires Sound(k) && k.begin <= a && Reaches(k, r, a)
    requires a < b && Unreadable(k.st, a, b)
    ensures var t := Receive(c, r, Inbound(GapFill(a, b), refused));
      && (AllQueued(k, a, b) || NoneQueued(k, a, b) ==>
            Reaches(k, t, b))
      && (!AllQueued(k, a, b) && !NoneQueued(k, a, b) ==> Lost(t, b))
  {
    var e, m := r.store.nextIn, Inbound(GapFill(a, b), refused);
    if a < e {
      assert a in k.q;
      assert Receive(c, r, m) == r;
      if e < b {
        assert e !in r.pending;
      }
    } else {
      JumpGap(c, k, r, b, refused);
    }
  }

  lemma JumpGap(c: Config, k: Case, r: Session, b: int, refused: set<int>)
    requires Sound(k) && At(k, r, r.store.nextIn) && k.begin <= r.store.nextIn < b
    requires Unreadable(k.st, r.store.nextIn, b)
    ensures var t := Receive(c, r, Inbound(GapFill(r.store.nextIn, b), refused));
      && (NoneQueued(k, r.store.nextIn, b) ==> Reaches(k, t, b))
      && (!NoneQueued(k, r.store.nextIn, b) ==> Lost(t, b))
  {
    var e, m := r.store.nextIn, Inbound(GapFill(r.store.nextIn, b), refused);
    var s := SetNextIn(r, b);
    DispatchReset(r, m);
    assert Receive(c, r, m) == Drain(Drain(s));
    if NoneQueued(k, e, b) {
      NothingOwed(k, e, b);
      DrainTo(k, s);
      DrainTo(k, Drain(s));
    } else {
      var x :| e <= x < b && x in k.q;
      assert Stuck(s, x);
      DrainStaysStuck(s, x);
      DrainAdvances(s);
      DrainStaysStuck(Drain(s), x);
      DrainAdvances(Drain(s));
    }
  }

  // ---- once the thread is lost -------------------------------------------------------

  // The receiver has jumped over something queued, or waits for a number the replay
  // has already passed.
  ghost predicate Lost(r: Session, p: int) {
    && Filed(r)
    && ((exists x :: Stuck(r, x)) || (r.phase == Active && r.store.nextIn < p && r.store.nextIn !in r.pending))
  }

  lemma LostStep(c: Config, r: Session, w: Wire, p: int, refused: set<int>)
    requires Lost(r, p) && !w.Sent? && w.seqNum == p
    ensures Lost(Receive(c, r, Inbound(w, refused)), p + 1)
  {
    var m := Inbound(w, refused);
    ReceiveAdvances(c, r, m);
    if x :| Stuck(r, x) {
      if Stale(r, x) {
        ReceiveStaysStuck(c, r, m, x);
      }
      assert Stuck(Receive(c, r, m), x);
    }
  }

  lemma {:induction false} LostStays(c: Config, r: Session, ws: seq<Wire>, a: int, b: int, refused: set<int>)
    requires Tiles(ws, a, b) && Lost(r, a)
    ensures Lost(ReceiveReplay(c, r, ws, refused), b)
    decreases |ws|
  {
    if ws != [] {
      LostStep(c, r, ws[0], a, refused);
      LostStays(c, Receive(c, r, Inbound(ws[0], refused)), ws[1..], if ws[0].Resent? then a + 1 else ws[0].newSeqNo, b, refused);
    }
  }

  lemma LostIsNotRecovered(k: Case, t: Session)
    requires Lost(t, k.st.nextOut)
    ensures !Recovered(k, t)
  {
  }

  // ---- the whole replay ---------------------------------------------------------------

  // A run of numbers that cannot be replayed is kept together exactly when all of it is
  // queued or none of it.
  lemma {:induction false} SameAcross(k: Case, a: int, x: int)
    requires a <= x && Together(k, a, x + 1) && forall y :: a <= y <= x ==> !Replayable(k.st, y)
    ensures x in k.q <==> a in k.q
    decreases x - a
  {
    if a < x {
      SameAcross(k, a, x - 1);
      assert !Replayable(k.st, x - 1) && !Replayable(k.st, x - 1 + 1);
    }
  }

  lemma RunTogether(k: Case, a: int, b: int)
    requires a < b && forall y :: a <= y < b ==> !Replayable(k.st, y)
    ensures Together(k, a, b) <==> AllQueued(k, a, b) || NoneQueued(k, a, b)
  {
    if Together(k, a, b) {
      forall x | a <= x < b ensures x in k.q <==> a in k.q {
        SameAcross(k, a, x);
      }
    }
  }

  // A number that can be replayed separates the runs on either side of it.
  lemma TogetherAround(k: Case, a: int, n: int, b: int)
    requires a <= n < b && Replayable(k.st, n)
    ensures Together(k, a, b) <==> Together(k, a, n) && Together(k, n + 1, b)
  {
    if Together(k, a, n) && Together(k, n + 1, b) {
      forall x | a <= x < b - 1 && !Replayable(k.st, x) && !Replayable(k.st, x + 1)
        ensures x in k.q <==> x + 1 in k.q
      {
        assert x != n && x + 1 != n;
      }
    }
  }

  // How the rest of the replay ends for a receiver that has kept up so far.
  ghost predicate Ends(k: Case, t: Session, from: int) {
    && (Recovered(k, t) <==> Together(k, from, k.st.nextOut))
    && (Recovered(k, t) ==> t.delivered == k.base + Owed(k.st, k.q, k.begin, k.st.nextOut))
  }

  lemma ReachedEnd(k: Case, t: Session)
    requires Sound(k) && Reaches(k, t, k.st.nextOut)
    ensures Recovered(k, t) && t.delivered == k.base + Owed(k.st, k.q, k.begin, k.st.nextOut)
  {
    assert k.st.nextOut !in k.q;
    assert t.store.nextIn == k.st.nextOut;
    assert t.pending == map[] by {
      forall x ensures x !in t.pending {
        assert x in t.pending ==> x in k.q;
      }
    }
  }

  lemma ReceiveOne(c: Config, r: Session, w: Wire, ws: seq<Wire>, refused: set<int>)
    ensures ReceiveReplay(c, r, [w] + ws, refused) == ReceiveReplay(c, Receive(c, r, Inbound(w, refused)), ws, refused)
  {
    assert ([w] + ws)[1..] == ws;
  }

  lemma ReplayClosesGap(st: Store, n: int, upper: int, gap: Option<int>)
    requires gap.Some? && n <= upper && Replayable(st, n)
    ensures ReplayFrom(st, n, upper, gap) == [GapFill(gap.value, n)] + ReplayFrom(st, n, upper, None)
  {
  }

  lemma ReplayOpens(st: Store, n: int, upper: int)
    requires n <= upper && Replayable(st, n)
    ensures ReplayFrom(st, n, upper, None) == [ResendOne(st, n)] + ReplayFrom(st, n + 1, upper, None)
  {
  }

  // The last gap fill of an open-ended replay.
  lemma LastGapMet(c: Config, k: Case, r: Session, a: int, refused: set<int>)
    requires Sound(k) && k.begin <= a < k.st.nextOut && Reaches(k, r, a)
    requires forall x :: a <= x < k.st.nextOut ==> !Replayable(k.st, x)
    ensures Ends(k, Receive(c, r, Inbound(GapFill(a, k.st.nextOut), refused)), a)
  {
    var b, t := k.st.nextOut, Receive(c, r, Inbound(GapFill(a, k.st.nextOut), refused));
    TakeGap(c, k, r, a, b, refused);
    RunTogether(k, a, b);
    if Together(k, a, b) {
      ReachedEnd(k, t);
    } else {
      LostIsNotRecovered(k, t);
    }
  }

  // One application message met, resent or gap-filled.
  lemma OneMet(c: Config, k: Case, r: Session, n: int, refused: set<int>)
    requires Sound(k) && k.begin <= n && Reaches(k, r, n) && Replayable(k.st, n)
    ensures Reaches(k, Receive(c, r, Inbound(ResendOne(k.st, n), refused)), n + 1)
  {
    if k.st.messages[n].readable {
      TakeResent(c, k, r, n, refused);
    } else {
      TakeGap(c, k, r, n, n + 1, refused);
      assert AllQueued(k, n, n + 1) || NoneQueued(k, n, n + 1);
    }
  }

  lemma EndsAcross(k: Case, t: Session, a: int, n: int)
    requires a <= n < k.st.nextOut && Replayable(k.st, n) && Together(k, a, n)
    requires Ends(k, t, n) || Ends(k, t, n + 1)
    ensures Ends(k, t, a)
  {
    TogetherAround(k, a, n, k.st.nextOut);
    TogetherAround(k, n, n, k.st.nextOut);
  }

  lemma LostEnds(k: Case, t: Session, a: int, n: int)
    requires a <= n < k.st.nextOut && Replayable(k.st, n) && !Together(k, a, n) && Lost(t, k.st.nextOut)
    ensures Ends(k, t, a)
  {
    TogetherAround(k, a, n, k.st.nextOut);
    LostIsNotRecovered(k, t);
  }

  // A gap fill a..n-1 closed by an application message: kept up with, or lost for good.
  lemma GapMet(c: Config, k: Case, r: Session, a: int, n: int, refused: set<int>)
    requires Sound(k) && k.begin <= a < n < k.st.nextOut && Replayable(k.st, n)
    requires Gap(k.st, n, Some(a)) && Reaches(k, r, a)
    ensures var r1 := Receive(c, r, Inbound(GapFill(a, n), refused));
            if Together(k, a, n) then Reaches(k, r1, n) else Lost(r1, n)
  {
    TakeGap(c, k, r, a, n, refused);
    RunTogether(k, a, n);
  }

  lemma LostRest(c: Config, k: Case, r: Session, n: int, ws: seq<Wire>, refused: set<int>)
    requires Sound(k) && n <= k.st.nextOut && Lost(r, n) && ws == ReplayFrom(k.st, n, k.st.nextOut - 1, None)
    ensures Lost(ReceiveReplay(c, r, ws, refused), k.st.nextOut)
  {
    ReplayFromTiles(k.st, n, k.st.nextOut - 1, None);
    LostStays(c, r, ws, n, k.st.nextOut, refused);
  }

  // The rest of an open-ended replay, from number n on.
  lemma {:induction false} ReplayMet(c: Config, k: Case, r: Session, n: int, gap: Option<int>, ws: seq<Wire>,
                                     refused: set<int>)
    requires Sound(k) && k.begin <= Position(n, gap) && n <= k.st.nextOut
    requires Gap(k.st, n, gap) && Reaches(k, r, Position(n, gap))
    requires ws == ReplayFrom(k.st, n, k.st.nextOut - 1, gap)
    ensures Ends(k, ReceiveReplay(c, r, ws, refused), Position(n, gap))
    decreases k.st.nextOut - n, gap.Some?
  {
    if n == k.st.nextOut {
      if gap.Some? {
        LastGapMet(c, k, r, gap.value, refused);
        ReceiveOne(c, r, GapFill(gap.value, n), [], refused);
      } else {
        ReachedEnd(k, r);
      }
    } else if !Replayable(k.st, n) {
      ReplayMet(c, k, r, n + 1, Some(Position(n, gap)), ws, refused);
    } else if gap.Some? {
      ReplayMetGap(c, k, r, n, gap.value, ws, refused);
    } else {
      ReplayMetOne(c, k, r, n, ws, refused);
    }
  }

  lemma {:induction false} ReplayMetOne(c: Config, k: Case, r: Session, n: int, ws: seq<Wire>, refused: set<int>)
    requires Sound(k) && k.begin <= n < k.st.nextOut && Replayable(k.st, n) && Reaches(k, r, n)
    requires ws == ReplayFrom(k.st, n, k.st.nextOut - 1, None)
    ensures Ends(k, ReceiveReplay(c, r, ws, refused), n)
    decreases k.st.nextOut - n, false, 0
  {
    var w, rest := ResendOne(k.st, n), ReplayFrom(k.st, n + 1, k.st.nextOut - 1, None);
    ReplayOpens(k.st, n, k.st.nextOut - 1);
    OneMet(c, k, r, n, refused);
    ReceiveOne(c, r, w, rest, refused);
    RestMet(c, k, Receive(c, r, Inbound(w, refused)), n, rest, refused);
  }

  lemma {:induction false} RestMet(c: Config, k: Case, r: Session, n: int, rest: seq<Wire>, refused: set<int>)
    requires Sound(k) && k.begin <= n < k.st.nextOut && Replayable(k.st, n) && Reaches(k, r, n + 1)
    requires rest == ReplayFrom(k.st, n + 1, k.st.nextOut - 1, None)
    ensures Ends(k, ReceiveReplay(c, r, rest, refused), n)
    decreases k.st.nextOut - n - 1, true, 1
  {
    ReplayMet(c, k, r, n + 1, None, rest, refused);
    EndsAcross(k, ReceiveReplay(c, r, rest, refused), n, n);
  }

  lemma {:induction false} ReplayMetGap(c: Config, k: Case, r: Session, n: int, a: int, ws: seq<Wire>,
                                        refused: set<int>)
    requires Sound(k) && k.begin <= a < n < k.st.nextOut && Replayable(k.st, n)
    requires Gap(k.st, n, Some(a)) && Reaches(k, r, a)
    requires ws == ReplayFrom(k.st, n, k.st.nextOut - 1, Some(a))
    ensures Ends(k, ReceiveReplay(c, r, ws, refused), a)
    decreases k.st.nextOut - n, true, 0
  {
    var w, rest := GapFill(a, n), ReplayFrom(k.st, n, k.st.nextOut - 1, None);
    ReplayClosesGap(k.st, n, k.st.nextOut - 1, Some(a));
    GapMet(c, k, r, a, n, refused);
    ReceiveOne(c, r, w, rest, refused);
    var r1 := Receive(c, r, Inbound(w, refused));
    if Together(k, a, n) {
      ReplayMet(c, k, r1, n, None, rest, refused);
      EndsAcross(k, ReceiveReplay(c, r, ws, refused), a, n);
    } else {
      LostRest(c, k, r1, n, rest, refused);
      LostEnds(k, ReceiveReplay(c, r, ws, refused), a, n);
    }
  }

  // ---- recovery composed -----------------------------------------------------------

  // What a receiver begins its recovery with.
  function CaseOf(st: Store, r: Session): Case {
    Case(st, r.pending, r.delivered, r.store.nextIn)
  }

  // The receiver waits for a number the sender has used or is about to, and whatever it
  // has queued is what the sender sent.
  ghost predicate Waiting(st: Store, r: Session) {
    && r.phase == Active && Sound(CaseOf(st, r))
    && (r.asked <==> r.pending != map[])
  }

  // An open-ended replay brings the receiver level with the sender, queue empty and
  // nothing outstanding, exactly when neighbouring numbers that cannot be replayed
  // were queued together or not at all; and then it was delivered what it was owed.
  lemma RecoveryComposes(c: Config, st: Store, r: Session, refused: set<int>)
    requires Waiting(st, r)
    ensures Ends(CaseOf(st, r), ReceiveReplay(c, r, Replay(st, r.store.nextIn, 0), refused), r.store.nextIn)
  {
    var k := CaseOf(st, r);
    assert Owed(st, k.q, k.begin, k.begin) == [];
    assert Waits(k, r, k.begin);
    ReplayMet(c, k, r, k.begin, None, Replay(st, k.begin, 0), refused);
  }

  // In particular when only application messages arrived ahead of the gap.
  lemma ApplicationQueueRecovers(c: Config, st: Store, r: Session, refused: set<int>)
    requires Waiting(st, r) && forall n :: n in r.pending ==> r.pending[n].kind.App?
    ensures var k, t := CaseOf(st, r), ReceiveReplay(c, r, Replay(st, r.store.nextIn, 0), refused);
            Recovered(k, t) && t.delivered == r.delivered + Owed(st, r.pending, r.store.nextIn, st.nextOut)
  {
    var k := CaseOf(st, r);
    assert forall n :: n in k.q ==> Echo(st, n, k.q[n]) && Replayable(st, n);
    assert Together(k, k.begin, st.nextOut);
    RecoveryComposes(c, st, r, refused);
  }

  // From one end to the other: the request the receiver raises, taken in sequence,
  // makes the sender transmit what recovers it.
  lemma ResendRecovers(cs: Config, s: Session, c: Config, r: Session, refused: set<int>)
    requires s.phase == Active && s.pending == map[] && Waiting(s.store, r)
    ensures var m := Inbound(Sent(s.store.nextIn, ResendRequested(r.store.nextIn)), {});
            var answer := Receive(cs, s, m).wire[|s.wire|..];
            Ends(CaseOf(s.store, r), ReceiveReplay(c, r, answer, refused), r.store.nextIn)
  {
    var m := Inbound(Sent(s.store.nextIn, ResendRequested(r.store.nextIn)), {});
    AnswersResend(cs, s, m);
    assert Receive(cs, s, m).wire[|s.wire|..] == Replay(s.store, r.store.nextIn, 0);
    RecoveryComposes(c, s.store, r, refused);
  }

  predicate Owes(st: Store, q: map<int, Message>, a: int, b: int, d: Delivery) {
    a <= d.seqNum < b && Owing(st, q, d.seqNum) && d.body == st.messages[d.seqNum].body
  }

  // What is owed is each application message of the range once, in order.
  lemma {:induction false} OwedExactly(st: Store, q: map<int, Message>, a: int, b: int, o: seq<Delivery>)
    requires o == Owed(st, q, a, b)
    ensures forall i :: 0 <= i < |o| ==> Owes(st, q, a, b, o[i])
    ensures forall i, j :: 0 <= i < j < |o| ==> o[i].seqNum < o[j].seqNum
    ensures forall n :: a <= n < b && Owing(st, q, n) ==> Delivery(n, st.messages[n].body) in o
    decreases b - a
  {
    if a < b {
      var o1 := Owed(st, q, a, b - 1);
      OwedExactly(st, q, a, b - 1, o1);
      if Owing(st, q, b - 1) {
        assert o == o1 + [Delivery(b - 1, st.messages[b - 1].body)] && o[|o1|] == Delivery(b - 1, st.messages[b - 1].body);
      } else {
        assert o == o1;
      }
      forall i | 0 <= i < |o| ensures Owes(st, q, a, b, o[i]) {
        if i < |o1| {
          assert o[i] == o1[i] && Owes(st, q, a, b - 1, o1[i]);
        }
      }
      forall n | a <= n < b && Owing(st, q, n) ensures Delivery(n, st.messages[n].body) in o {
        if n < b - 1 {
          assert Delivery(n, st.messages[n].body) in o1;
        }
      }
    }
  }

  // ---- a bounded replay ---------------------------------------------------------------

  // Where a bounded replay leaves a receiver with nothing queued: expecting the number
  // it reaches, but given only what was asked for.
  ghost predicate Stops(k: Case, t: Session, upper: int, reach: int) {
    && t.phase == Active && t.pending == map[] && t.store.nextIn == reach
    && t.delivered == k.base + Owed(k.st, k.q, k.begin, upper + 1)
  }

  lemma ReachedStop(k: Case, r: Session, n: int)
    requires Sound(k) && k.q == map[] && k.begin <= n && Reaches(k, r, n)
    ensures Stops(k, r, n - 1, n)
  {
    assert r.store.nextIn == n;
    assert r.pending == map[] by {
      forall x ensures x !in r.pending {
        assert x in r.pending ==> x in k.q;
      }
    }
  }

  lemma JumpToEnd(c: Config, k: Case, r: Session, a: int, upper: int, refused: set<int>)
    requires Sound(k) && k.q == map[] && k.begin <= a <= upper < k.st.nextOut && Reaches(k, r, a)
    requires forall x :: a <= x <= upper ==> !Replayable(k.st, x)
    ensures Stops(k, Receive(c, r, Inbound(GapFill(a, k.st.nextOut), refused)), upper, k.st.nextOut)
  {
    ReachedStop(k, r, a);
    NothingOwed(k, a, upper + 1);
    var m := Inbound(GapFill(a, k.st.nextOut), refused);
    DispatchReset(r, m);
    var s := SetNextIn(r, k.st.nextOut);
    DrainStops(s);
    DrainStops(Drain(s));
    assert Receive(c, r, m) == Drain(Drain(s));
  }

  lemma {:induction false} BoundedMet(c: Config, k: Case, r: Session, n: int, upper: int, gap: Option<int>,
                                      ws: seq<Wire>, refused: set<int>)
    requires Sound(k) && k.q == map[] && k.begin <= Position(n, gap) && n <= upper + 1 <= k.st.nextOut
    requires Gap(k.st, n, gap) && Reaches(k, r, Position(n, gap)) && ws == ReplayFrom(k.st, n, upper, gap)
    ensures Stops(k, ReceiveReplay(c, r, ws, refused), upper, ReachOf(k.st, Position(n, gap), upper))
    decreases upper + 1 - n, gap.Some?
  {
    if n > upper {
      if gap.Some? {
        JumpToEnd(c, k, r, gap.value, upper, refused);
        ReceiveOne(c, r, GapFill(gap.value, k.st.nextOut), [], refused);
      } else {
        ReachedStop(k, r, n);
      }
    } else if !Replayable(k.st, n) {
      BoundedMet(c, k, r, n + 1, upper, Some(Position(n, gap)), ws, refused);
    } else if gap.Some? {
      var a, rest := gap.value, ReplayFrom(k.st, n, upper, None);
      ReplayClosesGap(k.st, n, upper, gap);
      ReceiveOne(c, r, GapFill(a, n), rest, refused);
      TakeGap(c, k, r, a, n, refused);
      assert NoneQueued(k, a, n);
      BoundedMet(c, k, Receive(c, r, Inbound(GapFill(a, n), refused)), n, upper, None, rest, refused);
    } else {
      BoundedMetOne(c, k, r, n, upper, ws, refused);
    }
  }

  lemma {:induction false} BoundedMetOne(c: Config, k: Case, r: Session, n: int, upper: int, ws: seq<Wire>,
                                         refused: set<int>)
    requires Sound(k) && k.q == map[] && k.begin <= n <= upper < k.st.nextOut
    requires Replayable(k.st, n) && Reaches(k, r, n) && ws == ReplayFrom(k.st, n, upper, None)
    ensures Stops(k, ReceiveReplay(c, r, ws, refused), upper, ReachOf(k.st, n, upper))
    decreases upper + 1 - n, false, 0
  {
    var w, rest := ResendOne(k.st, n), ReplayFrom(k.st, n + 1, upper, None);
    ReplayOpens(k.st, n, upper);
    OneMet(c, k, r, n, refused);
    ReceiveOne(c, r, w, rest, refused);
    BoundedRest(c, k, Receive(c, r, Inbound(w, refused)), n, upper, rest, refused);
  }

  lemma {:induction false} BoundedRest(c: Config, k: Case, r: Session, n: int, upper: int, rest: seq<Wire>,
                                       refused: set<int>)
    requires Sound(k) && k.q == map[] && k.begin <= n <= upper < k.st.nextOut
    requires Replayable(k.st, n) && Reaches(k, r, n + 1) && rest == ReplayFrom(k.st, n + 1, upper, None)
    ensures Stops(k, ReceiveReplay(c, r, rest, refused), upper, ReachOf(k.st, n, upper))
    decreases upper - n, true, 1
  {
    BoundedMet(c, k, r, n + 1, upper, None, rest, refused);
  }

  // A replay that was asked to stop at `end` passes over application messages it was
  // not asked for unless its last number can be replayed or nothing is owed beyond it.
  lemma BoundedReplayPassesOver(c: Config, st: Store, r: Session, end: int, refused: set<int>)
    requires Waiting(st, r) && r.pending == map[] && r.store.nextIn <= ReplayUpper(st, end)
    ensures var begin, upper := r.store.nextIn, ReplayUpper(st, end);
            var t := ReceiveReplay(c, r, Replay(st, begin, end), refused);
      && Stops(CaseOf(st, r), t, upper, ReachOf(st, begin, upper))
      && ((forall n :: begin <= n < t.store.nextIn && Owing(st, map[], n) ==>
             Delivery(n, st.messages[n].body) in t.delivered[|r.delivered|..]) <==>
          Replayable(st, upper) || forall n :: upper < n < st.nextOut ==> !Owing(st, map[], n))
  {
    var k, begin, upper := CaseOf(st, r), r.store.nextIn, ReplayUpper(st, end);
    assert Owed(st, k.q, begin, begin) == [];
    assert Waits(k, r, begin);
    BoundedMet(c, k, r, begin, upper, None, Replay(st, begin, end), refused);
    var t := ReceiveReplay(c, r, Replay(st, begin, end), refused);
    var o := Owed(st, k.q, begin, upper + 1);
    assert t.delivered[|r.delivered|..] == o;
    OwedExactly(st, k.q, begin, upper + 1, o);
    forall i | 0 <= i < |o| ensures o[i].seqNum <= upper {
      assert Owes(st, k.q, begin, upper + 1, o[i]);
    }
    PassesOver(st, o, begin, upper, t.store.nextIn);
  }

  lemma PassesOver(st: Store, o: seq<Delivery>, begin: int, upper: int, reach: int)
    requires begin <= upper < st.nextOut && reach == if Replayable(st, upper) then upper + 1 else st.nextOut
    requires forall i :: 0 <= i < |o| ==> o[i].seqNum <= upper
    requires forall n :: begin <= n < upper + 1 && Owing(st, map[], n) ==> Delivery(n, st.messages[n].body) in o
    ensures (forall n :: begin <= n < reach && Owing(st, map[], n) ==> Delivery(n, st.messages[n].body) in o) <==>
            Replayable(st, upper) || forall n :: upper < n < st.nextOut ==> !Owing(st, map[], n)
  {
    forall n | upper < n < st.nextOut && Owing(st, map[], n) ensures Delivery(n, st.messages[n].body) !in o {
    }
  }
}
