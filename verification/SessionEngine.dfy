// The session and its store as the objects the program updates in place, each method
// proved to be the corresponding step of SessionRules (exchangesim/fix/session.py,
// exchangesim/fix/store.py).
module SessionEngine {
  import opened Options
  import opened SessionRules

  class MemoryStore {
    var nextOut: int
    var nextIn: int
    var messages: map<int, Stored>

    ghost function View(): Store
      reads this
    {
      Store(nextOut, nextIn, messages)
    }

    constructor ()
      ensures View() == Store(1, 1, map[])
    {
      nextOut, nextIn, messages := 1, 1, map[];
    }

    method StoreOutbound(n: int, m: Stored)
      modifies this
      ensures View() == Store(old(nextOut), old(nextIn), old(messages)[n := m])
    {
      messages := messages[n := m];
    }

    // The stored messages begin..end; an end of 0 leaves the range open.
    method GetOutbound(begin: int, end: int) returns (found: map<int, Stored>)
      ensures forall n :: n in found <==> n in messages && begin <= n && (end == 0 || n <= end)
      ensures forall n :: n in found ==> found[n] == messages[n]
    {
      found := map n | n in messages && begin <= n && (end == 0 || n <= end) :: messages[n];
    }

    method Reset()
      modifies this
      ensures View() == Store(1, 1, map[])
    {
      nextOut, nextIn, messages := 1, 1, map[];
    }
  }

  class FixSession {
    const store: MemoryStore
    const config: Config
    var phase: Phase
    var pending: map<int, Message>
    var asked: bool
    var delivered: seq<Delivery>
    var wire: seq<Wire>

    ghost function View(): Session
      reads this, store
    {
      Session(phase, pending, asked, store.View(), delivered, wire)
    }

    constructor (config: Config, store: MemoryStore)
      ensures this.store == store && this.config == config
      ensures View() == Session(Disconnected, map[], false, store.View(), [], [])
    {
      this.config, this.store := config, store;
      phase, pending, asked, delivered, wire := Disconnected, map[], false, [], [];
    }

    method Attach()
      modifies this
      ensures View() == SessionRules.Attach(old(View()))
    {
      phase, pending, asked := AwaitingLogon, map[], false;
    }

    method Disconnect()
      modifies this
      ensures View() == SessionRules.Disconnect(old(View()))
    {
      phase, pending := Disconnected, map[];
    }

    // ---- outbound -----------------------------------------------------------------

    method Transmit(w: Wire)
      modifies this
      ensures View() == SessionRules.Transmit(old(View()), [w])
    {
      if phase != Disconnected {
        wire := wire + [w];
      }
    }

    method Send(m: Outgoing)
      modifies this, store
      ensures View() == SessionRules.Send(old(View()), m)
    {
      var n := store.nextOut;
      store.StoreOutbound(n, StoredAs(m));
      store.nextOut := n + 1;
      Transmit(Sent(n, m));
    }

    method LogoutAndDisconnect()
      modifies this, store
      ensures View() == SessionRules.LogoutAndDisconnect(old(View()))
    {
      Send(LogoutNotice);
      Disconnect();
    }

    method Resend(n: int, m: Stored)
      requires n in store.messages && store.messages[n] == m
      modifies this
      ensures View() == SessionRules.Transmit(old(View()), [ResendOne(store.View(), n)])
    {
      if m.readable {
        Transmit(Resent(n, m.body));
      } else {
        Transmit(GapFill(n, n + 1));
      }
    }

    // What is still to be transmitted from number n on.
    ghost predicate Replaying(before: Session, n: int, upper: int, gap: Option<int>, all: seq<Wire>)
      reads this, store
    {
      SessionRules.Transmit(View(), ReplayFrom(store.View(), n, upper, gap)) == SessionRules.Transmit(before, all)
      && store.View() == before.store
    }

    method Replay(begin: int, end: int)
      modifies this
      ensures View() == SessionRules.Transmit(old(View()), SessionRules.Replay(old(View()).store, begin, end))
    {
      ghost var before := View();
      var upper := if end == 0 || end == OPEN_ENDED then store.nextOut - 1 else end;
      if upper >= store.nextOut {
        upper := store.nextOut - 1;
      }
      var stored := store.GetOutbound(begin, upper);
      var gap: Option<int> := None;
      var n := begin;
      ghost var all := SessionRules.Replay(before.store, begin, end);
      while n <= upper
        invariant begin <= n && (n <= upper + 1 || n == begin)
        invariant Replaying(before, n, upper, gap, all)
        decreases upper + 1 - n
      {
        if n !in stored || stored[n].admin {
          if gap.None? {
            gap := Some(n);
          }
        } else {
          ReplayNext(n, upper, gap, stored[n], before, all);
          gap := None;
        }
        n := n + 1;
      }
      if gap.Some? {
        Transmit(GapFill(gap.value, store.nextOut));
      }
    }

    // Closes an open gap and resends one message.
    method ReplayNext(n: int, upper: int, gap: Option<int>, m: Stored, ghost before: Session, ghost all: seq<Wire>)
      requires n <= upper && n in store.messages && store.messages[n] == m && !m.admin
      requires Replaying(before, n, upper, gap, all)
      modifies this
      ensures Replaying(before, n + 1, upper, None, all)
    {
      ghost var rest := ReplayFrom(store.View(), n + 1, upper, None);
      ghost var one := ResendOne(store.View(), n);
      if gap.Some? {
        Transmit(GapFill(gap.value, n));
      }
      Resend(n, m);
      assert old(wire) + [one] + rest == old(wire) + ([one] + rest);
      if gap.Some? {
        ghost var fill := GapFill(gap.value, n);
        assert old(wire) + [fill] + [one] + rest == old(wire) + ([fill] + [one] + rest);
      }
    }

    // ---- inbound ------------------------------------------------------------------

    method ResetSequence(m: Message)
      requires m.kind.SequenceReset?
      modifies this, store
      ensures View() == SessionRules.Dispatch(old(View()), m)
      decreases |pending|, 2
    {
      var to := m.kind.newSeqNo;
      if to.None? || to.value < store.nextIn {
        Send(Rejection(SeqOrZero(m)));
      } else {
        store.nextIn := to.value;
        DrainPending();
      }
    }

    method PeerLogout()
      modifies this, store
      ensures View() == if old(phase) == AwaitingLogout then SessionRules.Disconnect(old(View()))
                        else SessionRules.Disconnect(SessionRules.Send(old(View()), LogoutNotice))
    {
      if phase != AwaitingLogout {
        Send(LogoutNotice);
      }
      Disconnect();
    }

    // Routes a message that is not a SequenceReset once its number has been consumed.
    method Handle(m: Message, ghost before: Session)
      requires !m.kind.SequenceReset? && View() == SetNextIn(before, SeqOrZero(m) + 1)
      modifies this, store
      ensures View() == SessionRules.Dispatch(before, m)
    {
      match m.kind
      case App(body, refused) =>
        delivered := delivered + [Delivery(SeqOrZero(m), body)];
        if refused {
          Send(Rejection(SeqOrZero(m)));
        }
      case TestRequest => Send(HeartbeatReply);
      case ResendRequest(begin, end) => Replay(begin, end);
      case Logout => PeerLogout();
      case _ =>
    }

    method Dispatch(m: Message)
      modifies this, store
      ensures View() == SessionRules.Dispatch(old(View()), m)
      decreases |pending|, 3
    {
      if m.kind.SequenceReset? {
        ResetSequence(m);
      } else {
        ghost var before := View();
        store.nextIn := SeqOrZero(m) + 1;
        Handle(m, before);
      }
    }

    // Draining from here ends as draining from the start does.
    ghost predicate Draining(end: Session)
      reads this, store
    {
      SessionRules.Drain(View()) == end
    }

    method DrainPending()
      modifies this, store
      ensures View() == SessionRules.Drain(old(View()))
      decreases |pending|, 1
    {
      ghost var end := SessionRules.Drain(View());
      while store.nextIn in pending
        invariant |pending| <= old(|pending|) && Draining(end)
        decreases |pending|
      {
        DrainOne(end);
      }
      if pending == map[] {
        asked := false;
      }
    }

    method DrainOne(ghost end: Session)
      requires store.nextIn in pending && Draining(end)
      modifies this, store
      ensures Draining(end) && |pending| < old(|pending|)
      decreases |pending|, 0
    {
      var n := store.nextIn;
      var m := pending[n];
      FewerPending(pending, n);
      pending := pending - {n};
      Dispatch(m);
    }

    method QueueAndRequest(m: Message, expected: int, received: int, request: bool)
      modifies this, store
      ensures View() == SessionRules.QueueAndRequest(old(View()), m, expected, received, request)
    {
      pending := pending[received := m];
      if !asked {
        asked := true;
        if request {
          Send(ResendRequested(expected));
        }
      }
    }

    // Whether m may be processed now; if not, it has been dealt with.
    method CheckSequence(m: Message) returns (process: bool)
      modifies this, store
      ensures match SessionRules.CheckSequence(old(View()), m)
              case Process => process && View() == old(View())
              case Done(t) => !process && View() == t
    {
      var expected := store.nextIn;
      process := false;
      if m.seqNum.None? {
        Send(Rejection(0));
      } else if m.seqNum.value == expected {
        process := true;
      } else if m.seqNum.value > expected {
        if m.kind.SequenceReset? && !m.kind.gapFill {
          process := true;
        } else {
          QueueAndRequest(m, expected, m.seqNum.value, true);
        }
      } else if m.possDup {
      } else if m.kind.Logout? {
        Disconnect();
      } else {
        LogoutAndDisconnect();
      }
    }

    method NumberLogon(m: Message)
      modifies this, store
      ensures View() == SessionRules.NumberLogon(config, old(View()), m)
    {
      var expected := store.nextIn;
      if m.seqNum.Some? && m.seqNum.value > expected {
        QueueAndRequest(m, expected, m.seqNum.value, !config.nextExpectedSeqNum);
      } else {
        store.nextIn := SeqOrZero(m) + 1;
      }
    }

    method AcceptLogon(m: Message, reset: bool)
      requires m.kind.Logon? && (config.nextExpectedSeqNum ==> m.kind.nextExpected.Some?)
      modifies this, store
      ensures View() == SessionRules.AcceptLogon(config, old(View()), m, reset)
    {
      var expected, response := store.nextIn, store.nextOut;
      phase := Active;
      var claimed := if m.seqNum == Some(expected) then expected + 1 else expected;
      Send(LogonAck(reset, if config.nextExpectedSeqNum then Some(claimed) else None));
      NumberLogon(m);
      if config.nextExpectedSeqNum && m.kind.nextExpected.value < response {
        Replay(m.kind.nextExpected.value, response);
      }
    }

    method OnLogon(m: Message)
      requires m.kind.Logon?
      modifies this, store
      ensures View() == SessionRules.OnLogon(config, old(View()), m)
    {
      if phase == Active || (m.kind.reset && !config.allowLogonReset) {
        LogoutAndDisconnect();
        return;
      }
      var reset := m.kind.reset || config.resetOnLogon;
      if reset {
        store.Reset();
        delivered := [];
      }
      if config.nextExpectedSeqNum && (m.kind.nextExpected.None? || m.kind.nextExpected.value > store.nextOut) {
        LogoutAndDisconnect();
      } else if m.seqNum.Some? && m.seqNum.value < store.nextIn {
        LogoutAndDisconnect();
      } else {
        AcceptLogon(m, reset);
      }
    }

    method OnInvalid(m: Message)
      modifies this, store
      ensures View() == SessionRules.OnInvalid(old(View()), m)
    {
      if phase == AwaitingLogon {
        LogoutAndDisconnect();
      } else {
        if m.seqNum == Some(store.nextIn) {
          store.nextIn := store.nextIn + 1;
        }
        Send(Rejection(SeqOrZero(m)));
      }
    }

    method Receive(m: Message)
      modifies this, store
      ensures View() == SessionRules.Receive(config, old(View()), m)
    {
      if phase == Disconnected {
        return;
      }
      if !m.valid {
        OnInvalid(m);
      } else if phase == AwaitingLogon && !m.kind.Logon? {
        LogoutAndDisconnect();
      } else if m.kind.Logon? {
        OnLogon(m);
      } else {
        var process := CheckSequence(m);
        if process {
          Dispatch(m);
          DrainPending();
        }
      }
    }

    // A transport's worth of messages, up to the one that ends the session.
    method ReceiveAll(ms: seq<Message>)
      modifies this, store
      ensures View() == SessionRules.ReceiveAll(config, old(View()), ms)
    {
      ghost var end := SessionRules.ReceiveAll(config, View(), ms);
      var i := 0;
      while i < |ms|
        invariant 0 <= i <= |ms| && SessionRules.ReceiveAll(config, View(), ms[i..]) == end
      {
        Receive(ms[i]);
        assert ms[i..][1..] == ms[i + 1..];
        i := i + 1;
      }
    }
  }
}
