// Application messages are delivered exactly once, in order, and a gap is
// outstanding exactly while something waits behind it (exchangesim/fix/session.py).
module ExactlyOnce {
  import opened Options
  import opened SessionRules
  import opened SessionOrder

  predicate PlainApp(m: Message) {
    m.kind.App? && m.valid && m.seqNum.Some?
  }

  ghost predicate AllPlain(ms: seq<Message>) {
    forall i :: 0 <= i < |ms| ==> PlainApp(ms[i])
  }

  ghost predicate Arrived(ms: seq<Message>, n: int) {
    exists i :: 0 <= i < |ms| && ms[i].seqNum == Some(n)
  }

  // A message numbered below the run, or repeating a number of it, says it may be a
  // duplicate.
  ghost predicate Flagged(ms: seq<Message>, first: int) {
    forall i :: 0 <= i < |ms| && Repeats(ms, i, first) ==> ms[i].possDup
  }

  ghost predicate Repeats(ms: seq<Message>, i: nat, first: int)
    requires i < |ms|
  {
    ms[i].seqNum.Some? && (ms[i].seqNum.value < first || Arrived(ms[..i], ms[i].seqNum.value))
  }

  // d is what the messages numbered first.. in m amount to, one delivery each.
  ghost predicate Delivers(d: seq<Delivery>, first: int, m: map<int, Message>) {
    forall i :: 0 <= i < |d| ==> Carried(d[i], first + i, m)
  }

  ghost predicate Carried(d: Delivery, n: int, m: map<int, Message>) {
    n in m && m[n].kind.App? && d == Delivery(n, m[n].kind.body)
  }

  ghost predicate PendingPlain(s: Session) {
    Filed(s) && forall n :: n in s.pending ==> PlainApp(s.pending[n])
  }

  // What draining does to a queue of application messages.
  ghost predicate Drained(s: Session, t: Session) {
    var n, k := s.store.nextIn, |s.delivered|;
    && t.phase == s.phase && n <= t.store.nextIn && t.store.nextIn !in s.pending
    && (forall x :: x in t.pending <==> x in s.pending && !(n <= x < t.store.nextIn))
    && (forall x :: x in t.pending ==> t.pending[x] == s.pending[x])
    && |t.delivered| == k + (t.store.nextIn - n) && t.delivered[..k] == s.delivered
    && Delivers(t.delivered[k..], n, s.pending)
    && t.asked == (s.asked && t.pending != map[])
  }

  lemma DispatchApp(s: Session, m: Message)
    requires PlainApp(m)
    ensures var t := Dispatch(s, m);
      && t.phase == s.phase && t.pending == s.pending && t.asked == s.asked
      && t.store.nextIn == m.seqNum.value + 1
      && t.delivered == s.delivered + [Delivery(m.seqNum.value, m.kind.body)]
  {
  }

  lemma {:induction false} DrainApps(s: Session)
    requires PendingPlain(s)
    ensures Drained(s, Drain(s)) && PendingPlain(Drain(s))
    decreases |s.pending|
  {
    var n := s.store.nextIn;
    if n in s.pending {
      FewerPending(s.pending, n);
      var s1, m := s.(pending := s.pending - {n}), s.pending[n];
      DispatchApp(s1, m);
      var s2 := Dispatch(s1, m);
      DrainApps(s2);
      DrainedOn(s, s2, Drain(s2), m);
    }
  }

  lemma DrainedOn(s: Session, s2: Session, t: Session, m: Message)
    requires s.store.nextIn in s.pending && m == s.pending[s.store.nextIn] && PlainApp(m)
    requires s2.phase == s.phase && s2.pending == s.pending - {s.store.nextIn} && s2.asked == s.asked
    requires s2.store.nextIn == s.store.nextIn + 1
    requires s2.delivered == s.delivered + [Delivery(s.store.nextIn, m.kind.body)]
    requires Drained(s2, t)
    ensures Drained(s, t)
  {
    var n, k := s.store.nextIn, |s.delivered|;
    assert t.delivered[..k] == t.delivered[..k + 1][..k];
    assert t.delivered[..k + 1][k] == s2.delivered[k];
    assert t.delivered[k..] == [Delivery(n, m.kind.body)] + t.delivered[k + 1..];
    DeliversFirst(t.delivered[k + 1..], n, s.pending, m);
  }

  lemma DeliversFirst(d: seq<Delivery>, n: int, p: map<int, Message>, m: Message)
    requires n in p && p[n] == m && m.kind.App? && Delivers(d, n + 1, p - {n})
    ensures Delivers([Delivery(n, m.kind.body)] + d, n, p)
  {
    var first := [Delivery(n, m.kind.body)];
    forall i | 0 <= i < |first + d| ensures Carried((first + d)[i], n + i, p) {
      if i == 0 {
        assert (first + d)[0] == first[0] && n + 0 == n;
      } else {
        assert (first + d)[i] == d[i - 1] && (n + 1) + (i - 1) == n + i;
        assert Carried(d[i - 1], (n + 1) + (i - 1), p - {n});
      }
    }
  }

  // ---- a whole run --------------------------------------------------------------

  // After the messages ms: everything from `first` up to the number expected has
  // arrived and been delivered, once and in order; that number has not arrived; what
  // arrived beyond it is queued; and a resend is outstanding exactly while it is.
  ghost predicate Collected(s: Session, start: Session, ms: seq<Message>) {
    var first, k := start.store.nextIn, |start.delivered|;
    && s.phase == Active && PendingPlain(s)
    && first <= s.store.nextIn && !Arrived(ms, s.store.nextIn)
    && (forall x :: first <= x < s.store.nextIn ==> Arrived(ms, x))
    && (forall x :: x in s.pending <==> x > s.store.nextIn && Arrived(ms, x))
    && (forall x :: x in s.pending ==> s.pending[x] in ms)
    && |s.delivered| == k + (s.store.nextIn - first) && s.delivered[..k] == start.delivered
    && (forall i :: k <= i < |s.delivered| ==> Carries(ms, first + (i - k), s.delivered[i]))
    && (s.asked <==> s.pending != map[])
  }

  // The delivery is the contents of an arrived message, under its own number.
  ghost predicate Carries(ms: seq<Message>, n: int, d: Delivery) {
    exists i :: 0 <= i < |ms| && ms[i].seqNum == Some(n) && ms[i].kind.App? && d == Delivery(n, ms[i].kind.body)
  }

  lemma ArrivedMore(ms: seq<Message>, m: Message, n: int)
    ensures Arrived(ms + [m], n) <==> Arrived(ms, n) || m.seqNum == Some(n)
  {
    var all := ms + [m];
    assert all[|ms|] == m;
    assert forall i :: 0 <= i < |ms| ==> all[i] == ms[i];
  }

  lemma CarriesMore(ms: seq<Message>, m: Message, n: int, d: Delivery)
    requires Carries(ms, n, d) || (m.seqNum == Some(n) && m.kind.App? && d == Delivery(n, m.kind.body))
    ensures Carries(ms + [m], n, d)
  {
    var all := ms + [m];
    assert all[|ms|] == m;
    assert forall i :: 0 <= i < |ms| ==> all[i] == ms[i];
  }

  // A repeat changes nothing.
  lemma CollectRepeat(c: Config, s: Session, start: Session, ms: seq<Message>, m: Message)
    requires Collected(s, start, ms) && PlainApp(m) && m.possDup && m.seqNum.value < s.store.nextIn
    requires m.seqNum.value < start.store.nextIn || Arrived(ms, m.seqNum.value)
    ensures Collected(Receive(c, s, m), start, ms + [m])
  {
    forall n ensures Arrived(ms + [m], n) <==> Arrived(ms, n) || m.seqNum == Some(n) {
      ArrivedMore(ms, m, n);
    }
    MoreCarried(s, start, ms, m);
  }

  lemma MoreCarried(s: Session, start: Session, ms: seq<Message>, m: Message)
    requires Collected(s, start, ms)
    ensures var k := |start.delivered|;
      forall i :: k <= i < |s.delivered| ==> Carries(ms + [m], start.store.nextIn + (i - k), s.delivered[i])
  {
    var k := |start.delivered|;
    forall i | k <= i < |s.delivered| ensures Carries(ms + [m], start.store.nextIn + (i - k), s.delivered[i]) {
      CarriesMore(ms, m, start.store.nextIn + (i - k), s.delivered[i]);
    }
  }

  // A message beyond the one expected is queued, and asked for if nothing is yet.
  lemma CollectAhead(c: Config, s: Session, start: Session, ms: seq<Message>, m: Message)
    requires Collected(s, start, ms) && PlainApp(m) && m.seqNum.value > s.store.nextIn
    ensures Collected(Receive(c, s, m), start, ms + [m])
    ensures s.pending == map[] ==> |Receive(c, s, m).wire| == |s.wire| + 1
    ensures s.pending == map[] ==> Receive(c, s, m).wire[|s.wire|] == Sent(s.store.nextOut, ResendRequested(s.store.nextIn))
    ensures s.pending != map[] ==> Receive(c, s, m).wire == s.wire
  {
    var t := Receive(c, s, m);
    forall n ensures Arrived(ms + [m], n) <==> Arrived(ms, n) || m.seqNum == Some(n) {
      ArrivedMore(ms, m, n);
    }
    MoreCarried(s, start, ms, m);
    assert t.pending == s.pending[m.seqNum.value := m];
    assert m.seqNum.value in t.pending;
    assert (ms + [m])[|ms|] == m;
  }

  // Each delivery out of the queue carries a message that arrived.
  lemma DrainCarries(s: Session, ms: seq<Message>, d: seq<Delivery>, first: int)
    requires Delivers(d, first, s.pending) && PendingPlain(s) && forall x :: x in s.pending ==> s.pending[x] in ms
    ensures forall i :: 0 <= i < |d| ==> Carries(ms, first + i, d[i])
  {
    forall i | 0 <= i < |d| ensures Carries(ms, first + i, d[i]) {
      assert d[i].seqNum == first + i && first + i in s.pending;
      var m := s.pending[first + i];
      var j :| 0 <= j < |ms| && ms[j] == m;
      assert ms[j].seqNum == Some(first + i);
    }
  }

  // What is queued once the message expected has been taken and the queue drained.
  lemma NextQueue(s: Session, s1: Session, t: Session, start: Session, ms: seq<Message>, m: Message)
    requires Collected(s, start, ms) && PlainApp(m) && m.seqNum.value == s.store.nextIn
    requires s1.pending == s.pending && s1.store.nextIn == s.store.nextIn + 1 && Drained(s1, t)
    ensures forall x :: x in t.pending <==> x > t.store.nextIn && Arrived(ms + [m], x)
    ensures forall x :: x in t.pending ==> t.pending[x] in ms + [m]
  {
    forall x ensures x in t.pending <==> x > t.store.nextIn && Arrived(ms + [m], x) {
      ArrivedMore(ms, m, x);
    }
    forall x | x in t.pending ensures t.pending[x] in ms + [m] {
      assert s.pending[x] in ms;
    }
  }

  lemma NextArrived(s: Session, s1: Session, t: Session, start: Session, ms: seq<Message>, m: Message)
    requires Collected(s, start, ms) && PlainApp(m) && m.seqNum.value == s.store.nextIn
    requires s1.pending == s.pending && s1.store.nextIn == s.store.nextIn + 1 && Drained(s1, t)
    requires Delivers(t.delivered[|s1.delivered|..], s1.store.nextIn, s1.pending)
    ensures !Arrived(ms + [m], t.store.nextIn)
    ensures forall x :: start.store.nextIn <= x < t.store.nextIn ==> Arrived(ms + [m], x)
  {
    ArrivedMore(ms, m, t.store.nextIn);
    var d, n := t.delivered[|s1.delivered|..], s1.store.nextIn;
    forall x | start.store.nextIn <= x < t.store.nextIn ensures Arrived(ms + [m], x) {
      ArrivedMore(ms, m, x);
      if x >= n {
        assert d[x - n].seqNum == n + (x - n);
        assert x in s.pending;
      }
    }
  }

  // The message expected is delivered, and whatever was queued right behind it.
  lemma CollectNext(c: Config, s: Session, start: Session, ms: seq<Message>, m: Message)
    requires Collected(s, start, ms) && PlainApp(m) && m.seqNum.value == s.store.nextIn
    ensures Collected(Receive(c, s, m), start, ms + [m])
  {
    var s1 := Dispatch(s, m);
    DispatchApp(s, m);
    DrainApps(s1);
    var t := Drain(s1);
    NextQueue(s, s1, t, start, ms, m);
    NextArrived(s, s1, t, start, ms, m);
    NextCarried(s, s1, t, start, ms, m);
    NextCollected(s, s1, t, start, ms, m);
  }

  lemma NextCollected(s: Session, s1: Session, t: Session, start: Session, ms: seq<Message>, m: Message)
    requires Collected(s, start, ms) && PlainApp(m) && m.seqNum.value == s.store.nextIn
    requires s1.phase == s.phase && s1.asked == s.asked && s1.pending == s.pending
    requires s1.store.nextIn == s.store.nextIn + 1
    requires s1.delivered == s.delivered + [Delivery(s.store.nextIn, m.kind.body)]
    requires Drained(s1, t) && PendingPlain(t)
    requires !Arrived(ms + [m], t.store.nextIn)
    requires forall x :: start.store.nextIn <= x < t.store.nextIn ==> Arrived(ms + [m], x)
    requires forall x :: x in t.pending <==> x > t.store.nextIn && Arrived(ms + [m], x)
    requires forall x :: x in t.pending ==> t.pending[x] in ms + [m]
    requires var k := |start.delivered|;
      && k <= |t.delivered|
      && forall i :: k <= i < |t.delivered| ==> Carries(ms + [m], start.store.nextIn + (i - k), t.delivered[i])
    ensures Collected(t, start, ms + [m])
  {
    var k := |start.delivered|;
    assert t.delivered[..k] == t.delivered[..|s1.delivered|][..k] == s.delivered[..k];
    if s.pending == map[] {
      assert t.pending == map[] by {
        forall x ensures x !in t.pending {
          assert x in t.pending ==> x in s1.pending;
        }
      }
    }
  }

  lemma NextCarried(s: Session, s1: Session, t: Session, start: Session, ms: seq<Message>, m: Message)
    requires Collected(s, start, ms) && PlainApp(m) && m.seqNum.value == s.store.nextIn
    requires s1.pending == s.pending && s1.store.nextIn == s.store.nextIn + 1 && PendingPlain(s1)
    requires s1.delivered == s.delivered + [Delivery(s.store.nextIn, m.kind.body)] && Drained(s1, t)
    ensures var k := |start.delivered|;
      forall i :: k <= i < |t.delivered| ==> Carries(ms + [m], start.store.nextIn + (i - k), t.delivered[i])
  {
    var k, l, all := |start.delivered|, |s1.delivered|, ms + [m];
    DrainCarries(s1, ms, t.delivered[l..], s1.store.nextIn);
    MoreCarried(s, start, ms, m);
    forall i | k <= i < |t.delivered| ensures Carries(all, start.store.nextIn + (i - k), t.delivered[i]) {
      if i < l - 1 {
        assert t.delivered[i] == t.delivered[..l][i] == s.delivered[i];
      } else if i == l - 1 {
        assert t.delivered[i] == t.delivered[..l][i];
        CarriesMore(ms, m, s.store.nextIn, t.delivered[i]);
      } else {
        assert t.delivered[i] == t.delivered[l..][i - l];
        CarriesMore(ms, m, s1.store.nextIn + (i - l), t.delivered[i]);
      }
    }
  }

  lemma {:induction false} ReceiveAllLast(c: Config, s: Session, ms: seq<Message>, m: Message)
    ensures ReceiveAll(c, s, ms + [m]) == Receive(c, ReceiveAll(c, s, ms), m)
    decreases |ms|
  {
    if ms == [] {
      assert [] + [m] == [m] && [m][1..] == [];
    } else {
      assert (ms + [m])[1..] == ms[1..] + [m];
      ReceiveAllLast(c, Receive(c, s, ms[0]), ms[1..], m);
    }
  }

  // Whatever order application messages arrive in, with whatever repeats, the
  // application is given exactly the unbroken run that has arrived.
  lemma {:induction false} DeliversExactlyOnce(c: Config, start: Session, ms: seq<Message>)
    requires start.phase == Active && start.pending == map[] && !start.asked
    requires AllPlain(ms) && Flagged(ms, start.store.nextIn)
    ensures Collected(ReceiveAll(c, start, ms), start, ms)
    decreases |ms|
  {
    if ms != [] {
      var front, m := ms[..|ms| - 1], ms[|ms| - 1];
      assert ms == front + [m];
      FlaggedFront(ms, start.store.nextIn);
      DeliversExactlyOnce(c, start, front);
      ReceiveAllLast(c, start, front, m);
      var s := ReceiveAll(c, start, front);
      if m.seqNum.value == s.store.nextIn {
        CollectNext(c, s, start, front, m);
      } else if m.seqNum.value > s.store.nextIn {
        CollectAhead(c, s, start, front, m);
      } else {
        assert Repeats(ms, |ms| - 1, start.store.nextIn);
        CollectRepeat(c, s, start, front, m);
      }
    }
  }

  lemma FlaggedFront(ms: seq<Message>, first: int)
    requires ms != [] && Flagged(ms, first)
    ensures Flagged(ms[..|ms| - 1], first)
  {
    var front := ms[..|ms| - 1];
    forall i | 0 <= i < |front| && Repeats(front, i, first) ensures front[i].possDup {
      assert front[..i] == ms[..i];
      assert Repeats(ms, i, first);
    }
  }
}
