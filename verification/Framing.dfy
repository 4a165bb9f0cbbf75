// Reading frames off a byte stream: what the three stream readers share
// (exchangesim/fix/message.py, exchangesim/binary/message.py, exchangesim/nnf/packet.py).
module Framing {
  type Byte = b: int | 0 <= b < 256
  type Data = seq<Byte>

  // What splitting one message off the front of a buffer comes to.
  datatype Split = Incomplete | Malformed | Frame(raw: Data, rest: Data)

  type Splitter = Data -> Split

  ghost predicate Shrinks(e: Splitter) {
    forall b :: e(b).Frame? ==> |e(b).rest| < |b|
  }

  // What one call to feed leaves: when it is `broken` an exception is raised, and the
  // frames already taken off in that call are lost with it.
  datatype Fed = Fed(frames: seq<Data>, buffer: Data, broken: bool)

  ghost function Feed(e: Splitter, buffer: Data): Fed
    requires Shrinks(e)
    decreases |buffer|
  {
    if buffer == [] then Fed([], [], false)
    else
      match e(buffer)
      case Incomplete => Fed([], buffer, false)
      case Malformed => Fed([], buffer, true)
      case Frame(raw, rest) => var f := Feed(e, rest); f.(frames := [raw] + f.frames)
  }

  // Feeding chunk after chunk, up to one that raises.
  ghost function FeedAll(e: Splitter, buffer: Data, chunks: seq<Data>): Fed
    requires Shrinks(e)
    decreases |chunks|
  {
    if chunks == [] then Fed([], buffer, false)
    else
      var f := Feed(e, buffer + chunks[0]);
      if f.broken then Fed([], f.buffer, true)
      else
        var g := FeedAll(e, f.buffer, chunks[1..]);
        g.(frames := f.frames + g.frames)
  }

  function Concat(parts: seq<Data>): Data {
    if parts == [] then [] else parts[0] + Concat(parts[1..])
  }

  // The reader itself.
  class Framer {
    const extract: Splitter
    var buffer: Data

    constructor (extract: Splitter)
      ensures this.extract == extract && buffer == []
    {
      this.extract, buffer := extract, [];
    }

    method Take(chunk: Data) returns (frames: seq<Data>, broken: bool)
      requires Shrinks(extract)
      modifies this
      ensures Fed(frames, buffer, broken) == Feed(extract, old(buffer) + chunk)
    {
      buffer := buffer + chunk;
      frames, broken := [], false;
      ghost var whole := Feed(extract, buffer);
      while buffer != []
        invariant whole == Fed(frames + Feed(extract, buffer).frames, Feed(extract, buffer).buffer, Feed(extract, buffer).broken)
        decreases |buffer|
      {
        var split := extract(buffer);
        match split
        case Incomplete => break;
        case Malformed =>
          broken := true;
          return;
        case Frame(raw, rest) =>
          assert frames + ([raw] + Feed(extract, rest).frames) == frames + [raw] + Feed(extract, rest).frames;
          buffer := rest;
          frames := frames + [raw];
      }
    }
  }

  // ---- a splitter that looks at nothing beyond its frame -----------------------------

  // More bytes change neither a frame found nor a framing error.
  ghost predicate Stable(e: Splitter) {
    && Shrinks(e)
    && (forall b, x :: e(b).Frame? ==> e(b + x) == Frame(e(b).raw, e(b).rest + x))
    && (forall b, x :: e(b).Malformed? ==> e(b + x).Malformed?)
  }

  lemma {:induction false} FeedMore(e: Splitter, b: Data, x: Data)
    requires Stable(e)
    ensures var f := Feed(e, b);
      if f.broken then Feed(e, b + x).broken && f.frames == Feed(e, b + x).frames
      else Feed(e, b + x) == Fed(f.frames + Feed(e, f.buffer + x).frames, Feed(e, f.buffer + x).buffer, Feed(e, f.buffer + x).broken)
    decreases |b|
  {
    if b == [] {
      assert b + x == x && [] + x == x;
    } else if e(b).Frame? {
      FeedMore(e, e(b).rest, x);
      assert e(b + x) == Frame(e(b).raw, e(b).rest + x);
      assert Feed(e, b + x).frames == [e(b).raw] + Feed(e, e(b).rest + x).frames;
      var f := Feed(e, e(b).rest);
      if !f.broken {
        assert [e(b).raw] + (f.frames + Feed(e, f.buffer + x).frames) == ([e(b).raw] + f.frames) + Feed(e, f.buffer + x).frames;
      }
    } else if e(b).Malformed? {
      assert e(b + x).Malformed?;
    }
  }

  // Whatever arrives, and however it is cut up: the stream is found malformed exactly
  // when it would be whole; if it is not, the same frames come out in the same order
  // and the same tail stays; if it is, what came out first is a prefix of those frames.
  lemma {:induction false} ChunksDoNotMatter(e: Splitter, buffer: Data, chunks: seq<Data>)
    requires Stable(e) && Feed(e, buffer) == Fed([], buffer, false)
    ensures var f, w := FeedAll(e, buffer, chunks), Feed(e, buffer + Concat(chunks));
      && f.broken == w.broken
      && (!w.broken ==> f == w)
      && (w.broken ==> f.frames <= w.frames)
    decreases |chunks|
  {
    if chunks == [] {
      assert buffer + Concat(chunks) == buffer;
    } else {
      var b, x := buffer + chunks[0], Concat(chunks[1..]);
      assert buffer + Concat(chunks) == b + x;
      var f := Feed(e, b);
      FeedMore(e, b, x);
      if !f.broken {
        SettledBuffer(e, b);
        ChunksDoNotMatter(e, f.buffer, chunks[1..]);
      }
    }
  }

  // In any chunks the stream is refused exactly when it is refused whole; otherwise the
  // same frames come out and the same tail stays.
  ghost predicate SameAsWhole(e: Splitter, chunks: seq<Data>)
    requires Shrinks(e)
  {
    var f, w := FeedAll(e, [], chunks), Feed(e, Concat(chunks));
    f.broken == w.broken && (!w.broken ==> f == w) && f.frames <= w.frames
  }

  lemma AnyChunks(e: Splitter, chunks: seq<Data>)
    requires Stable(e)
    ensures SameAsWhole(e, chunks)
  {
    ChunksDoNotMatter(e, [], chunks);
    assert [] + Concat(chunks) == Concat(chunks);
  }

  // What one call leaves buffered holds no frame.
  lemma {:induction false} SettledBuffer(e: Splitter, b: Data)
    requires Shrinks(e) && !Feed(e, b).broken
    ensures var f := Feed(e, b); Feed(e, f.buffer) == Fed([], f.buffer, false)
    decreases |b|
  {
    if b != [] && e(b).Frame? {
      SettledBuffer(e, e(b).rest);
    }
  }

  // ---- a stream of well-formed frames -------------------------------------------------

  // f is split off whole whatever follows, and waited for until it is all there.
  ghost predicate Framed(e: Splitter, f: Data) {
    && f != []
    && (forall x :: e(f + x) == Frame(f, x))
    && (forall n :: 0 < n < |f| ==> e(f[..n]).Incomplete?)
  }

  ghost predicate AllFramed(e: Splitter, fs: seq<Data>) {
    forall i :: 0 <= i < |fs| ==> Framed(e, fs[i])
  }

  // A beginning of a frame, or nothing.
  ghost predicate Tail(e: Splitter, t: Data) {
    t == [] || e(t).Incomplete?
  }

  lemma NothingFollows(e: Splitter, b: Data, x: Data)
    requires Stable(e) && e(b).Frame? && e(b).raw + e(b).rest == b
    requires e(b + x) == Frame(b + x, [])
    ensures x == []
  {
    assert e(b + x) == Frame(e(b).raw, e(b).rest + x);
    assert |e(b).raw + e(b).rest| == |b|;
  }

  // For a stable splitter that gives back every byte, a frame it takes off whole is
  // one it waits for.
  lemma StableFrames(e: Splitter, f: Data)
    requires Stable(e) && (forall b :: e(b).Frame? ==> e(b).raw + e(b).rest == b)
    requires f != [] && e(f) == Frame(f, [])
    ensures Framed(e, f)
  {
    forall x ensures e(f + x) == Frame(f, x) {
      assert [] + x == x;
    }
    forall n | 0 < n < |f| ensures e(f[..n]).Incomplete? {
      var b, x := f[..n], f[n..];
      assert b + x == f;
      if e(b).Frame? {
        NothingFollows(e, b, x);
      }
    }
  }

  // Whole frames come off one by one, whatever follows them.
  lemma {:induction false} FeedPast(e: Splitter, fs: seq<Data>, x: Data)
    requires Shrinks(e) && AllFramed(e, fs)
    ensures var f := Feed(e, x); Feed(e, Concat(fs) + x) == f.(frames := fs + f.frames)
    decreases |fs|
  {
    if fs == [] {
      assert Concat(fs) + x == x;
      assert fs + Feed(e, x).frames == Feed(e, x).frames;
    } else {
      Associates(fs[0], Concat(fs[1..]), x);
      assert Framed(e, fs[0]);
      FeedPast(e, fs[1..], x);
      OneMoreFrame(fs, Feed(e, x).frames);
    }
  }

  lemma OneMoreFrame(fs: seq<Data>, more: seq<Data>)
    requires fs != []
    ensures [fs[0]] + (fs[1..] + more) == fs + more
  {
  }

  // The first n bytes of a stream of frames are so many whole frames and the beginning
  // of the next.
  lemma {:induction false} Cut(e: Splitter, fs: seq<Data>, n: nat) returns (k: nat, t: Data)
    requires AllFramed(e, fs) && n < |Concat(fs)|
    ensures k < |fs| && Tail(e, t) && Concat(fs)[..n] == Concat(fs[..k]) + t
    ensures t + Concat(fs)[n..] == Concat(fs[k..])
    decreases |fs|
  {
    var f, later := fs[0], fs[1..];
    assert Framed(e, f);
    if n < |f| {
      k, t := 0, f[..n];
      assert fs[..0] == [] && fs[0..] == fs;
      assert f[..n] + (f + Concat(later))[n..] == f + Concat(later);
    } else {
      var k1, t1 := Cut(e, later, n - |f|);
      k, t := k1 + 1, t1;
      CutSkips(fs, n, k1, t1);
    }
  }

  lemma CutSkips(fs: seq<Data>, n: nat, k: nat, t: Data)
    requires fs != [] && k < |fs| - 1 && |fs[0]| <= n < |Concat(fs)|
    requires Concat(fs[1..])[..n - |fs[0]|] == Concat(fs[1..][..k]) + t
    requires t + Concat(fs[1..])[n - |fs[0]|..] == Concat(fs[1..][k..])
    ensures Concat(fs)[..n] == Concat(fs[..k + 1]) + t
    ensures t + Concat(fs)[n..] == Concat(fs[k + 1..])
  {
    ConcatTake(fs, k);
    CutPast(fs[0], Concat(fs[1..]), n);
    Associates(fs[0], Concat(fs[1..][..k]), t);
  }

  lemma ConcatTake(fs: seq<Data>, k: nat)
    requires fs != [] && k < |fs|
    ensures Concat(fs[..k + 1]) == fs[0] + Concat(fs[1..][..k]) && fs[1..][k..] == fs[k + 1..]
  {
    assert fs[..k + 1][0] == fs[0] && fs[..k + 1][1..] == fs[1..][..k];
  }

  lemma CutPast(f: Data, rest: Data, n: nat)
    requires |f| <= n <= |f + rest|
    ensures (f + rest)[..n] == f + rest[..n - |f|] && (f + rest)[n..] == rest[n - |f|..]
  {
  }

  lemma Associates(a: Data, b: Data, c: Data)
    ensures (a + b) + c == a + (b + c)
  {
  }

  lemma FeedTail(e: Splitter, whole: seq<Data>, t: Data)
    requires Shrinks(e) && AllFramed(e, whole) && Tail(e, t)
    ensures Feed(e, Concat(whole) + t) == Fed(whole, t, false)
  {
    FeedPast(e, whole, t);
    assert Feed(e, t) == Fed([], t, false);
    assert whole + [] == whole;
  }

  // Fed any beginning of a stream of frames, however it is cut up, the reader is where
  // it would be had it arrived at once.
  lemma {:induction false} FrameChunks(e: Splitter, fs: seq<Data>, buffer: Data, chunks: seq<Data>)
    requires Shrinks(e) && AllFramed(e, fs) && Tail(e, buffer)
    requires buffer + Concat(chunks) < Concat(fs)
    ensures FeedAll(e, buffer, chunks) == Feed(e, buffer + Concat(chunks))
    decreases |chunks|
  {
    if chunks == [] {
      assert buffer + Concat(chunks) == buffer;
    } else {
      var d, x := buffer + chunks[0], Concat(chunks[1..]);
      assert buffer + Concat(chunks) == d + x;
      var k, t := Cut(e, fs, |d|);
      assert Concat(fs)[..|d|] == d;
      FeedTail(e, fs[..k], t);
      Associates(Concat(fs[..k]), t, x);
      FeedPast(e, fs[..k], t + x);
      StartsNext(Concat(fs), d, x, t, Concat(fs[k..]));
      FrameChunks(e, fs[k..], t, chunks[1..]);
    }
  }

  lemma StartsNext(all: Data, d: Data, x: Data, t: Data, next: Data)
    requires d + x < all && t + all[|d|..] == next
    ensures t + x < next
  {
    assert all[|d|..][..|x|] == x;
    assert (t + all[|d|..])[..|t| + |x|] == t + x;
  }

  // A stream of well-formed frames, then the beginning of one more, in any chunks:
  // exactly those frames come out, in order, nothing is raised, and the beginning stays.
  lemma FramesComeOut(e: Splitter, fs: seq<Data>, g: Data, n: nat, chunks: seq<Data>)
    requires Shrinks(e) && AllFramed(e, fs) && Framed(e, g) && n < |g|
    requires Concat(chunks) == Concat(fs) + g[..n]
    ensures FeedAll(e, [], chunks) == Fed(fs, g[..n], false)
  {
    var all, t := fs + [g], g[..n];
    ConcatSnoc(fs, g);
    assert (Concat(fs) + g)[..|Concat(fs)| + n] == Concat(fs) + t;
    assert [] + Concat(chunks) == Concat(chunks);
    FrameChunks(e, all, [], chunks);
    FeedPast(e, fs, t);
    assert fs + [] == fs;
  }

  lemma {:induction false} ConcatSnoc(fs: seq<Data>, g: Data)
    ensures Concat(fs + [g]) == Concat(fs) + g
    decreases |fs|
  {
    if fs == [] {
      assert [g][1..] == [] && fs + [g] == [g];
      assert g + [] == g && [] + g == g;
    } else {
      assert (fs + [g])[1..] == fs[1..] + [g];
      ConcatSnoc(fs[1..], g);
      assert fs[0] + (Concat(fs[1..]) + g) == (fs[0] + Concat(fs[1..])) + g;
    }
  }
}
