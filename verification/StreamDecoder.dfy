/**
 Incremental decoding of a byte stream by a greedy step function.  A step looks at the bytes at hand
 and either waits for more or takes a positive number of them, emitting packets.  When its decisions to
 take are stable under appending bytes, decoding does not depend on how the stream was cut into chunks.
 */
module StreamDecoder {
  import opened Bytes

  datatype Step<+P> = Wait | Take(count: nat, out: seq<P>)

  datatype Decoded<+P> = Decoded(packets: seq<P>, rest: bytes)

  type Stepper<P> = bytes -> Step<P>

  /** A step that takes, takes at least one byte and no more than there are. */
  ghost predicate Progresses<P>(step: Stepper<P>, s: bytes) {
    step(s).Take? ==> 1 <= step(s).count <= |s|
  }

  /** A decision to take is not revised when more bytes follow. */
  ghost predicate Persists<P>(step: Stepper<P>, s: bytes, t: bytes) {
    step(s).Take? ==> step(s + t) == step(s)
  }

  ghost predicate Stable<P>(step: Stepper<P>) {
    && (forall s :: Progresses(step, s))
    && (forall s, t :: Persists(step, s, t))
  }

  /** Steps are taken for as long as possible; what is left is the next buffer. */
  function Run<P>(step: Stepper<P>, s: bytes): Decoded<P>
    decreases |s|
  {
    match step(s)
    case Wait => Decoded([], s)
    case Take(n, out) =>
      if 1 <= n <= |s| then
        Prepend(out, Run(step, s[n..]))
      else
        Decoded([], s)
  }

  /** Chunks are decoded one after the other, each call getting the buffer the previous one returned. */
  function Feed<P>(step: Stepper<P>, buffer: bytes, chunks: seq<bytes>): Decoded<P>
    decreases |chunks|
  {
    if chunks == [] then Decoded([], buffer)
    else
      var d := Run(step, buffer + chunks[0]);
      Prepend(d.packets, Feed(step, d.rest, chunks[1..]))
  }

  /** Packets decoded earlier come first. */
  function Prepend<P>(packets: seq<P>, d: Decoded<P>): Decoded<P> {
    Decoded(packets + d.packets, d.rest)
  }

  /** One iteration of a decoding loop that has collected `packets` and has `s` left. */
  lemma RunTake<P>(step: Stepper<P>, packets: seq<P>, s: bytes, n: nat, out: seq<P>)
    requires step(s) == Take(n, out) && 1 <= n <= |s|
    ensures Prepend(packets, Run(step, s)) == Prepend(packets + out, Run(step, s[n..]))
  {
    Reassociate(packets, out, Run(step, s[n..]).packets);
  }

  lemma RunSkip<P>(step: Stepper<P>, s: bytes)
    requires step(s) == Take(1, []) && s != []
    ensures Run(step, s) == Run(step, s[1..])
  {
    assert [] + Run(step, s[1..]).packets == Run(step, s[1..]).packets;
  }

  lemma RunWait<P>(step: Stepper<P>, packets: seq<P>, s: bytes)
    requires step(s).Wait?
    ensures Prepend(packets, Run(step, s)) == Decoded(packets, s)
  {
    assert packets + [] == packets;
  }

  // ----- what is left over -----

  /** Nothing more can be taken from what is left. */
  lemma {:induction false} RestWaits<P>(step: Stepper<P>, s: bytes)
    requires forall t :: Progresses(step, t)
    ensures step(Run(step, s).rest).Wait?
    decreases |s|
  {
    assert Progresses(step, s);
    if step(s).Take? {
      RestWaits(step, s[step(s).count..]);
    }
  }

  /** Decoding what is left, with no new data, changes nothing. */
  lemma RestIsFixed<P>(step: Stepper<P>, s: bytes)
    requires forall t :: Progresses(step, t)
    ensures Run(step, Run(step, s).rest) == Decoded([], Run(step, s).rest)
  {
    RestWaits(step, s);
  }

  /** What is left is a suffix of the input. */
  lemma {:induction false} RestIsSuffix<P>(step: Stepper<P>, s: bytes)
    ensures |Run(step, s).rest| <= |s|
    ensures Run(step, s).rest == s[|s| - |Run(step, s).rest|..]
    decreases |s|
  {
    if step(s).Take? && 1 <= step(s).count <= |s| {
      RestIsSuffix(step, s[step(s).count..]);
    }
  }

  // ----- independence of chunking -----

  /** Decoding a prefix first and then the rest of the stream is decoding the stream. */
  lemma {:induction false} RunAppend<P>(step: Stepper<P>, s: bytes, t: bytes)
    requires Stable(step)
    ensures var d := Run(step, s);
            var e := Run(step, d.rest + t);
            Run(step, s + t) == Prepend(d.packets, e)
    decreases |s|
  {
    assert Progresses(step, s) && Persists(step, s, t);
    match step(s)
    case Wait =>
    case Take(n, out) =>
      assert (s + t)[n..] == s[n..] + t;
      RunAppend(step, s[n..], t);
      var d := Run(step, s[n..]);
      var e := Run(step, d.rest + t);
      assert out + (d.packets + e.packets) == (out + d.packets) + e.packets;
  }

  /** However a stream is cut into chunks, decoding gives what one call on the whole stream gives. */
  lemma {:induction false} ChunkInvariance<P>(step: Stepper<P>, buffer: bytes, chunks: seq<bytes>)
    requires Stable(step)
    requires chunks != [] || step(buffer).Wait?
    ensures Feed(step, buffer, chunks) == Run(step, buffer + Concat(chunks))
    decreases |chunks|
  {
    if chunks == [] {
      assert buffer + Concat(chunks) == buffer;
    } else {
      var d := Run(step, buffer + chunks[0]);
      RestWaits(step, buffer + chunks[0]);
      ChunkInvariance(step, d.rest, chunks[1..]);
      RunAppend(step, buffer + chunks[0], Concat(chunks[1..]));
      assert buffer + Concat(chunks) == (buffer + chunks[0]) + Concat(chunks[1..]);
    }
  }

  // ----- streams of known frames -----

  /** Bytes that are taken one at a time without emitting anything, whatever of them remains. */
  ghost predicate Skipped<P>(step: Stepper<P>, garbage: bytes, t: bytes) {
    forall i {:trigger garbage[i..]} :: 0 <= i < |garbage| ==> step(garbage[i..] + t) == Take(1, [])
  }

  lemma {:induction false} RunSkipped<P>(step: Stepper<P>, garbage: bytes, t: bytes)
    requires Skipped(step, garbage, t)
    ensures Run(step, garbage + t) == Run(step, t)
    decreases |garbage|
  {
    if garbage == [] {
      assert garbage + t == t;
    } else {
      var g := garbage[1..];
      assert garbage[0..] == garbage;
      assert (garbage + t)[1..] == g + t;
      forall i | 0 <= i < |g|
        ensures step(g[i..] + t) == Take(1, [])
      {
        assert g[i..] == garbage[i + 1..];
      }
      RunSkipped(step, g, t);
    }
  }

  /** A frame that is taken whole contributes what it emits, whatever follows it. */
  lemma RunFrame<P>(step: Stepper<P>, frame: bytes, out: seq<P>, t: bytes)
    requires Stable(step) && step(frame) == Take(|frame|, out)
    ensures Run(step, frame + t) == Prepend(out, Run(step, t))
  {
    assert Progresses(step, frame) && Persists(step, frame, t);
    assert (frame + t)[|frame|..] == t;
  }

  /** One stretch of a stream: garbage, a frame, and what the frame emits. */
  datatype Slot<+P> = Slot(garbage: bytes, frame: bytes, out: seq<P>)

  lemma RunSlot<P>(step: Stepper<P>, s: Slot<P>, t: bytes)
    requires Stable(step) && step(s.frame) == Take(|s.frame|, s.out)
    requires Skipped(step, s.garbage, s.frame + t)
    ensures Run(step, (s.garbage + s.frame) + t) == Prepend(s.out, Run(step, t))
  {
    assert (s.garbage + s.frame) + t == s.garbage + (s.frame + t);
    RunSkipped(step, s.garbage, s.frame + t);
    RunFrame(step, s.frame, s.out, t);
  }

  lemma Reassociate<T>(a: seq<T>, b: seq<T>, c: seq<T>)
    ensures (a + b) + c == a + (b + c)
  {
  }
}
