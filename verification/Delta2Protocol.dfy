/** The Delta 2 frame format AA, kind, length, payload, and its incremental decoder. */
module Delta2Protocol {
  import opened Bytes
  import opened Lengths
  import opened StreamDecoder
  import opened Wrappers

  const PACKET_PREFIX: byte := 0xAA
  const KIND_STATUS: byte := 0x01

  datatype Packet = Packet(kind: byte, payload: bytes)

  /** Frames carry a one-byte length, so longer payloads are refused; the kind is reduced to one byte. */
  function EncodePacket(kind: int, payload: bytes): Option<bytes> {
    if |payload| > 255 then None
    else Some([PACKET_PREFIX, LowOctet(kind), LowOctet(|payload|)] + payload)
  }

  predicate Encodable(p: Packet) {
    |p.payload| <= 255
  }

  function Frame(p: Packet): (f: bytes)
    requires Encodable(p)
    ensures |f| == 3 + |p.payload|
  {
    EncodePacket(p.kind as int, p.payload).value
  }

  /** The length of a frame, as its third byte announces it. */
  function FrameLength(s: bytes): (n: nat)
    requires |s| >= 3
    ensures 3 <= n <= 258
  {
    3 + s[2] as int
  }

  /** One decision of the decoding loop. */
  function DecodeStep(s: bytes): Step<Packet> {
    if |s| < 3 then Wait
    else if s[0] != PACKET_PREFIX then Take(1, [])
    else
      var total := FrameLength(s);
      if |s| < total then Wait else Take(total, [Packet(s[1], s[3..total])])
  }

  method DecodePackets(data: bytes, buffer: bytes) returns (packets: seq<Packet>, rest: bytes)
    ensures Decoded(packets, rest) == Run(DecodeStep, buffer + data)
  {
    var buf := buffer + data;
    packets := [];
    ghost var whole := Run(DecodeStep, buf);
    while |buf| >= 3
      invariant whole == Prepend(packets, Run(DecodeStep, buf))
      decreases |buf|
    {
      if buf[0] != PACKET_PREFIX {
        RunSkip(DecodeStep, buf);
        buf := buf[1..];
        continue;
      }
      var kind := buf[1];
      var total := FrameLength(buf);
      if |buf| < total {
        break;
      }
      var packet := Packet(kind, buf[3..total]);
      RunTake(DecodeStep, packets, buf, total, [packet]);
      packets := packets + [packet];
      buf := buf[total..];
    }
    rest := buf;
    RunWait(DecodeStep, packets, buf);
  }

  // ----- the step is a stable greedy step -----

  lemma StepIsStable()
    ensures Stable(DecodeStep)
  {
    forall s, t ensures Persists(DecodeStep, s, t) {
      StepPersists(s, t);
    }
  }

  lemma StepPersists(s: bytes, t: bytes)
    ensures Persists(DecodeStep, s, t)
  {
    if DecodeStep(s).Take? && s[0] == PACKET_PREFIX {
      var total := FrameLength(s);
      assert FrameLength(s + t) == total;
      assert (s + t)[3..total] == s[3..total];
    }
  }

  /** However the stream is cut into chunks, the packets and the final buffer are the same. */
  lemma ChunkInvariant(buffer: bytes, chunks: seq<bytes>)
    requires chunks != []
    ensures Feed(DecodeStep, buffer, chunks) == Run(DecodeStep, buffer + Concat(chunks))
  {
    StepIsStable();
    ChunkInvariance(DecodeStep, buffer, chunks);
  }

  /** The buffer never grows beyond one byte less than the largest frame. */
  lemma RestIsBounded(s: bytes)
    ensures |Run(DecodeStep, s).rest| <= 257
    ensures DecodeStep(Run(DecodeStep, s).rest).Wait?
  {
    StepIsStable();
    RestWaits(DecodeStep, s);
  }

  /** The bound is reached. */
  lemma RestBoundIsReached()
    ensures var s := [PACKET_PREFIX, 0, 255] + Zeros(254);
            |s| == 257 && Run(DecodeStep, s) == Decoded([], s)
  {
  }

  // ----- frames -----

  lemma FrameIsTaken(p: Packet)
    requires Encodable(p)
    ensures DecodeStep(Frame(p)) == Take(|Frame(p)|, [p])
  {
    var f := Frame(p);
    LowOctetOfOctet(p.kind);
    OctetValue(|p.payload|);
    assert f[3..3 + |p.payload|] == p.payload;
  }

  /** Whatever is taken as a packet is exactly that packet's frame. */
  lemma TakenIsFrame(s: bytes)
    requires DecodeStep(s).Take? && s[0] == PACKET_PREFIX
    ensures var p := DecodeStep(s).out[0];
            Encodable(p) && DecodeStep(s) == Take(|Frame(p)|, [p]) && Frame(p) == s[..|Frame(p)|]
  {
    var n := FrameLength(s);
    var payload := s[3..n];
    FrameOf(s[1], s[2], payload);
    SplitFrame(s, n);
  }

  lemma SplitFrame(s: bytes, n: nat)
    requires 3 <= n <= |s|
    ensures s[..n] == [s[0], s[1], s[2]] + s[3..n]
  {
  }

  lemma FrameOf(kind: byte, length: byte, payload: bytes)
    requires |payload| == length as int
    ensures Encodable(Packet(kind, payload))
    ensures Frame(Packet(kind, payload)) == [PACKET_PREFIX, kind, length] + payload
  {
    LowOctetOfOctet(kind);
    LowOctetOfOctet(length);
  }

  // ----- unique decomposition -----

  /** A gap of bytes other than the prefix, then a packet's frame. */
  datatype Piece = Piece(gap: bytes, packet: Packet)

  predicate WellFormed(pieces: seq<Piece>) {
    forall i :: 0 <= i < |pieces| ==> PACKET_PREFIX !in pieces[i].gap && Encodable(pieces[i].packet)
  }

  function Spell(pieces: seq<Piece>): bytes
    requires WellFormed(pieces)
  {
    if pieces == [] then [] else pieces[0].gap + Frame(pieces[0].packet) + Spell(pieces[1..])
  }

  function Packets(pieces: seq<Piece>): seq<Packet> {
    if pieces == [] then [] else [pieces[0].packet] + Packets(pieces[1..])
  }

  /** Too short to judge, or a frame that is not complete. */
  predicate Incomplete(r: bytes) {
    |r| < 3 || (r[0] == PACKET_PREFIX && |r| < FrameLength(r))
  }

  /** s reads as gaps alternating with frames, then a gap, then a remainder. */
  ghost predicate Decomposes(s: bytes, pieces: seq<Piece>, gap: bytes, rest: bytes) {
    && WellFormed(pieces)
    && s == Spell(pieces) + (gap + rest)
    && PACKET_PREFIX !in gap
    && Incomplete(rest)
  }

  /** The last gap is dropped only while three bytes are at hand. */
  ghost predicate LeavesTwo(gap: bytes, rest: bytes) {
    gap != [] ==> |rest| >= 2
  }

  lemma {:induction false} LastGapDropped(gap: bytes, rest: bytes)
    requires PACKET_PREFIX !in gap && Incomplete(rest)
    ensures Run(DecodeStep, gap + rest).packets == []
    ensures LeavesTwo(gap, rest) ==> Run(DecodeStep, gap + rest).rest == rest
    decreases |gap|
  {
    if gap == [] {
      assert gap + rest == rest;
    } else if |gap + rest| >= 3 {
      assert (gap + rest)[1..] == gap[1..] + rest;
      LastGapDropped(gap[1..], rest);
    }
  }

  lemma GapSkipped(gap: bytes, p: Packet, t: bytes)
    requires PACKET_PREFIX !in gap && Encodable(p)
    ensures Skipped(DecodeStep, gap, Frame(p) + t)
  {
    forall i | 0 <= i < |gap|
      ensures DecodeStep(gap[i..] + (Frame(p) + t)) == Take(1, [])
    {
      assert (gap[i..] + (Frame(p) + t))[0] == gap[i];
    }
  }

  lemma {:induction false} RunPieces(pieces: seq<Piece>, tail: bytes)
    requires WellFormed(pieces)
    ensures Run(DecodeStep, Spell(pieces) + tail)
         == Prepend(Packets(pieces), Run(DecodeStep, tail))
    decreases |pieces|
  {
    if pieces == [] {
      assert Spell(pieces) + tail == tail;
    } else {
      var Piece(gap, p) := pieces[0];
      var rest, d := pieces[1..], Run(DecodeStep, tail);
      var t := Spell(rest) + tail;
      RunPieces(rest, tail);
      StepIsStable();
      FrameIsTaken(p);
      GapSkipped(gap, p, t);
      RunSlot(DecodeStep, Slot(gap, Frame(p), [p]), t);
      Reassociate(gap + Frame(p), Spell(rest), tail);
      Reassociate([p], Packets(rest), d.packets);
    }
  }

  /** No other packet list admits a decomposition. */
  lemma DecompositionDecidesPackets(s: bytes, pieces: seq<Piece>, gap: bytes, rest: bytes)
    requires Decomposes(s, pieces, gap, rest)
    ensures Run(DecodeStep, s).packets == Packets(pieces)
    ensures LeavesTwo(gap, rest) ==> Run(DecodeStep, s).rest == rest
  {
    RunPieces(pieces, gap + rest);
    LastGapDropped(gap, rest);
  }

  /** The decoder finds a decomposition. */
  lemma {:induction false} Decompose(s: bytes) returns (pieces: seq<Piece>, gap: bytes, rest: bytes)
    ensures Decomposes(s, pieces, gap, rest) && LeavesTwo(gap, rest)
    ensures Run(DecodeStep, s) == Decoded(Packets(pieces), rest)
    decreases |s|
  {
    if DecodeStep(s).Wait? {
      pieces, gap, rest := [], [], s;
      assert s == Spell(pieces) + (gap + rest);
    } else if s[0] != PACKET_PREFIX {
      pieces, gap, rest := Decompose(s[1..]);
      pieces, gap := PrependByte(s, pieces, gap, rest);
    } else {
      TakenIsFrame(s);
      var p := DecodeStep(s).out[0];
      var n := |Frame(p)|;
      pieces, gap, rest := Decompose(s[n..]);
      PrependPacket(s, p, pieces, gap, rest);
      pieces := [Piece([], p)] + pieces;
    }
  }

  lemma PrependByte(s: bytes, pieces: seq<Piece>, gap: bytes, rest: bytes)
    returns (pieces': seq<Piece>, gap': bytes)
    requires |s| >= 3 && s[0] != PACKET_PREFIX
    requires Decomposes(s[1..], pieces, gap, rest) && LeavesTwo(gap, rest)
    ensures Decomposes(s, pieces', gap', rest) && LeavesTwo(gap', rest)
    ensures Packets(pieces') == Packets(pieces)
  {
    if pieces == [] {
      pieces', gap' := [], [s[0]] + gap;
      assert s[1..] == gap + rest;
      assert s == Spell(pieces') + (gap' + rest);
    } else {
      var Piece(g, p) := pieces[0];
      pieces', gap' := [Piece([s[0]] + g, p)] + pieces[1..], gap;
      GrowGap(s[0], pieces);
      assert s == [s[0]] + s[1..];
      Reassociate([s[0]], Spell(pieces), gap + rest);
    }
  }

  lemma GrowGap(b: byte, pieces: seq<Piece>)
    requires WellFormed(pieces) && pieces != [] && b != PACKET_PREFIX
    ensures var grown := [Piece([b] + pieces[0].gap, pieces[0].packet)] + pieces[1..];
      && WellFormed(grown) && Spell(grown) == [b] + Spell(pieces) && Packets(grown) == Packets(pieces)
  {
    var Piece(g, p) := pieces[0];
    var tail := pieces[1..];
    var grown := [Piece([b] + g, p)] + tail;
    assert grown[1..] == tail;
    assert forall x :: x in [b] + g <==> x == b || x in g;
    Reassociate([b], g, Frame(p));
    Reassociate([b], g + Frame(p), Spell(tail));
  }

  lemma PrependPacket(s: bytes, p: Packet, pieces: seq<Piece>, gap: bytes, rest: bytes)
    requires Encodable(p) && |Frame(p)| <= |s| && s[..|Frame(p)|] == Frame(p)
    requires Decomposes(s[|Frame(p)|..], pieces, gap, rest)
    ensures Decomposes(s, [Piece([], p)] + pieces, gap, rest)
    ensures Packets([Piece([], p)] + pieces) == [p] + Packets(pieces)
  {
    var pieces' := [Piece([], p)] + pieces;
    assert pieces'[1..] == pieces;
    assert [] + Frame(p) == Frame(p);
    assert s == Frame(p) + s[|Frame(p)|..];
    assert Spell(pieces') == Frame(p) + Spell(pieces);
    Reassociate(Frame(p), Spell(pieces), gap + rest);
  }

  /** Decoding is the unique decomposition into gaps, frames and a remainder. */
  lemma DecodingIsDecomposition(s: bytes, packets: seq<Packet>, rest: bytes)
    ensures Run(DecodeStep, s) == Decoded(packets, rest) <==>
            exists pieces: seq<Piece>, gap: bytes ::
              Decomposes(s, pieces, gap, rest) && LeavesTwo(gap, rest) && Packets(pieces) == packets
  {
    if Run(DecodeStep, s) == Decoded(packets, rest) {
      var pieces, gap, r := Decompose(s);
      assert Decomposes(s, pieces, gap, rest) && LeavesTwo(gap, rest) && Packets(pieces) == packets;
    }
    forall pieces: seq<Piece>, gap: bytes
      | Decomposes(s, pieces, gap, rest) && LeavesTwo(gap, rest) && Packets(pieces) == packets
      ensures Run(DecodeStep, s) == Decoded(packets, rest)
    {
      DecompositionDecidesPackets(s, pieces, gap, rest);
    }
  }

  /** Encoded packets, interleaved with prefix-free garbage and cut anywhere, come back in order. */
  lemma ListRoundTrip(pieces: seq<Piece>, chunks: seq<bytes>)
    requires WellFormed(pieces) && chunks != [] && Concat(chunks) == Spell(pieces)
    ensures Feed(DecodeStep, [], chunks) == Decoded(Packets(pieces), [])
  {
    ChunkInvariant([], chunks);
    assert [] + Concat(chunks) == Spell(pieces) + [];
    RunPieces(pieces, []);
  }
}
