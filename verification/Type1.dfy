/**
 The Type1 transport: a five-byte header in the clear, the rest of the packet encrypted and padded to
 whole blocks, and a decoder that resynchronizes on garbage, waits for incomplete frames and skips
 damaged ones.
 */
module Type1 {
  import opened Bytes
  import opened Lengths
  import opened Crc
  import opened Cbc
  import opened Packets
  import opened StreamDecoder
  import opened Wrappers

  // ----- encoding -----

  function EncodePacket(k: Key, p: Packet): bytes
    requires p.Valid()
  {
    SerializeFixed(p);
    Serialize(p)[..HEADER_LENGTH] + Encrypt(k, Serialize(p)[HEADER_LENGTH..])
  }

  // ----- decoding -----

  /** How many bytes of the decrypted text belong to the packet. */
  function BodyLength(version: byte, length: nat): nat {
    (if version >= 3 then 15 else 13) + length
  }

  function BodySize(header: bytes): nat
    requires |header| >= HEADER_LENGTH
  {
    BodyLength(header[1], UnpackU16(header[2], header[3]))
  }

  function FrameSize(header: bytes): (n: nat)
    requires |header| >= HEADER_LENGTH
    ensures n >= HEADER_LENGTH + BodySize(header) && (n - HEADER_LENGTH) % BLOCK_SIZE == 0
  {
    HEADER_LENGTH + PaddedLength(BodySize(header))
  }

  /** The five bytes at the start of s are a header. */
  predicate HeaderAt(s: bytes)
    requires |s| >= HEADER_LENGTH
  {
    s[0] == PACKET_PREFIX && HeaderIntact(s)
  }

  /** The packet in a complete frame, unless decryption or validation refuses it. */
  function Recover(k: Key, frame: bytes): (r: seq<Packet>)
    requires |frame| >= HEADER_LENGTH && |frame| == FrameSize(frame)
    ensures |r| <= 1
  {
    match Decrypt(k, frame[HEADER_LENGTH..])
    case None => []
    case Some(text) =>
      match FromBytes(frame[..HEADER_LENGTH] + text[..BodySize(frame)], true)
      case Ok(p) => [p]
      case Err(_) => []
  }

  lemma FrameSizeOfPrefix(s: bytes)
    requires |s| >= HEADER_LENGTH && |s| >= FrameSize(s)
    ensures FrameSize(s[..FrameSize(s)]) == FrameSize(s)
  {
  }

  /** One decision of the decoding loop, with garbage skipped a byte at a time. */
  function DecodeStep(k: Key, s: bytes): Step<Packet> {
    if s == [] then Wait
    else if s[0] != PACKET_PREFIX then Take(1, [])
    else if |s| < HEADER_LENGTH then Wait
    else if !HeaderIntact(s) then Take(1, [])
    else if |s| < FrameSize(s) then Wait
    else
      FrameSizeOfPrefix(s);
      Take(FrameSize(s), Recover(k, s[..FrameSize(s)]))
  }

  function Decoder(k: Key): (r: Stepper<Packet>)
    ensures forall s :: r(s) == DecodeStep(k, s)
  {
    (s: bytes) => DecodeStep(k, s)
  }

  /** The first position of a byte. */
  function FindByte(data: bytes, b: byte): (r: Option<nat>)
    ensures r.None? ==> b !in data
    ensures r.Some? ==> r.value < |data| && data[r.value] == b && b !in data[..r.value]
  {
    if data == [] then None
    else if data[0] == b then Some(0)
    else
      match FindByte(data[1..], b)
      case None => None
      case Some(i) =>
        assert data[..i + 1] == [data[0]] + data[1..][..i];
        Some(i + 1)
  }

  method DecodePackets(k: Key, chunk: bytes, buffer: bytes) returns (packets: seq<Packet>, rest: bytes)
    ensures Decoded(packets, rest) == Run(Decoder(k), buffer + chunk)
  {
    var data := buffer + chunk;
    rest := [];
    packets := [];
    ghost var step := Decoder(k);
    ghost var whole := Run(step, data);
    while data != []
      invariant whole == Prepend(packets, Run(step, data))
      invariant rest == []
      decreases |data|
    {
      var start := FindByte(data, PACKET_PREFIX);
      if start.None? {
        AllSkipped(k, data);
        data := [];
        break;
      }
      if start.value > 0 {
        GarbageSkipped(k, data, start.value);
        data := data[start.value..];
      }
      StepAtPrefix(k, data);
      if |data| < HEADER_LENGTH {
        RunWait(step, packets, data);
        rest := data;
        return;
      }
      var check := ComputeCrc8(data[..4]);
      if check != data[4] {
        RunSkip(step, data);
        data := data[1..];
        continue;
      }
      var frameLen := FrameSize(data);
      if |data| < frameLen {
        RunWait(step, packets, data);
        rest := data;
        return;
      }
      FrameSizeOfPrefix(data);
      var out := Recover(k, data[..frameLen]);
      RunTake(step, packets, data, frameLen, out);
      packets := packets + out;
      data := data[frameLen..];
    }
    RunWait(step, packets, []);
  }

  /** The decision at a prefix byte, case by case. */
  lemma StepAtPrefix(k: Key, s: bytes)
    requires s != [] && s[0] == PACKET_PREFIX
    ensures |s| < HEADER_LENGTH ==> DecodeStep(k, s) == Wait
    ensures |s| >= HEADER_LENGTH && Crc8(s[..4]) != s[4] ==> DecodeStep(k, s) == Take(1, [])
    ensures |s| >= HEADER_LENGTH && Crc8(s[..4]) == s[4] && |s| < FrameSize(s) ==> DecodeStep(k, s) == Wait
    ensures |s| >= HEADER_LENGTH && Crc8(s[..4]) == s[4] && |s| >= FrameSize(s) ==>
              && FrameSize(s[..FrameSize(s)]) == FrameSize(s)
              && DecodeStep(k, s) == Take(FrameSize(s), Recover(k, s[..FrameSize(s)]))
  {
    if |s| >= HEADER_LENGTH && |s| >= FrameSize(s) {
      FrameSizeOfPrefix(s);
    }
  }

  /** Skipping garbage byte by byte is dropping everything before the next prefix. */
  lemma {:induction false} GarbageSkipped(k: Key, data: bytes, n: nat)
    requires n <= |data| && PACKET_PREFIX !in data[..n]
    ensures Run(Decoder(k), data) == Run(Decoder(k), data[n..])
    decreases n
  {
    if n > 0 {
      assert data[..n][0] == data[0];
      assert data[1..][..n - 1] == data[..n][1..];
      GarbageSkipped(k, data[1..], n - 1);
      assert data[1..][n - 1..] == data[n..];
      RunSkip(Decoder(k), data);
    }
  }

  lemma AllSkipped(k: Key, data: bytes)
    requires PACKET_PREFIX !in data
    ensures Run(Decoder(k), data) == Run(Decoder(k), [])
  {
    assert data[..|data|] == data && data[|data|..] == [];
    GarbageSkipped(k, data, |data|);
  }

  // ----- the step is a stable greedy step -----

  /** Header tests and sizes look at the first five bytes only. */
  lemma HeaderPrefix(s: bytes, t: bytes)
    requires |s| >= HEADER_LENGTH
    ensures HeaderIntact(s + t) <==> HeaderIntact(s)
    ensures FrameSize(s + t) == FrameSize(s)
  {
    assert (s + t)[..4] == s[..4];
    assert (s + t)[1] == s[1] && (s + t)[2] == s[2] && (s + t)[3] == s[3];
  }

  lemma StepPersists(k: Key, s: bytes, t: bytes)
    ensures Persists(Decoder(k), s, t)
  {
    if |s| >= HEADER_LENGTH {
      HeaderPrefix(s, t);
      var n := FrameSize(s);
      if |s| >= n {
        assert (s + t)[..n] == s[..n];
      }
    }
  }

  lemma DecoderIsStable(k: Key)
    ensures Stable(Decoder(k))
  {
    forall s, t ensures Persists(Decoder(k), s, t) {
      StepPersists(k, s, t);
    }
    forall s ensures Progresses(Decoder(k), s) {
    }
  }

  /** For any buffer and any cutting of any byte stream, the packets and the final buffer are the same. */
  lemma ChunkInvariant(k: Key, buffer: bytes, chunks: seq<bytes>)
    requires chunks != []
    ensures Feed(Decoder(k), buffer, chunks) == Run(Decoder(k), buffer + Concat(chunks))
  {
    DecoderIsStable(k);
    ChunkInvariance(Decoder(k), buffer, chunks);
  }

  /** The buffer never grows beyond one byte less than the largest frame. */
  lemma RestIsBounded(k: Key, s: bytes)
    ensures |Run(Decoder(k), s).rest| <= 65556
    ensures DecodeStep(k, Run(Decoder(k), s).rest).Wait?
  {
    DecoderIsStable(k);
    RestWaits(Decoder(k), s);
    var r := Run(Decoder(k), s).rest;
    if |r| >= HEADER_LENGTH {
      LargestFrame(r);
    }
  }

  lemma LargestFrame(header: bytes)
    requires |header| >= HEADER_LENGTH
    ensures FrameSize(header) <= 65557
  {
  }

  /** The bound is reached: a header announcing the longest payload, one byte short of its frame. */
  lemma RestBoundIsReached(k: Key)
    ensures var header := [PACKET_PREFIX, 3, 0xFF, 0xFF];
            var s := header + [Crc8(header)] + Zeros(65551);
            |s| == 65556 && Run(Decoder(k), s) == Decoded([], s)
  {
    var header := [PACKET_PREFIX, 3, 0xFF, 0xFF];
    var check := Crc8(header);
    var s := header + [check] + Zeros(65551);
    assert s[..4] == header && s[4] == check;
    LongestFrame(s);
    RunWait(Decoder(k), [], s);
  }

  lemma LongestFrame(s: bytes)
    requires |s| >= HEADER_LENGTH && s[1] == 3 && s[2] == 0xFF && s[3] == 0xFF
    ensures FrameSize(s) == 65557
  {
    assert UnpackU16(0xFF, 0xFF) == 65535;
  }

  // ----- frames -----

  /** A header followed by a body of the size it announces is taken whole, whatever the body. */
  lemma FrameIsTaken(k: Key, frame: bytes)
    requires |frame| >= HEADER_LENGTH && HeaderAt(frame) && |frame| == FrameSize(frame)
    ensures DecodeStep(k, frame) == Take(|frame|, Recover(k, frame))
  {
    assert frame[..|frame|] == frame;
  }

  /** Frames of version 0 or 1 are consumed and yield nothing, whatever they contain. */
  lemma OldVersionYieldsNothing(k: Key, frame: bytes)
    requires |frame| >= HEADER_LENGTH && |frame| == FrameSize(frame) && frame[1] < 2
    ensures Recover(k, frame) == []
  {
    if Decrypt(k, frame[HEADER_LENGTH..]).Some? {
      var text := Decrypt(k, frame[HEADER_LENGTH..]).value;
      var d := frame[..HEADER_LENGTH] + text[..BodySize(frame)];
      SameLength(frame, d);
    }
  }

  /** A packet that is emitted has the version and the payload length its header announced. */
  lemma RecoveredMatchesHeader(k: Key, frame: bytes)
    requires |frame| >= HEADER_LENGTH && |frame| == FrameSize(frame) && Recover(k, frame) != []
    ensures var p := Recover(k, frame)[0];
      p.Valid() && p.version == frame[1] >= 2 && |p.payload| == UnpackU16(frame[2], frame[3])
  {
    var text := Decrypt(k, frame[HEADER_LENGTH..]).value;
    var d := frame[..HEADER_LENGTH] + text[..BodySize(frame)];
    assert d[1] == frame[1] && d[2] == frame[2] && d[3] == frame[3];
    ParsedShape(d, true);
    if frame[1] < 2 {
      OldVersionYieldsNothing(k, frame);
    }
  }

  /** A packet's frame starts with its header and has the size the header announces. */
  lemma EncodedFrame(k: Key, p: Packet)
    requires p.Valid()
    ensures var f := EncodePacket(k, p);
      && |f| >= HEADER_LENGTH && f[..HEADER_LENGTH] == Serialize(p)[..HEADER_LENGTH]
      && HeaderAt(f) && |f| == FrameSize(f) && f[1] == p.version
      && BodySize(f) == |Serialize(p)| - HEADER_LENGTH
  {
    var raw, f := Serialize(p), EncodePacket(k, p);
    SerializeFixed(p);
    assert f[..HEADER_LENGTH] == raw[..HEADER_LENGTH];
    HeaderOfSerialized(p);
    SerializedSize(p);
    SameHeader(raw, f);
  }

  /** The lengths of the serializer and of the transport agree. */
  lemma SerializedSize(p: Packet)
    requires p.Valid()
    ensures |Serialize(p)| >= HEADER_LENGTH && Serialize(p)[1] == p.version
    ensures BodySize(Serialize(p)) == |Serialize(p)| - HEADER_LENGTH
  {
    SerializeCarries(p);
    UnpackOfPackU16(|p.payload|);
  }

  lemma HeaderOfSerialized(p: Packet)
    requires p.Valid()
    ensures |Serialize(p)| >= HEADER_LENGTH && HeaderAt(Serialize(p))
  {
    HeadLayout(p);
    SerializeStarts(p);
    SameStart(Serialize(p), Head(p));
  }

  lemma SameHeader(a: bytes, b: bytes)
    requires |a| >= HEADER_LENGTH && |b| >= HEADER_LENGTH && a[..HEADER_LENGTH] == b[..HEADER_LENGTH]
    ensures HeaderAt(a) <==> HeaderAt(b)
    ensures a[0] == b[0] && a[1] == b[1] && a[2] == b[2] && a[3] == b[3]
    ensures FrameSize(a) == FrameSize(b) && BodySize(a) == BodySize(b)
  {
    var h := a[..HEADER_LENGTH];
    assert a == h + a[HEADER_LENGTH..] && b == h + b[HEADER_LENGTH..];
    HeaderPrefix(h, a[HEADER_LENGTH..]);
    HeaderPrefix(h, b[HEADER_LENGTH..]);
  }

  /** The lengths computed for encoding, transport and parsing agree: what was encoded is recovered. */
  lemma EncodedIsRecovered(k: Key, p: Packet)
    requires ValidKey(k) && p.Valid() && p.version >= 2
    ensures var f := EncodePacket(k, p);
            |f| >= HEADER_LENGTH && |f| == FrameSize(f) && Recover(k, f) == [Received(p, true)]
  {
    var raw, f := Serialize(p), EncodePacket(k, p);
    var body := raw[HEADER_LENGTH..];
    EncodedFrame(k, p);
    DecryptEncrypt(k, body);
    assert f[HEADER_LENGTH..] == Encrypt(k, body);
    assert Pad(body)[..|body|] == body;
    assert f[..HEADER_LENGTH] + body == raw;
    ParseSerialized(p, [], true);
    assert raw + [] == raw;
  }

  // ----- transmissions -----

  /**
   What arrives for one packet: garbage, the packet's header, and a body of the announced size, which
   is the packet's own ciphertext unless it was damaged on the way.
   */
  datatype Sent = Sent(garbage: bytes, packet: ValidPacket, body: bytes)

  /** No prefix byte in the garbage starts what looks like a header, judged with the header that follows. */
  ghost predicate Inert(garbage: bytes, header: bytes) {
    forall i {:trigger garbage[i..]} :: 0 <= i < |garbage| && |header| >= HEADER_LENGTH ==> !HeaderAt(garbage[i..] + header)
  }

  function CipherText(k: Key, p: Packet): bytes
    requires p.Valid()
  {
    SerializeFixed(p);
    Encrypt(k, Serialize(p)[HEADER_LENGTH..])
  }

  function HeaderOf(p: Packet): (h: bytes)
    requires p.Valid()
    ensures |h| == HEADER_LENGTH
  {
    SerializeFixed(p);
    Serialize(p)[..HEADER_LENGTH]
  }

  ghost predicate Arrives(k: Key, s: Sent) {
    && Inert(s.garbage, HeaderOf(s.packet))
    && |s.body| == |CipherText(k, s.packet)|
  }

  ghost predicate AllArrive(k: Key, sent: seq<Sent>) {
    forall i :: 0 <= i < |sent| ==> Arrives(k, sent[i])
  }

  /** The body is the packet's own ciphertext. */
  predicate Intact(k: Key, s: Sent) {
    s.body == CipherText(k, s.packet)
  }

  lemma ArrivedFrame(k: Key, s: Sent)
    requires Arrives(k, s)
    ensures var f := HeaderOf(s.packet) + s.body;
      && HeaderAt(f) && |f| == FrameSize(f) && f[1] == s.packet.version
  {
    var f, e := HeaderOf(s.packet) + s.body, EncodePacket(k, s.packet);
    EncodedFrame(k, s.packet);
    assert f[..HEADER_LENGTH] == e[..HEADER_LENGTH];
    SameHeader(f, e);
  }

  /** What the decoder makes of one arrival. */
  function Outcome(k: Key, s: Sent): (r: seq<Packet>)
    ensures |r| <= 1
  {
    var f := HeaderOf(s.packet) + s.body;
    if |f| == FrameSize(f) then Recover(k, f) else []
  }

  function Outcomes(k: Key, sent: seq<Sent>): seq<Packet> {
    if sent == [] then [] else Outcome(k, sent[0]) + Outcomes(k, sent[1..])
  }

  function Spell(sent: seq<Sent>): bytes {
    if sent == [] then [] else (sent[0].garbage + (HeaderOf(sent[0].packet) + sent[0].body)) + Spell(sent[1..])
  }

  lemma GarbageIsSkipped(k: Key, s: Sent, t: bytes)
    requires Arrives(k, s)
    ensures Skipped(Decoder(k), s.garbage, (HeaderOf(s.packet) + s.body) + t)
  {
    var g, h := s.garbage, HeaderOf(s.packet);
    var frame, u := h + s.body, s.body + t;
    Reassociate(h, s.body, t);
    forall i {:trigger g[i..]} | 0 <= i < |g|
      ensures Decoder(k)(g[i..] + (frame + t)) == Take(1, [])
    {
      var x := g[i..] + h;
      assert !HeaderAt(x);
      Reassociate(g[i..], h, u);
      GarbageStep(k, x, u);
    }
  }

  lemma GarbageStep(k: Key, x: bytes, t: bytes)
    requires |x| >= HEADER_LENGTH && !HeaderAt(x)
    ensures DecodeStep(k, x + t) == Take(1, [])
  {
    HeaderPrefix(x, t);
    assert (x + t)[0] == x[0];
  }

  /** Every arrival is decoded on its own, whatever came before and whatever follows. */
  lemma {:induction false} DecodeTransmission(k: Key, sent: seq<Sent>, tail: bytes)
    requires AllArrive(k, sent)
    ensures Run(Decoder(k), Spell(sent) + tail) == Prepend(Outcomes(k, sent), Run(Decoder(k), tail))
    decreases |sent|
  {
    if sent == [] {
      assert Spell(sent) + tail == tail;
    } else {
      var s, rest, d := sent[0], sent[1..], Run(Decoder(k), tail);
      var frame, t := HeaderOf(s.packet) + s.body, Spell(rest) + tail;
      DecodeTransmission(k, rest, tail);
      DecoderIsStable(k);
      ArrivedFrame(k, s);
      FrameIsTaken(k, frame);
      GarbageIsSkipped(k, s, t);
      RunSlot(Decoder(k), Slot(s.garbage, frame, Outcome(k, s)), t);
      Reassociate(s.garbage + frame, Spell(rest), tail);
      Reassociate(Outcome(k, s), Outcomes(k, rest), d.packets);
    }
  }

  /** What the receiver gets of an undamaged transmission. */
  function ReceivedAll(sent: seq<Sent>): seq<Packet> {
    if sent == [] then []
    else (if sent[0].packet.version >= 2 then [Received(sent[0].packet, true)] else []) + ReceivedAll(sent[1..])
  }

  ghost predicate AllIntact(k: Key, sent: seq<Sent>) {
    forall i :: 0 <= i < |sent| ==> Arrives(k, sent[i]) && Intact(k, sent[i])
  }

  lemma IntactOutcome(k: Key, s: Sent)
    requires ValidKey(k) && Arrives(k, s) && Intact(k, s)
    ensures Outcome(k, s) == if s.packet.version >= 2 then [Received(s.packet, true)] else []
  {
    var f := HeaderOf(s.packet) + s.body;
    ArrivedFrame(k, s);
    assert f == EncodePacket(k, s.packet);
    if s.packet.version >= 2 {
      EncodedIsRecovered(k, s.packet);
    } else {
      OldVersionYieldsNothing(k, f);
    }
  }

  lemma {:induction false} IntactOutcomes(k: Key, sent: seq<Sent>)
    requires ValidKey(k) && AllIntact(k, sent)
    ensures Outcomes(k, sent) == ReceivedAll(sent)
    decreases |sent|
  {
    if sent != [] {
      IntactOutcome(k, sent[0]);
      IntactOutcomes(k, sent[1..]);
    }
  }

  lemma {:induction false} OutcomesAppend(k: Key, a: seq<Sent>, b: seq<Sent>)
    ensures Outcomes(k, a + b) == Outcomes(k, a) + Outcomes(k, b)
    decreases |a|
  {
    if a == [] {
      assert a + b == b;
    } else {
      var out := Outcome(k, a[0]);
      assert (a + b)[1..] == a[1..] + b;
      OutcomesAppend(k, a[1..], b);
      Reassociate(out, Outcomes(k, a[1..]), Outcomes(k, b));
    }
  }

  lemma DecodeChunks(k: Key, sent: seq<Sent>, chunks: seq<bytes>)
    requires AllArrive(k, sent) && chunks != [] && Concat(chunks) == Spell(sent)
    ensures Feed(Decoder(k), [], chunks) == Decoded(Outcomes(k, sent), [])
  {
    ChunkInvariant(k, [], chunks);
    assert [] + Concat(chunks) == Spell(sent) + [];
    DecodeTransmission(k, sent, []);
    assert Outcomes(k, sent) + [] == Outcomes(k, sent);
  }

  /**
   Encoded packets, with inert garbage before any of them and cut into chunks anywhere, come back
   exactly, in order, with nothing left in the buffer; those of version 0 and 1 are swallowed.
   */
  lemma ListRoundTrip(k: Key, sent: seq<Sent>, chunks: seq<bytes>)
    requires ValidKey(k) && AllIntact(k, sent) && chunks != [] && Concat(chunks) == Spell(sent)
    ensures Feed(Decoder(k), [], chunks) == Decoded(ReceivedAll(sent), [])
  {
    DecodeChunks(k, sent, chunks);
    IntactOutcomes(k, sent);
  }

  /** Replacing one body keeps the stream an arrival of the same packets. */
  lemma DamagedArrives(k: Key, s: Sent, body: bytes)
    requires Arrives(k, s) && |body| == |s.body|
    ensures Arrives(k, s.(body := body))
  {
  }

  lemma DamagedOutcome(k: Key, s: Sent)
    requires Arrives(k, s) && s.packet.version < 2
    ensures Outcome(k, s) == []
  {
    ArrivedFrame(k, s);
    OldVersionYieldsNothing(k, HeaderOf(s.packet) + s.body);
  }

  lemma OutcomesAround(k: Key, before: seq<Sent>, x: Sent, after: seq<Sent>)
    ensures Outcomes(k, (before + [x]) + after) == (Outcomes(k, before) + Outcome(k, x)) + Outcomes(k, after)
  {
    assert Outcomes(k, [x]) == Outcome(k, x) + [] == Outcome(k, x);
    OutcomesAppend(k, before, [x]);
    OutcomesAppend(k, before + [x], after);
  }

  lemma ArriveAround(k: Key, before: seq<Sent>, x: Sent, after: seq<Sent>)
    requires AllArrive(k, before) && Arrives(k, x) && AllArrive(k, after)
    ensures AllArrive(k, (before + [x]) + after)
  {
    var all, n := (before + [x]) + after, |before|;
    forall i | 0 <= i < |all| ensures Arrives(k, all[i]) {
      assert all[i] == if i < n then before[i] else if i == n then x else after[i - n - 1];
    }
  }

  /**
   Damage to the body of one frame costs at most that frame's packet: every other packet is decoded,
   in order, at most one packet stands in the damaged slot, and nothing is left in the buffer.
   */
  lemma FaultIsolation(k: Key, before: seq<Sent>, s: Sent, after: seq<Sent>, body: bytes, chunks: seq<bytes>)
    returns (out: seq<Packet>)
    requires ValidKey(k) && AllIntact(k, before) && Arrives(k, s) && AllIntact(k, after)
    requires |body| == |s.body|
    requires chunks != [] && Concat(chunks) == Spell((before + [s.(body := body)]) + after)
    ensures |out| <= 1 && (s.packet.version < 2 ==> out == [])
    ensures Feed(Decoder(k), [], chunks) == Decoded((ReceivedAll(before) + out) + ReceivedAll(after), [])
  {
    var x := s.(body := body);
    DamagedArrives(k, s, body);
    out := Outcome(k, x);
    if s.packet.version < 2 {
      DamagedOutcome(k, x);
    }
    IntactOutcomes(k, before);
    IntactOutcomes(k, after);
    OutcomesAround(k, before, x, after);
    ArriveAround(k, before, x, after);
    DecodeChunks(k, (before + [x]) + after, chunks);
  }
}
