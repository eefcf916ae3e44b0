/** The PowerStream inner packet: its serialization, and the validating parser. */
module Packets {
  import opened Bytes
  import opened Lengths
  import opened Crc
  import opened Wrappers

  const PACKET_PREFIX: byte := 0xAA
  const HEADER_LENGTH: nat := 5
  const CRC16_LENGTH: nat := 2

  datatype Packet = Packet(
    src: byte, dst: byte, cmdSet: byte, cmdId: byte, payload: bytes,
    dsrc: byte, ddst: byte, version: byte, seqno: bytes)
  {
    /** What the constructor insists on, beyond fields that fit into one byte. */
    predicate Valid() {
      |seqno| == 4 && |payload| <= 0xFFFF
    }
  }

  type ValidPacket = p: Packet | p.Valid() witness Packet(0, 0, 0, 0, [], 0, 0, 0, [0, 0, 0, 0])

  datatype ParseError = TooShort | BadPrefix | Truncated | Crc8Mismatch | Crc16Mismatch

  // ----- serialization -----

  function Header(version: byte, length: nat): (h: bytes)
    requires length <= 0xFFFF
    ensures |h| == 4
  {
    [PACKET_PREFIX, version] + PackU16(length)
  }

  /** The fourteen bytes every version starts with. */
  function Head(p: Packet): (h: bytes)
    requires p.Valid()
    ensures |h| == 14
  {
    Header(p.version, |p.payload|) + [Crc8(Header(p.version, |p.payload|)), 0x0D] + p.seqno + [0, 0, p.src, p.dst]
  }

  /** Routing bytes are present from version 3 on. */
  function Selector(p: Packet): bytes {
    (if p.version >= 3 then [p.dsrc, p.ddst] else []) + [p.cmdSet, p.cmdId]
  }

  function Body(p: Packet): bytes
    requires p.Valid()
  {
    Head(p) + (Selector(p) + p.payload)
  }

  function Serialize(p: Packet): bytes
    requires p.Valid()
  {
    Body(p) + PackCrc(Crc16(Body(p)))
  }

  /** Growing the head piece by piece gives the head. */
  lemma HeadGrown(p: Packet, header: bytes, check: byte)
    requires p.Valid()
    requires header == Header(p.version, |p.payload|) && check == Crc8(header)
    ensures ((((header + [check]) + [0x0D]) + p.seqno) + [0, 0]) + [p.src, p.dst] == Head(p)
  {
  }

  lemma BodyGrown(p: Packet)
    requires p.Valid()
    ensures p.version >= 3 ==> ((Head(p) + [p.dsrc, p.ddst]) + [p.cmdSet, p.cmdId]) + p.payload == Body(p)
    ensures p.version < 3 ==> (Head(p) + [p.cmdSet, p.cmdId]) + p.payload == Body(p)
  {
  }

  method ToBytes(p: Packet) returns (data: bytes)
    requires p.Valid()
    ensures data == Serialize(p)
  {
    data := [PACKET_PREFIX];
    data := data + ([p.version] + PackU16(|p.payload|));
    assert data == Header(p.version, |p.payload|);
    var check := ComputeCrc8(data);
    HeadGrown(p, data, check);
    data := data + [check];
    data := data + [0x0D];
    data := data + p.seqno;
    data := data + [0, 0];
    data := data + [p.src, p.dst];
    BodyGrown(p);
    if p.version >= 3 {
      data := data + [p.dsrc, p.ddst];
    }
    data := data + [p.cmdSet, p.cmdId];
    data := data + p.payload;
    var tail := ComputeCrc16(data);
    data := data + PackCrc(tail);
  }

  // ----- parsing -----

  function PayloadStart(version: byte): nat {
    if version == 2 then 16 else 18
  }

  function XorPayload(payload: bytes, key: byte): (r: bytes)
    ensures |r| == |payload|
  {
    Xor(payload, seq(|payload|, _ => key))
  }

  function FrameLength(data: bytes): nat
    requires |data| >= HEADER_LENGTH
  {
    PayloadStart(data[1]) + UnpackU16(data[2], data[3]) + CRC16_LENGTH
  }

  /** The fields of a frame of exactly the announced length. */
  function RawFields(frame: bytes): (p: Packet)
    requires |frame| >= HEADER_LENGTH && |frame| == FrameLength(frame)
    ensures p.Valid()
  {
    var payload := frame[PayloadStart(frame[1])..|frame| - CRC16_LENGTH];
    if frame[1] == 2 then
      Packet(frame[12], frame[13], frame[14], frame[15], payload, 0, 0, 2, frame[6..10])
    else
      Packet(frame[12], frame[13], frame[16], frame[17], payload, frame[14], frame[15], frame[1], frame[6..10])
  }

  /** The receiver's exclusive or of the payload with the first sequence byte, which zero switches off. */
  function Unmask(p: Packet, xorPayload: bool): (q: Packet)
    requires p.Valid()
    ensures q.Valid()
  {
    if xorPayload && p.seqno[0] != 0 then p.(payload := XorPayload(p.payload, p.seqno[0])) else p
  }

  function Fields(frame: bytes, xorPayload: bool): (p: Packet)
    requires |frame| >= HEADER_LENGTH && |frame| == FrameLength(frame)
    ensures p.Valid()
  {
    Unmask(RawFields(frame), xorPayload)
  }

  predicate HeaderIntact(frame: bytes)
    requires |frame| >= HEADER_LENGTH
  {
    Crc8(frame[..4]) == frame[4]
  }

  predicate TailIntact(frame: bytes)
    requires |frame| >= HEADER_LENGTH
  {
    var n := |frame| - CRC16_LENGTH;
    Crc16(frame[..n]) == UnpackCrc(frame[n], frame[n + 1])
  }

  /** The two checksum tests, on a frame of exactly the announced length. */
  function Validate(frame: bytes, xorPayload: bool): (r: Result<Packet, ParseError>)
    requires |frame| >= HEADER_LENGTH && |frame| == FrameLength(frame)
    ensures r.Ok? ==> r.value.Valid()
  {
    if !HeaderIntact(frame) then Err(Crc8Mismatch)
    else if !TailIntact(frame) then Err(Crc16Mismatch)
    else Ok(Fields(frame, xorPayload))
  }

  lemma FrameLengthOfPrefix(data: bytes)
    requires |data| >= HEADER_LENGTH && |data| >= FrameLength(data)
    ensures FrameLength(data[..FrameLength(data)]) == FrameLength(data)
  {
  }

  function FromBytes(data: bytes, xorPayload: bool): (r: Result<Packet, ParseError>)
    ensures r.Ok? ==> r.value.Valid()
  {
    if |data| < HEADER_LENGTH then Err(TooShort)
    else if data[0] != PACKET_PREFIX then Err(BadPrefix)
    else if |data| < FrameLength(data) then Err(Truncated)
    else
      FrameLengthOfPrefix(data);
      Validate(data[..FrameLength(data)], xorPayload)
  }

  // ----- layout -----

  function BodyStart(version: byte): nat {
    if version >= 3 then 18 else 16
  }

  lemma HeadLayout(p: Packet)
    requires p.Valid()
    ensures var h, n := Head(p), |p.payload|;
      && h[..4] == Header(p.version, n) && h[0] == PACKET_PREFIX && h[1] == p.version
      && h[2] == LowOctet(n) && h[3] == HighOctet(n) && h[4] == Crc8(Header(p.version, n))
      && h[5] == 0x0D && h[6] == p.seqno[0] && h[6..10] == p.seqno && h[10] == 0 && h[11] == 0
      && h[12] == p.src && h[13] == p.dst
  {
  }

  lemma BodyLayout(p: Packet)
    requires p.Valid()
    ensures var b, n := Body(p), |p.payload|;
      && |b| == BodyStart(p.version) + n
      && b[..14] == Head(p)
      && (p.version >= 3 ==> b[14] == p.dsrc && b[15] == p.ddst && b[16] == p.cmdSet && b[17] == p.cmdId)
      && (p.version < 3 ==> b[14] == p.cmdSet && b[15] == p.cmdId)
      && b[BodyStart(p.version)..] == p.payload
  {
  }

  lemma SerializeLayout(p: Packet)
    requires p.Valid()
    ensures var f, n := Serialize(p), |Body(p)|;
      && |f| == n + 2 && f[..n] == Body(p)
      && UnpackCrc(f[n], f[n + 1]) == Crc16(Body(p))
  {
    UnpackOfPackCrc(Crc16(Body(p)));
  }

  /** What a version can carry: version 2 has no routing bytes. */
  function Stripped(p: Packet): (q: Packet)
    requires p.Valid()
    ensures q.Valid()
  {
    if p.version == 2 then p.(dsrc := 0, ddst := 0) else p
  }

  /** What a receiver recovers. */
  function Received(p: Packet, xorPayload: bool): Packet
    requires p.Valid()
  {
    Unmask(Stripped(p), xorPayload)
  }

  /** A frame of exactly the announced length that passes both checks. */
  predicate Passes(f: bytes) {
    && |f| >= HEADER_LENGTH && f[0] == PACKET_PREFIX && |f| == FrameLength(f)
    && HeaderIntact(f) && TailIntact(f)
  }

  lemma SameLength(f: bytes, d: bytes)
    requires |f| >= HEADER_LENGTH && |d| >= HEADER_LENGTH
    requires f[1] == d[1] && f[2] == d[2] && f[3] == d[3]
    ensures FrameLength(f) == FrameLength(d)
  {
  }

  lemma ParseIsValidate(f: bytes, t: bytes, xorPayload: bool)
    requires |f| >= HEADER_LENGTH && |f| == FrameLength(f)
    ensures FromBytes(f + t, xorPayload)
         == if f[0] != PACKET_PREFIX then Err(BadPrefix) else Validate(f, xorPayload)
  {
    var d := f + t;
    SameLength(f, d);
    assert d[..|f|] == f;
  }

  /** The parser looks at the announced length only, and accepts exactly the frames that pass. */
  lemma ParsePrefix(f: bytes, t: bytes, xorPayload: bool)
    requires |f| >= HEADER_LENGTH && |f| == FrameLength(f)
    ensures FromBytes(f + t, xorPayload).Ok? <==> Passes(f)
    ensures Passes(f) ==> FromBytes(f + t, xorPayload) == Ok(Fields(f, xorPayload))
  {
    ParseIsValidate(f, t, xorPayload);
  }

  predicate LengthAt(f: bytes, n: nat)
    requires |f| >= HEADER_LENGTH && n <= 0xFFFF
  {
    f[2] == LowOctet(n) && f[3] == HighOctet(n)
  }

  /** The fields of p at the offsets of its version, in a frame of the length it needs. */
  predicate Carries(f: bytes, p: Packet)
    requires p.Valid()
  {
    var start := BodyStart(p.version);
    && |f| == start + |p.payload| + 2
    && f[0] == PACKET_PREFIX && f[1] == p.version
    && LengthAt(f, |p.payload|)
    && f[6] == p.seqno[0] && f[6..10] == p.seqno && f[12] == p.src && f[13] == p.dst
    && (p.version >= 3 ==> f[14] == p.dsrc && f[15] == p.ddst && f[16] == p.cmdSet && f[17] == p.cmdId)
    && (p.version < 3 ==> f[14] == p.cmdSet && f[15] == p.cmdId)
    && f[start..|f| - 2] == p.payload
  }

  lemma CarriesLength(f: bytes, p: Packet)
    requires p.Valid() && p.version >= 2 && Carries(f, p)
    ensures FrameLength(f) == |f|
  {
    UnpackOfPackU16(|p.payload|);
  }

  lemma CarriesFields(f: bytes, p: Packet)
    requires p.Valid() && p.version >= 2 && Carries(f, p) && |f| == FrameLength(f)
    ensures RawFields(f) == Stripped(p)
  {
    Versions(p.version);
  }

  lemma Versions(version: byte)
    requires version >= 2
    ensures version == 2 || version >= 3
    ensures PayloadStart(version) == BodyStart(version)
  {
  }

  lemma SerializeStarts(p: Packet)
    requires p.Valid()
    ensures var f, b, start := Serialize(p), Body(p), BodyStart(p.version);
      && |f| == |b| + 2 == start + |p.payload| + 2
      && f[..14] == Head(p)
      && f[..|b|] == b && f[start..|b|] == p.payload
      && (forall i :: 14 <= i < |b| ==> f[i] == b[i])
  {
    var f, b := Serialize(p), Body(p);
    BodyLayout(p);
    SerializeLayout(p);
    assert f[..14] == b[..14];
    assert f[BodyStart(p.version)..|b|] == b[BodyStart(p.version)..];
  }

  lemma SerializeCarries(p: Packet)
    requires p.Valid()
    ensures Carries(Serialize(p), p)
  {
    HeadLayout(p);
    BodyLayout(p);
    SerializeStarts(p);
    SameStart(Serialize(p), Head(p));
  }

  lemma SameStart(f: bytes, h: bytes)
    requires |h| == 14 <= |f| && f[..14] == h
    ensures forall i :: 0 <= i < 14 ==> f[i] == h[i]
    ensures f[6..10] == h[6..10] && f[..4] == h[..4]
  {
    forall i | 0 <= i < 14 ensures f[i] == h[i] {
      assert f[..14][i] == h[i];
    }
  }

  lemma SerializePasses(p: Packet)
    requires p.Valid() && p.version >= 2
    ensures Passes(Serialize(p))
  {
    var f, b, h := Serialize(p), Body(p), Head(p);
    SerializeCarries(p);
    CarriesLength(f, p);
    HeadLayout(p);
    SerializeStarts(p);
    SerializeLayout(p);
    SameStart(f, h);
  }

  /** The announced frame is all there. */
  predicate Complete(data: bytes) {
    |data| >= HEADER_LENGTH && data[0] == PACKET_PREFIX && |data| >= FrameLength(data)
  }

  /** Which data is refused for which reason, the first that applies, and which is accepted. */
  lemma ParseDecides(data: bytes, xorPayload: bool)
    ensures var r := FromBytes(data, xorPayload);
      && (r == Err(TooShort) <==> |data| < HEADER_LENGTH)
      && (r == Err(BadPrefix) <==> |data| >= HEADER_LENGTH && data[0] != PACKET_PREFIX)
      && (r == Err(Truncated) <==>
            |data| >= HEADER_LENGTH && data[0] == PACKET_PREFIX && |data| < FrameLength(data))
      && (r == Err(Crc8Mismatch) <==> Complete(data) && !HeaderIntact(data))
      && (r == Err(Crc16Mismatch) <==>
            Complete(data) && HeaderIntact(data) && !TailIntact(data[..FrameLength(data)]))
      && (r.Ok? <==> Complete(data) && Passes(data[..FrameLength(data)]))
  {
    if Complete(data) {
      var f := data[..FrameLength(data)];
      FrameLengthOfPrefix(data);
      assert f[..4] == data[..4] && f[4] == data[4];
    }
  }

  /** Parsing a serialized packet recovers it, whatever follows it in the buffer. */
  lemma ParseSerialized(p: Packet, t: bytes, xorPayload: bool)
    requires p.Valid() && p.version >= 2
    ensures FromBytes(Serialize(p) + t, xorPayload) == Ok(Received(p, xorPayload))
  {
    var f := Serialize(p);
    SerializePasses(p);
    SerializeCarries(p);
    ParsePrefix(f, t, xorPayload);
    CarriesFields(f, p);
  }

  /** Whatever is accepted has the version and the payload length its header announces. */
  lemma ParsedShape(d: bytes, xorPayload: bool)
    requires FromBytes(d, xorPayload).Ok?
    ensures |d| >= FrameLength(d)
    ensures FromBytes(d, xorPayload).value.version == d[1]
    ensures |FromBytes(d, xorPayload).value.payload| == UnpackU16(d[2], d[3])
  {
    var f := d[..FrameLength(d)];
    FrameLengthOfPrefix(d);
    assert f[1] == d[1] && f[2] == d[2] && f[3] == d[3];
    FieldsShape(f, xorPayload);
  }

  lemma FieldsShape(f: bytes, xorPayload: bool)
    requires |f| >= HEADER_LENGTH && |f| == FrameLength(f)
    ensures Fields(f, xorPayload).version == f[1]
    ensures |Fields(f, xorPayload).payload| == UnpackU16(f[2], f[3]) == |f| - 2 - PayloadStart(f[1])
  {
  }

  // ----- exactly when the round trips hold -----

  /** Version 0 and 1 packets are written two bytes shorter than they are read, and are refused. */
  lemma OldVersionsRefused(p: Packet, xorPayload: bool)
    requires p.Valid() && p.version < 2
    ensures FromBytes(Serialize(p), xorPayload) == Err(Truncated)
  {
    SerializeCarries(p);
    UnpackOfPackU16(|p.payload|);
  }

  lemma XorPayloadChanges(payload: bytes, key: byte)
    ensures XorPayload(payload, key) == payload <==> key == 0 || payload == []
  {
    var r := XorPayload(payload, key);
    if key == 0 {
      forall i | 0 <= i < |payload| ensures r[i] == payload[i] {
        XorZero(payload[i]);
      }
    } else if payload != [] {
      XorNonzero(payload[0], key);
      assert r[0] != payload[0];
    }
  }

  lemma XorZero(b: byte)
    ensures b ^ 0 == b
  {
  }

  lemma XorNonzero(b: byte, key: byte)
    requires key != 0
    ensures b ^ key != b
  {
  }

  /** Parsing undoes serialization exactly for packets whose version carries all their fields. */
  lemma RoundTripExactly(p: Packet, xorPayload: bool)
    requires p.Valid()
    ensures FromBytes(Serialize(p), xorPayload) == Ok(p) <==>
            && (p.version >= 3 || (p.version == 2 && p.dsrc == 0 && p.ddst == 0))
            && (!xorPayload || p.seqno[0] == 0 || p.payload == [])
  {
    if p.version < 2 {
      OldVersionsRefused(p, xorPayload);
    } else {
      ParseSerialized(p, [], xorPayload);
      assert Serialize(p) + [] == Serialize(p);
      XorPayloadChanges(p.payload, p.seqno[0]);
    }
  }

  lemma LengthCarried(f: bytes, n: nat)
    requires |f| >= HEADER_LENGTH && n == UnpackU16(f[2], f[3])
    ensures LengthAt(f, n)
  {
    LowOfUnpack(f[2], f[3]);
    HighOfUnpack(f[2], f[3]);
  }

  lemma FieldsPlaced(f: bytes)
    requires |f| >= HEADER_LENGTH && |f| == FrameLength(f) && f[1] >= 2
    ensures var p := RawFields(f);
      && p.payload == f[BodyStart(f[1])..|f| - 2]
      && p.seqno == f[6..10] && p.src == f[12] && p.dst == f[13]
      && (f[1] >= 3 ==> p.dsrc == f[14] && p.ddst == f[15] && p.cmdSet == f[16] && p.cmdId == f[17])
      && (f[1] < 3 ==> p.cmdSet == f[14] && p.cmdId == f[15])
  {
    var start := PayloadStart(f[1]);
    Versions(f[1]);
    if f[1] == 2 {
      assert RawFields(f) == Packet(f[12], f[13], f[14], f[15], f[start..|f| - 2], 0, 0, 2, f[6..10]);
    } else {
      assert RawFields(f)
          == Packet(f[12], f[13], f[16], f[17], f[start..|f| - 2], f[14], f[15], f[1], f[6..10]);
    }
  }

  lemma FieldsCarried(f: bytes)
    requires |f| >= HEADER_LENGTH && f[0] == PACKET_PREFIX && |f| == FrameLength(f) && f[1] >= 2
    ensures Carries(f, RawFields(f))
  {
    var p := RawFields(f);
    var n := |p.payload|;
    FieldsShape(f, false);
    FieldsPlaced(f);
    Versions(p.version);
    LengthCarried(f, n);
  }

  /** The three bytes the parser does not look at. */
  predicate FixedBytes(f: bytes)
    requires |f| >= 14
  {
    f[5] == 0x0D && f[10] == 0 && f[11] == 0
  }

  lemma HeaderRecovered(f: bytes, p: Packet)
    requires p.Valid() && Carries(f, p)
    ensures f[..4] == Header(p.version, |p.payload|)
  {
  }

  lemma SplitHead(f: bytes)
    requires |f| >= 14
    ensures f[..14] == f[..4] + [f[4], f[5]] + f[6..10] + [f[10], f[11], f[12], f[13]]
  {
  }

  lemma HeadRecovered(f: bytes, p: Packet)
    requires p.Valid() && Carries(f, p) && FixedBytes(f)
    requires f[4] == Crc8(Header(p.version, |p.payload|))
    ensures f[..14] == Head(p)
  {
    HeaderRecovered(f, p);
    SplitHead(f);
  }

  lemma TwoAt(f: bytes, i: nat)
    requires i + 2 <= |f|
    ensures f[i..i + 2] == [f[i], f[i + 1]]
  {
  }

  lemma FourAt(f: bytes, i: nat)
    requires i + 4 <= |f|
    ensures f[i..i + 4] == [f[i], f[i + 1], f[i + 2], f[i + 3]]
  {
  }

  lemma SelectorBytes(p: Packet)
    ensures p.version >= 3 ==> Selector(p) == [p.dsrc, p.ddst, p.cmdSet, p.cmdId]
    ensures p.version < 3 ==> Selector(p) == [p.cmdSet, p.cmdId]
  {
  }

  lemma SelectorRecovered(f: bytes, p: Packet)
    requires p.Valid() && Carries(f, p)
    ensures f[14..BodyStart(p.version)] == Selector(p)
  {
    SelectorBytes(p);
    if p.version >= 3 {
      FourAt(f, 14);
    } else {
      TwoAt(f, 14);
    }
  }

  lemma BodyRecovered(f: bytes, p: Packet)
    requires p.Valid() && Carries(f, p) && f[..14] == Head(p)
    ensures f[..|f| - 2] == Body(p)
  {
    var start, n := BodyStart(p.version), |f| - 2;
    SelectorRecovered(f, p);
    SplitTwice(f, 14, start, n);
  }

  lemma SplitTwice(f: bytes, i: nat, j: nat, n: nat)
    requires i <= j <= n <= |f|
    ensures f[..n] == f[..i] + (f[i..j] + f[j..n])
  {
  }

  lemma TailRecovered(f: bytes, body: bytes)
    requires |f| == |body| + 2 && f[..|body|] == body
    requires UnpackCrc(f[|body|], f[|body| + 1]) == Crc16(body)
    ensures f == body + PackCrc(Crc16(body))
  {
    var n := |body|;
    PackOfUnpackCrc(f[n], f[n + 1]);
    assert f == f[..n] + [f[n], f[n + 1]];
  }

  lemma FrameRecovered(f: bytes, p: Packet)
    requires p.Valid() && Carries(f, p) && HeaderIntact(f) && TailIntact(f) && FixedBytes(f)
    ensures Serialize(p) == f
  {
    HeaderRecovered(f, p);
    HeadRecovered(f, p);
    BodyRecovered(f, p);
    TailRecovered(f, Body(p));
  }

  lemma SerializeFixed(p: Packet)
    requires p.Valid()
    ensures |Serialize(p)| == BodyStart(p.version) + |p.payload| + 2
    ensures FixedBytes(Serialize(p))
  {
    HeadLayout(p);
    SerializeStarts(p);
    SameStart(Serialize(p), Head(p));
  }

  /** An accepted frame serializes back to its own bytes exactly if the unchecked bytes are the usual ones. */
  lemma ReserializesExactly(f: bytes)
    requires Passes(f)
    ensures Serialize(Fields(f, false)) == f <==> f[1] >= 2 && FixedBytes(f)
  {
    var p := Fields(f, false);
    FieldsShape(f, false);
    SerializeFixed(p);
    if f[1] >= 2 && FixedBytes(f) {
      FieldsCarried(f);
      FrameRecovered(f, p);
    }
  }
}
