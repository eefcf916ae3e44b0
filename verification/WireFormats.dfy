/**
 The wire formats octet by octet: what stands at which offset of what is sent, and where what is received is
 read from.  Everything here is in terms of positions and values alone.
 */
module WireFormats {
  import opened Bytes
  import opened Cbc
  import opened Crc
  import opened Lengths
  import opened Packets
  import opened SimpleFrames
  import opened StreamDecoder
  import opened Wrappers
  import Delta2Protocol
  import Type1

  lemma LengthLowFirst(lo: byte, hi: byte)
    ensures UnpackU16(lo, hi) == lo as int + 256 * (hi as int)
  {
  }

  /** The last two octets are the CRC-16 of the rest, low one first. */
  predicate Sealed(f: bytes)
    requires |f| >= 2
  {
    var n := |f| - 2;
    Crc16(f[..n]) == UnpackCrc(f[n], f[n + 1])
  }

  lemma TailLowFirst(lo: byte, hi: byte)
    ensures UnpackCrc(lo, hi) == ((hi as bv16) << 8) | (lo as bv16)
  {
  }

  /** An octet as it stands in the payload, masked or not. */
  function Mask(b: byte, key: byte, masked: bool): byte {
    if masked then b ^ key else b
  }

  // ----- the packet of the Type1 transport -----

  predicate Laid(f: bytes, p: Packet)
    requires p.Valid()
  {
    && |f| == (if p.version >= 3 then 20 else 18) + |p.payload|
    && f[0] == 0xAA && f[1] == p.version && UnpackU16(f[2], f[3]) == |p.payload|
    && f[4] == Crc8(f[..4]) && f[5] == 0x0D
    && f[6..10] == p.seqno && f[10] == 0 && f[11] == 0 && f[12] == p.src && f[13] == p.dst
    && (p.version >= 3 ==> f[14] == p.dsrc && f[15] == p.ddst && f[16] == p.cmdSet && f[17] == p.cmdId)
    && (p.version < 3 ==> f[14] == p.cmdSet && f[15] == p.cmdId)
    && f[if p.version >= 3 then 18 else 16..|f| - 2] == p.payload
    && Sealed(f)
  }

  /** What is sent for a packet. */
  lemma SerializedOctets(p: Packet)
    requires p.Valid()
    ensures Laid(Serialize(p), p)
  {
    var f := Serialize(p);
    SerializeCarries(p);
    SerializeFixed(p);
    UnpackOfPackU16(|p.payload|);
    HeaderOctet(p);
    TailOctets(p);
  }

  lemma HeaderOctet(p: Packet)
    requires p.Valid()
    ensures |Serialize(p)| >= 5 && Serialize(p)[4] == Crc8(Serialize(p)[..4])
  {
    Type1.HeaderOfSerialized(p);
  }

  lemma TailOctets(p: Packet)
    requires p.Valid()
    ensures |Serialize(p)| >= 2 && Sealed(Serialize(p))
  {
    var f, b := Serialize(p), Body(p);
    assert f[..|b|] == b;
    UnpackOfPackCrc(Crc16(b));
  }

  /** The packet that stands in this data, its payload masked or not. */
  predicate Reads(d: bytes, p: Packet, masked: bool) {
    && |d| >= 5
    && var n, start := UnpackU16(d[2], d[3]), if d[1] == 2 then 16 else 18;
    && |d| >= start + n + 2
    && p.version == d[1] && p.src == d[12] && p.dst == d[13] && p.seqno == d[6..10]
    && (d[1] == 2 ==> p.cmdSet == d[14] && p.cmdId == d[15] && p.dsrc == 0 && p.ddst == 0)
    && (d[1] != 2 ==> p.dsrc == d[14] && p.ddst == d[15] && p.cmdSet == d[16] && p.cmdId == d[17])
    && |p.payload| == n
    && forall i :: 0 <= i < n ==> p.payload[i] == Mask(d[start + i], d[6], masked)
  }

  lemma UnmaskedOctet(payload: bytes, key: byte, i: nat)
    requires i < |payload|
    ensures XorPayload(payload, key)[i] == Mask(payload[i], key, true)
    ensures key == 0 ==> payload[i] == Mask(payload[i], key, true)
  {
    XorZero(payload[i]);
  }

  /** Unmasking takes every octet of the payload with the first octet of the sequence number. */
  lemma UnmaskedOctets(p: Packet, masked: bool)
    requires p.Valid()
    ensures var q := Unmask(p, masked);
      && q == p.(payload := q.payload) && |q.payload| == |p.payload|
      && forall i :: 0 <= i < |p.payload| ==> q.payload[i] == Mask(p.payload[i], p.seqno[0], masked)
  {
    forall i | 0 <= i < |p.payload|
      ensures Unmask(p, masked).payload[i] == Mask(p.payload[i], p.seqno[0], masked)
    {
      UnmaskedOctet(p.payload, p.seqno[0], i);
    }
  }

  /** Whatever is accepted is what stands there. */
  lemma AcceptedOctets(d: bytes, masked: bool)
    requires FromBytes(d, masked).Ok?
    ensures Reads(d, FromBytes(d, masked).value, masked)
  {
    var f := d[..FrameLength(d)];
    FrameLengthOfPrefix(d);
    assert f[1] == d[1] && f[2] == d[2] && f[3] == d[3];
    FrameOctets(f, masked);
    ReadsOn(f, d, Fields(f, masked), masked);
  }

  lemma MaskIsExclusiveOr(b: byte, key: byte)
    ensures Mask(b, key, true) == b ^ key && Mask(b, key, false) == b
  {
  }

  /** With the exclusive or on, every payload octet is the one on the wire with the first sequence octet. */
  lemma UnmaskedPayload(d: bytes, i: nat)
    requires FromBytes(d, true).Ok? && i < |FromBytes(d, true).value.payload|
    ensures var start := if d[1] == 2 then 16 else 18;
            |d| > start + i && FromBytes(d, true).value.payload[i] == d[start + i] ^ d[6]
  {
    AcceptedOctets(d, true);
    MaskIsExclusiveOr(d[(if d[1] == 2 then 16 else 18) + i], d[6]);
  }

  lemma FrameEnds(f: bytes)
    requires |f| >= 5 && |f| == FrameLength(f)
    ensures |f| == PayloadStart(f[1]) + UnpackU16(f[2], f[3]) + 2
  {
  }

  lemma FieldsOfTwo(f: bytes, p: Packet)
    requires |f| >= 5 && |f| == FrameLength(f) && p == RawFields(f) && f[1] == 2
    ensures p.version == f[1] && p.src == f[12] && p.dst == f[13] && p.seqno == f[6..10]
    ensures p.cmdSet == f[14] && p.cmdId == f[15] && p.dsrc == 0 && p.ddst == 0
    ensures p.payload == f[16..|f| - 2]
  {
  }

  lemma FieldsOfOthers(f: bytes, p: Packet)
    requires |f| >= 5 && |f| == FrameLength(f) && p == RawFields(f) && f[1] != 2
    ensures p.version == f[1] && p.src == f[12] && p.dst == f[13] && p.seqno == f[6..10]
    ensures p.dsrc == f[14] && p.ddst == f[15] && p.cmdSet == f[16] && p.cmdId == f[17]
    ensures p.payload == f[18..|f| - 2]
  {
  }

  lemma StretchAt(f: bytes, payload: bytes, start: nat, n: nat)
    requires 6 < start && start + n + 2 == |f| && payload == f[start..|f| - 2]
    ensures |payload| == n && forall i :: 0 <= i < n ==> payload[i] == Mask(f[start + i], f[6], false)
  {
  }

  lemma RawOctets(f: bytes)
    requires |f| >= 5 && |f| == FrameLength(f)
    ensures Reads(f, RawFields(f), false)
  {
    var p, n := RawFields(f), UnpackU16(f[2], f[3]);
    FrameEnds(f);
    if f[1] == 2 {
      FieldsOfTwo(f, p);
      StretchAt(f, p.payload, 16, n);
    } else {
      FieldsOfOthers(f, p);
      StretchAt(f, p.payload, 18, n);
    }
  }

  lemma FrameOctets(f: bytes, masked: bool)
    requires |f| >= 5 && |f| == FrameLength(f)
    ensures Reads(f, Fields(f, masked), masked)
  {
    RawOctets(f);
    UnmaskedOctets(RawFields(f), masked);
    MaskedReads(f, RawFields(f), Fields(f, masked), masked);
  }

  lemma MaskedReads(f: bytes, p: Packet, q: Packet, masked: bool)
    requires Reads(f, p, false) && q == p.(payload := q.payload) && |q.payload| == |p.payload| && p.Valid()
    requires forall i :: 0 <= i < |p.payload| ==> q.payload[i] == Mask(p.payload[i], p.seqno[0], masked)
    ensures Reads(f, q, masked)
  {
    var n, start := UnpackU16(f[2], f[3]), if f[1] == 2 then 16 else 18;
    assert p.seqno[0] == f[6];
    forall i | 0 <= i < n
      ensures q.payload[i] == Mask(f[start + i], f[6], masked)
    {
      assert p.payload[i] == Mask(f[start + i], f[6], false);
    }
  }

  lemma ReadsOn(f: bytes, d: bytes, p: Packet, masked: bool)
    requires f <= d && Reads(f, p, masked)
    ensures Reads(d, p, masked)
  {
    assert f[6..10] == d[6..10];
  }

  // ----- the Type1 transport -----

  /** How many octets of the decrypted body belong to the packet that this header announces. */
  function BodyOctets(f: bytes): nat
    requires |f| >= 5
  {
    (if f[1] >= 3 then 15 else 13) + UnpackU16(f[2], f[3])
  }

  /** A whole frame: five octets in the clear and as many blocks of sixteen as the body needs. */
  function FrameOctetCount(f: bytes): nat
    requires |f| >= 5
  {
    5 + (BodyOctets(f) + 15) / 16 * 16
  }

  lemma FrameSizeOctets(f: bytes)
    requires |f| >= 5
    ensures Type1.FrameSize(f) == FrameOctetCount(f) && Type1.BodySize(f) == BodyOctets(f)
  {
  }

  /** What a whole frame hides: its header, and the octets of the body behind it. */
  function Opened(k: Key, frame: bytes): bytes
    requires |frame| >= 5 && |frame| == FrameOctetCount(frame)
  {
    frame[..5] + DecryptBlocks(k, k.iv, frame[5..])[..BodyOctets(frame)]
  }

  /**
   A whole frame yields a packet if and only if its header is intact, its version is at least 2 and the
   decrypted packet is sealed; and then the packet that stands in it, unmasked.
   */
  lemma RecoveredOctets(k: Key, frame: bytes)
    requires |frame| >= 5 && |frame| == FrameOctetCount(frame)
    ensures |frame| == Type1.FrameSize(frame)
    ensures var raw, out := Opened(k, frame), Type1.Recover(k, frame);
      && |raw| == 5 + BodyOctets(frame)
      && (out != [] <==>
            frame[0] == 0xAA && Crc8(frame[..4]) == frame[4] && frame[1] >= 2 && Sealed(raw))
      && (out != [] ==> |out| == 1 && Reads(raw, out[0], true))
  {
    FrameSizeOctets(frame);
    var raw := Opened(k, frame);
    OpenedHeader(k, frame);
    if frame[1] >= 2 {
      AcceptedSealed(raw);
    } else {
      Type1.OldVersionYieldsNothing(k, frame);
    }
    if FromBytes(raw, true).Ok? {
      AcceptedOctets(raw, true);
    }
  }

  lemma OpenedHeader(k: Key, frame: bytes)
    requires |frame| >= 5 && |frame| == FrameOctetCount(frame)
    ensures var raw := Opened(k, frame);
      && |raw| == 5 + BodyOctets(frame) && raw[..4] == frame[..4]
      && raw[0] == frame[0] && raw[1] == frame[1] && raw[2] == frame[2] && raw[3] == frame[3] && raw[4] == frame[4]
  {
  }

  /** A packet of exactly the announced length is accepted if and only if its header is intact and it is sealed. */
  lemma AcceptedSealed(raw: bytes)
    requires |raw| >= 5 && raw[1] >= 2 && |raw| == 5 + BodyOctets(raw)
    ensures FromBytes(raw, true).Ok? <==> raw[0] == 0xAA && Crc8(raw[..4]) == raw[4] && Sealed(raw)
  {
    assert |raw| == FrameLength(raw) && raw[..|raw|] == raw;
    ParseDecides(raw, true);
  }

  /** What the decoder keeps for later: nothing, or the start of a frame that is not complete. */
  lemma KeptOctets(k: Key, s: bytes)
    ensures var r := Run(Type1.Decoder(k), s).rest;
            r != [] ==>
              && r[0] == 0xAA
              && (|r| >= 5 ==> Crc8(r[..4]) == r[4] && |r| < FrameOctetCount(r))
  {
    Type1.RestIsBounded(k, s);
    var r := Run(Type1.Decoder(k), s).rest;
    if |r| >= 5 {
      FrameSizeOctets(r);
    }
  }

  /** What arrives of a packet that is sent. */
  predicate Arrived(p: Packet, q: Packet)
    requires p.Valid()
  {
    && q.src == p.src && q.dst == p.dst && q.cmdSet == p.cmdSet && q.cmdId == p.cmdId
    && q.version == p.version && q.seqno == p.seqno
    && q.dsrc == (if p.version == 2 then 0 else p.dsrc) && q.ddst == (if p.version == 2 then 0 else p.ddst)
    && |q.payload| == |p.payload|
    && forall i :: 0 <= i < |p.payload| ==> q.payload[i] == Mask(p.payload[i], p.seqno[0], true)
  }

  lemma ReceivedOctets(p: Packet)
    requires p.Valid()
    ensures Arrived(p, Received(p, true))
  {
    UnmaskedOctets(Stripped(p), true);
  }

  /** These packets, in order, are what arrives of those sent; those of version 0 and 1 do not arrive. */
  predicate AllArrived(sent: seq<Type1.Sent>, got: seq<Packet>) {
    if sent == [] then got == []
    else if sent[0].packet.version < 2 then AllArrived(sent[1..], got)
    else got != [] && Arrived(sent[0].packet, got[0]) && AllArrived(sent[1..], got[1..])
  }

  lemma {:induction false} ReceivedAllOctets(sent: seq<Type1.Sent>)
    ensures AllArrived(sent, Type1.ReceivedAll(sent))
    decreases |sent|
  {
    if sent != [] {
      var got := Type1.ReceivedAll(sent[1..]);
      ReceivedAllOctets(sent[1..]);
      if sent[0].packet.version >= 2 {
        var q := Received(sent[0].packet, true);
        ReceivedOctets(sent[0].packet);
        assert ([q] + got)[0] == q && ([q] + got)[1..] == got;
      } else {
        assert [] + got == got;
      }
    }
  }

  /** Octet by octet, what comes back of encoded packets between inert garbage, cut anywhere. */
  lemma ListArrives(k: Key, sent: seq<Type1.Sent>, chunks: seq<bytes>)
    requires ValidKey(k) && Type1.AllIntact(k, sent) && chunks != [] && Concat(chunks) == Type1.Spell(sent)
    ensures var d := Feed(Type1.Decoder(k), [], chunks);
            AllArrived(sent, d.packets) && d.rest == []
  {
    Type1.ListRoundTrip(k, sent, chunks);
    ReceivedAllOctets(sent);
  }

  // ----- the handshake frame -----

  /** A seal at the end of a stretch, told by the octets around it. */
  lemma SealedStretch(f: bytes, n: nat)
    requires 8 + n <= |f|
    ensures Sealed(f[2..8 + n]) <==> TailMatches(f[2..6 + n], f[6 + n], f[7 + n])
  {
    var t := f[2..8 + n];
    assert t[..4 + n] == f[2..6 + n] && t[4 + n] == f[6 + n] && t[5 + n] == f[7 + n];
  }

  lemma SimpleIsSealed(payload: bytes)
    requires |payload| <= 65535
    ensures Sealed(SimpleFrames.Frame(payload)[2..])
  {
    var f, n := SimpleFrames.Frame(payload), |payload|;
    FrameLayout(payload);
    TailOfFrame(payload);
    SealedStretch(f, n);
    assert f[2..8 + n] == f[2..];
  }

  /** What is sent for a payload. */
  lemma SimpleOctets(payload: bytes)
    ensures EncodeSimple(payload).None? <==> |payload| > 65535
    ensures EncodeSimple(payload).Some? ==>
              var f, n := EncodeSimple(payload).value, |payload|;
              && |f| == 8 + n && f[0] == 0x5A && f[1] == 0x5A && f[2] == 0x11 && f[3] == 0x01
              && UnpackU16(f[4], f[5]) == n && f[6..6 + n] == payload && Sealed(f[2..])
  {
    if |payload| <= 65535 {
      FrameLayout(payload);
      UnpackOfPackU16(|payload|);
      SimpleIsSealed(payload);
    }
  }

  predicate MarksAt(data: bytes, i: int) {
    0 <= i && i + 1 < |data| && data[i] == 0x5A && data[i + 1] == 0x5A
  }

  /** The payload of the frame that begins here. */
  predicate SimpleAt(d: bytes, payload: bytes) {
    && |d| >= 8
    && var n := UnpackU16(d[4], d[5]);
    && |d| >= 8 + n && Sealed(d[2..8 + n]) && payload == d[6..6 + n]
  }

  lemma MarkedPayload(d: bytes, n: nat, payload: bytes)
    requires 8 + n <= |d|
    ensures ParseAt(d, n) == Some(payload) <==> Sealed(d[2..8 + n]) && payload == d[6..6 + n]
  {
    SealedStretch(d, n);
    Within(d, n);
  }

  lemma Within(d: bytes, n: nat)
    requires 6 + n <= |d|
    ensures d[2..6 + n][4..] == d[6..6 + n]
  {
  }

  lemma MarkedShort(d: bytes)
    requires |d| < 8 || |d| < 8 + UnpackU16(d[4], d[5])
    ensures ParseMarked(d) == None
  {
  }

  lemma MarkedOctets(d: bytes, payload: bytes)
    ensures ParseMarked(d) == Some(payload) <==> SimpleAt(d, payload)
  {
    if |d| < 8 || |d| < 8 + UnpackU16(d[4], d[5]) {
      MarkedShort(d);
    } else {
      var n := UnpackU16(d[4], d[5]);
      ParseWithLength(d, n);
      MarkedPayload(d, n, payload);
    }
  }

  /** What is found: the payload of the frame at the first place where two marks stand, if it is all there. */
  lemma FoundOctets(data: bytes, payload: bytes)
    ensures ParseSimple(data) == Some(payload) <==>
            exists start: nat ::
              && MarksAt(data, start) && (forall j :: 0 <= j < start ==> !MarksAt(data, j))
              && SimpleAt(data[start..], payload)
  {
    var found := Find(data);
    if found.Some? {
      MarkedOctets(data[found.value..], payload);
      assert MarkAt(data, found.value);
      forall j | 0 <= j < found.value ensures !MarksAt(data, j) {
        assert !MarkAt(data, j);
      }
    }
    forall start: nat
      | MarksAt(data, start) && (forall j :: 0 <= j < start ==> !MarksAt(data, j))
      ensures found == Some(start)
    {
      assert MarkAt(data, start);
      if found.value < start {
        assert MarksAt(data, found.value);
      }
    }
  }

  // ----- the Delta 2 frame -----

  /** What is sent for a kind and a payload; the kind is reduced to its low octet, for negative kinds as well. */
  lemma Delta2Octets(kind: int, payload: bytes)
    ensures Delta2Protocol.EncodePacket(kind, payload).None? <==> |payload| > 255
    ensures Delta2Protocol.EncodePacket(kind, payload).Some? ==>
              var f := Delta2Protocol.EncodePacket(kind, payload).value;
              && |f| == 3 + |payload| && f[0] == 0xAA && f[1] as int == kind % 256 && f[2] as int == |payload|
              && f[3..] == payload
  {
    LowOctetValue(kind);
    OctetValue(|payload| % 256);
    if |payload| <= 255 {
      OctetValue(|payload|);
    }
  }
}
