/** The unencrypted 5A5A frame of the authentication handshake, found in a noisy buffer. */
module SimpleFrames {
  import opened Bytes
  import opened Crc
  import opened Lengths
  import opened Orbits
  import opened Wrappers

  const MARK: byte := 0x5A
  const SIMPLE_FRAME_TYPE: byte := 0x11
  const DEFAULT_PAYLOAD_TYPE: byte := 0x01

  function Inner(payload: bytes): (r: bytes)
    requires |payload| <= 0xFFFF
    ensures |r| == 4 + |payload|
  {
    [SIMPLE_FRAME_TYPE, DEFAULT_PAYLOAD_TYPE] + PackU16(|payload|) + payload
  }

  function Frame(payload: bytes): (r: bytes)
    requires |payload| <= 0xFFFF
    ensures |r| == 8 + |payload|
  {
    [MARK, MARK] + Inner(payload) + PackCrc(Crc16(Inner(payload)))
  }

  /** A payload whose length does not fit the length field cannot be packed. */
  function EncodeSimple(payload: bytes): Option<bytes> {
    if |payload| > 0xFFFF then None else Some(Frame(payload))
  }

  predicate MarkAt(data: bytes, i: int) {
    0 <= i && i + 1 < |data| && data[i] == MARK && data[i + 1] == MARK
  }

  ghost predicate NoMark(data: bytes) {
    forall i :: !MarkAt(data, i)
  }

  /** The first place where two marks stand next to each other. */
  function Find(data: bytes): (r: Option<nat>)
    ensures r.None? ==> NoMark(data)
    ensures r.Some? ==> MarkAt(data, r.value) && forall i :: i < r.value ==> !MarkAt(data, i)
  {
    FindFrom(data, 0)
  }

  function FindFrom(data: bytes, from: nat): (r: Option<nat>)
    requires forall i :: i < from ==> !MarkAt(data, i)
    ensures r.None? ==> NoMark(data)
    ensures r.Some? ==> MarkAt(data, r.value) && forall i :: i < r.value ==> !MarkAt(data, i)
    decreases |data| - from
  {
    if from + 1 >= |data| then None
    else if MarkAt(data, from) then Some(from)
    else FindFrom(data, from + 1)
  }

  predicate TailMatches(inner: bytes, lo: byte, hi: byte) {
    Crc16(inner) == UnpackCrc(lo, hi)
  }

  /** What the parser does with the buffer from the first mark on, given the length field. */
  function ParseAt(d: bytes, n: nat): Option<bytes>
    requires 8 + n <= |d|
  {
    var inner := d[2..6 + n];
    if TailMatches(inner, d[6 + n], d[7 + n]) then Some(inner[4..]) else None
  }

  function ParseMarked(d: bytes): Option<bytes> {
    if |d| < 8 then None
    else
      var length := UnpackU16(d[4], d[5]);
      if 8 + length > |d| then None else ParseAt(d, length)
  }

  function ParseSimple(data: bytes): Option<bytes> {
    match Find(data)
    case None => None
    case Some(start) => ParseMarked(data[start..])
  }

  // ----- the tail check -----

  lemma ParseWithLength(d: bytes, n: nat)
    requires 8 + n <= |d| && UnpackU16(d[4], d[5]) == n
    ensures ParseMarked(d) == ParseAt(d, n)
  {
  }

  lemma TailResidue(d: bytes, n: nat)
    requires 8 + n <= |d|
    ensures ParseAt(d, n).Some? <==> Crc16(d[2..8 + n]) == 0
  {
    assert d[2..8 + n] == d[2..6 + n] + [d[6 + n], d[7 + n]];
    Crc16Residue(d[2..6 + n], d[6 + n], d[7 + n]);
  }

  /** A complete frame is accepted exactly when the register, run over all but the marks, ends at zero. */
  lemma AcceptedIffResidueZero(d: bytes, n: nat)
    requires 8 + n <= |d| && UnpackU16(d[4], d[5]) == n
    ensures ParseMarked(d).Some? <==> Crc16(d[2..8 + n]) == 0
  {
    ParseWithLength(d, n);
    TailResidue(d, n);
  }

  // ----- round trip in a noisy buffer -----

  lemma FrameLayout(payload: bytes)
    requires |payload| <= 0xFFFF
    ensures var f, n := Frame(payload), |payload|;
      && f[0] == MARK && f[1] == MARK && f[2] == SIMPLE_FRAME_TYPE && f[3] == DEFAULT_PAYLOAD_TYPE
      && f[4] == LowOctet(n) && f[5] == HighOctet(n) && f[6..6 + n] == payload
      && f[2..6 + n] == Inner(payload)
      && [f[6 + n], f[7 + n]] == PackCrc(Crc16(Inner(payload)))
  {
    var f, n, head := Frame(payload), |payload|, [MARK, MARK] + Inner(payload);
    assert |head| == 6 + n;
    assert f[..6 + n] == head;
  }

  /** What follows a frame does not change how it reads. */
  lemma ParseAtPrefix(f: bytes, suffix: bytes, n: nat)
    requires 8 + n == |f|
    ensures ParseAt(f + suffix, n) == ParseAt(f, n)
    ensures (f + suffix)[4] == f[4] && (f + suffix)[5] == f[5]
  {
    assert (f + suffix)[2..6 + n] == f[2..6 + n];
  }

  lemma ParseFrame(payload: bytes, suffix: bytes)
    requires |payload| <= 0xFFFF
    ensures ParseMarked(Frame(payload) + suffix) == Some(payload)
  {
    var f, n := Frame(payload), |payload|;
    FrameLayout(payload);
    UnpackOfPackU16(n);
    TailOfFrame(payload);
    ParseAtPrefix(f, suffix, n);
    ParseWithLength(f + suffix, n);
    assert Inner(payload)[4..] == payload;
  }

  lemma TailOfFrame(payload: bytes)
    requires |payload| <= 0xFFFF
    ensures var f, n := Frame(payload), |payload|;
            TailMatches(Inner(payload), f[6 + n], f[7 + n])
  {
    var f, n, c := Frame(payload), |payload|, Crc16(Inner(payload));
    FrameLayout(payload);
    UnpackOfPackCrc(c);
    assert f[6 + n] == PackCrc(c)[0] && f[7 + n] == PackCrc(c)[1];
  }

  predicate EndsWithMark(g: bytes) {
    g != [] && g[|g| - 1] == MARK
  }

  /** The search stops at the frame exactly when the garbage neither holds a mark nor ends with half of one. */
  lemma FindsFrameExactly(garbage: bytes, f: bytes, suffix: bytes)
    requires |f| >= 2 && f[0] == MARK && f[1] == MARK
    ensures Find(garbage + (f + suffix)) == Some(|garbage|) <==> NoMark(garbage) && !EndsWithMark(garbage)
  {
    var d, n := garbage + (f + suffix), |garbage|;
    assert MarkAt(d, n);
    assert forall i :: i + 1 < n ==> MarkAt(d, i) == MarkAt(garbage, i);
    assert n > 0 ==> (MarkAt(d, n - 1) <==> EndsWithMark(garbage));
    assert NoMark(garbage) <==> forall i :: i + 1 < n ==> !MarkAt(d, i);
  }

  /** A payload survives encoding, leading garbage and trailing bytes. */
  lemma ParseEncoded(garbage: bytes, payload: bytes, suffix: bytes)
    requires |payload| <= 0xFFFF && NoMark(garbage) && !EndsWithMark(garbage)
    ensures ParseSimple(garbage + (Frame(payload) + suffix)) == Some(payload)
  {
    var f := Frame(payload);
    FrameLayout(payload);
    FindsFrameExactly(garbage, f, suffix);
    assert (garbage + (f + suffix))[|garbage|..] == f + suffix;
    ParseFrame(payload, suffix);
  }

  /** Read one byte early, the type field is taken for the low half of the length. */
  lemma ShiftedReadingFails(payload: bytes, suffix: bytes)
    requires |payload| <= 0xFFFF
    ensures ParseMarked([MARK] + (Frame(payload) + suffix)) != Some(payload)
  {
    var f, n := Frame(payload), |payload|;
    var d := [MARK] + (f + suffix);
    FrameLayout(payload);
    assert d[4] == f[3] && d[5] == f[4];
    var length := UnpackU16(d[4], d[5]);
    if ParseMarked(d) == Some(payload) {
      ParseWithLength(d, length);
      ParsedIsSlice(d, length, payload);
      ShiftedLength(n);
      FrameEndsAtZero(payload);
      ShiftedBytes(f, suffix);
      MovedFrameFails(f[2..264], f[264]);
      TailResidue(d, n);
    }
  }

  lemma ParsedIsSlice(d: bytes, n: nat, payload: bytes)
    requires 8 + n <= |d| && ParseAt(d, n) == Some(payload)
    ensures |payload| == n
  {
  }

  lemma FrameEndsAtZero(payload: bytes)
    requires |payload| <= 0xFFFF
    ensures Crc16(Frame(payload)[2..8 + |payload|]) == 0
  {
    var f := Frame(payload);
    assert f + [] == f;
    ParseFrame(payload, []);
    FrameLayout(payload);
    UnpackOfPackU16(|payload|);
    AcceptedIffResidueZero(f, |payload|);
  }

  lemma ShiftedBytes(f: bytes, suffix: bytes)
    requires |f| == 265 && f[1] == MARK
    ensures var d := [MARK] + (f + suffix);
            d[2..265] == [MARK] + f[2..264] && f[2..265] == f[2..264] + [f[264]]
  {
  }

  lemma ShiftedLength(n: nat)
    requires n <= 0xFFFF && n == UnpackU16(DEFAULT_PAYLOAD_TYPE, LowOctet(n))
    ensures n == 257
  {
    LowOctetValue(n);
    OnlyLength(n);
  }

  lemma OnlyLength(n: nat)
    requires n <= 0xFFFF && n == 1 + 256 * (n % 256)
    ensures n == 257
  {
  }

  lemma FindsShifted(garbage: bytes, f: bytes)
    requires |f| >= 2 && f[0] == MARK && f[1] == MARK
    requires NoMark(garbage) && EndsWithMark(garbage)
    ensures Find(garbage + f) == Some(|garbage| - 1)
    ensures (garbage + f)[|garbage| - 1..] == [MARK] + f
  {
    var d, n := garbage + f, |garbage|;
    assert MarkAt(d, n - 1);
    assert forall i :: i + 1 < n ==> MarkAt(d, i) == MarkAt(garbage, i);
  }

  lemma FrameRecoveredExactly(garbage: bytes, payload: bytes, suffix: bytes)
    requires |payload| <= 0xFFFF && NoMark(garbage)
    ensures ParseSimple(garbage + (Frame(payload) + suffix)) == Some(payload) <==> !EndsWithMark(garbage)
  {
    if EndsWithMark(garbage) {
      var f := Frame(payload) + suffix;
      FrameLayout(payload);
      FindsShifted(garbage, f);
      ShiftedReadingFails(payload, suffix);
    } else {
      ParseEncoded(garbage, payload, suffix);
    }
  }

  /**
   A payload is encoded if and only if its length fits, and behind mark-free garbage, whatever follows, parsing
   recovers it if and only if the garbage does not end with half a mark.
   */
  lemma RecoveredExactly(garbage: bytes, payload: bytes, suffix: bytes)
    requires NoMark(garbage)
    ensures EncodeSimple(payload).Some? <==> |payload| <= 0xFFFF
    ensures EncodeSimple(payload).Some? ==>
              var frame := EncodeSimple(payload).value;
              (ParseSimple(garbage + (frame + suffix)) == Some(payload) <==> !EndsWithMark(garbage))
  {
    if |payload| <= 0xFFFF {
      FrameRecoveredExactly(garbage, payload, suffix);
    }
  }
}
