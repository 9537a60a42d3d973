/** The software line coding of radio_soft_phy.cpp: every byte becomes ten bits on the air, and the
    receiver searches an unaligned bit stream for a frame with a matching CRC.  The main results are
    that the search is sound and complete, and that a transmitted frame is found and parses back. */
module SoftPhy {
  import opened Bytes
  import opened Words
  import opened Frame
  import opened FrameCheck
  import opened Commands

  const RADIO_PACKET_BUFFER_SIZE: nat := 64
  const UART_PROBE_MAX_BIT_OFFSET: nat := 10

  // ---- Ten bits a byte

  /** Start bit 0, eight data bits with the least significant first, stop bit 1. */
  predicate UartBit(b: byte, k: nat)
    requires k < 10
  {
    if k == 0 then false else if k == 9 then true else Bit(b, k - 1)
  }

  /** Bit `pos` of the line-coded form of `data`. */
  predicate LineBit(data: seq<byte>, pos: nat)
    requires pos < 10 * |data|
  {
    UartBit(data[pos / 10], pos % 10)
  }

  /** Bit `pos` of a packed buffer, most significant bit of each byte first. */
  predicate RawBit(raw: seq<byte>, pos: nat)
    requires pos < 8 * |raw|
  {
    Bit(raw[pos / 8], 7 - pos % 8)
  }

  /** The first data bit counts 1 and the last one 128. */
  lemma UartBitsWeigh(b: byte)
    ensures !UartBit(b, 0) && UartBit(b, 9)
    ensures b ==
            (if UartBit(b, 1) then 0x01 else 0) | (if UartBit(b, 2) then 0x02 else 0)
            | (if UartBit(b, 3) then 0x04 else 0) | (if UartBit(b, 4) then 0x08 else 0)
            | (if UartBit(b, 5) then 0x10 else 0) | (if UartBit(b, 6) then 0x20 else 0)
            | (if UartBit(b, 7) then 0x40 else 0) | (if UartBit(b, 8) then 0x80 else 0)
  {
    hide Bit;
    BitsWeigh(b);
  }

  /** In a packed byte the first bit counts 128 and the last one 1. */
  lemma RawBitsWeigh(raw: seq<byte>, i: nat)
    requires i < |raw|
    ensures raw[i] ==
            (if RawBit(raw, 8 * i + 0) then 0x80 else 0) | (if RawBit(raw, 8 * i + 1) then 0x40 else 0)
            | (if RawBit(raw, 8 * i + 2) then 0x20 else 0) | (if RawBit(raw, 8 * i + 3) then 0x10 else 0)
            | (if RawBit(raw, 8 * i + 4) then 0x08 else 0) | (if RawBit(raw, 8 * i + 5) then 0x04 else 0)
            | (if RawBit(raw, 8 * i + 6) then 0x02 else 0) | (if RawBit(raw, 8 * i + 7) then 0x01 else 0)
  {
    hide Bit;
    BitsWeigh(raw[i]);
  }

  lemma BitsWeigh(b: byte)
    ensures b ==
            (if Bit(b, 7) then 0x80 else 0) | (if Bit(b, 6) then 0x40 else 0)
            | (if Bit(b, 5) then 0x20 else 0) | (if Bit(b, 4) then 0x10 else 0)
            | (if Bit(b, 3) then 0x08 else 0) | (if Bit(b, 2) then 0x04 else 0)
            | (if Bit(b, 1) then 0x02 else 0) | (if Bit(b, 0) then 0x01 else 0)
  {
  }

  /** Number of bytes that hold `bits` bits. */
  function PackedSize(bits: nat): nat {
    (bits + 7) / 8
  }

  /** `encoded` holds the line-coded form of `data`, padded with zero bits to a whole byte. */
  ghost predicate IsEncoded(data: seq<byte>, encoded: seq<byte>) {
    && |encoded| == PackedSize(10 * |data|)
    && (forall pos :: 0 <= pos < 10 * |data| ==> RawBit(encoded, pos) == LineBit(data, pos))
    && (forall pos :: 10 * |data| <= pos < 8 * |encoded| ==> !RawBit(encoded, pos))
  }

  // ---- Encoding

  lemma SetBit(b: byte, i: nat, j: nat)
    requires i < 8 && j < 8
    ensures Bit(b | Mask(i), j) == (i == j || Bit(b, j))
  {
    if i == 0 {} else if i == 1 {} else if i == 2 {} else if i == 3 {}
    else if i == 4 {} else if i == 5 {} else if i == 6 {} else {}
  }

  lemma Positions(i: nat, j: nat)
    requires j < 10
    ensures (10 * i + j) / 10 == i && (10 * i + j) % 10 == j
  {
  }

  method WriteBit(encoded: array<byte>, pos: nat, bit: bool)
    requires pos < 8 * encoded.Length
    modifies encoded
    ensures forall p :: 0 <= p < 8 * encoded.Length ==>
              RawBit(encoded[..], p) == if p == pos && bit then true else old(RawBit(encoded[..], p))
  {
    hide Bit, Mask;
    ghost var before := encoded[..];
    if bit {
      encoded[pos / 8] := encoded[pos / 8] | Mask(7 - pos % 8);
      forall p | 0 <= p < 8 * encoded.Length
        ensures RawBit(encoded[..], p) == (p == pos || RawBit(before, p))
      {
        if p / 8 == pos / 8 {
          SetBit(before[p / 8], 7 - pos % 8, 7 - p % 8);
        }
      }
    }
  }

  /** The bits below `n` are those of the line coding and the others are still 0. */
  ghost predicate EncodedUpTo(data: seq<byte>, encoded: seq<byte>, n: nat) {
    && n <= 10 * |data| <= 8 * |encoded|
    && (forall pos :: 0 <= pos < n ==> RawBit(encoded, pos) == LineBit(data, pos))
    && (forall pos :: n <= pos < 8 * |encoded| ==> !RawBit(encoded, pos))
  }

  method EncodeByte(data: seq<byte>, i: nat, encoded: array<byte>)
    requires i < |data| && EncodedUpTo(data, encoded[..], 10 * i)
    modifies encoded
    ensures EncodedUpTo(data, encoded[..], 10 * (i + 1))
  {
    hide RawBit, Bit;
    var bitPos := 10 * i;
    Positions(i, 0);
    WriteBit(encoded, bitPos, false);
    bitPos := bitPos + 1;
    for k := 0 to 8
      invariant bitPos == 10 * i + 1 + k
      invariant EncodedUpTo(data, encoded[..], bitPos)
    {
      Positions(i, k + 1);
      WriteBit(encoded, bitPos, Bit(data[i], k));
      bitPos := bitPos + 1;
    }
    Positions(i, 9);
    WriteBit(encoded, bitPos, true);
  }

  lemma ZerosHaveNoBits(raw: seq<byte>)
    requires forall i :: 0 <= i < |raw| ==> raw[i] == 0
    ensures forall pos :: 0 <= pos < 8 * |raw| ==> !RawBit(raw, pos)
  {
    forall pos | 0 <= pos < 8 * |raw|
      ensures !RawBit(raw, pos)
    {
      BitsXor(7 - pos % 8);
    }
  }

  method UartEncodePacket(data: seq<byte>, encoded: array<byte>) returns (n: nat)
    requires |data| < 256
    modifies encoded
    ensures n == if encoded.Length < PackedSize(10 * |data|) then 0 else PackedSize(10 * |data|)
    ensures n != 0 ==> IsEncoded(data, encoded[..n])
  {
    hide RawBit, LineBit;
    if |data| == 0 || encoded.Length == 0 {
      return 0;
    }
    for i := 0 to encoded.Length
      invariant forall k :: 0 <= k < i ==> encoded[k] == 0
    {
      encoded[i] := 0;
    }
    n := PackedSize(10 * |data|);
    if n > encoded.Length {
      return 0;
    }
    ZerosHaveNoBits(encoded[..]);
    for i := 0 to |data|
      invariant EncodedUpTo(data, encoded[..], 10 * i)
    {
      EncodeByte(data, i, encoded);
    }
    PrefixBits(encoded[..], n);
  }

  lemma PrefixBits(raw: seq<byte>, n: nat)
    requires n <= |raw|
    ensures forall pos :: 0 <= pos < 8 * n ==> RawBit(raw[..n], pos) == RawBit(raw, pos)
  {
  }

  // ---- Decoding

  /** The low k data bits of the ten-bit group at `pos`. */
  function Gather(raw: seq<byte>, pos: nat, k: nat): byte
    requires pos + 10 <= 8 * |raw| && k <= 8
  {
    if k == 0 then 0
    else if RawBit(raw, pos + k) then Gather(raw, pos, k - 1) | Mask(k - 1)
    else Gather(raw, pos, k - 1)
  }

  lemma {:induction false} GatherBits(raw: seq<byte>, pos: nat, k: nat, i: nat)
    requires pos + 10 <= 8 * |raw| && k <= 8 && i < 8
    ensures Bit(Gather(raw, pos, k), i) == (i < k && RawBit(raw, pos + 1 + i))
  {
    hide RawBit, Bit, Mask;
    if k == 0 {
      BitsXor(i);
    } else {
      GatherBits(raw, pos, k - 1, i);
      SetBit(Gather(raw, pos, k - 1), k - 1, i);
    }
  }

  /** A start bit and a stop bit nine places on. */
  predicate Framed(raw: seq<byte>, pos: nat) {
    pos + 10 <= 8 * |raw| && !RawBit(raw, pos) && RawBit(raw, pos + 9)
  }

  /** Up to `max` bytes decoded from bit `pos` on; decoding stops at the first group that is not framed. */
  function DecodeAt(raw: seq<byte>, pos: nat, max: nat): (d: seq<byte>)
    ensures |d| <= max
    decreases max
  {
    if max == 0 || !Framed(raw, pos) then []
    else [Gather(raw, pos, 8)] + DecodeAt(raw, pos + 10, max - 1)
  }

  method DecodeUartProbe(raw: seq<byte>, bitOffset: nat, decoded: array<byte>) returns (n: nat)
    requires |raw| < 256
    modifies decoded
    ensures n <= decoded.Length
    ensures decoded[..n] == DecodeAt(raw, bitOffset, decoded.Length)
  {
    hide RawBit, Mask;
    var bitPos: nat := bitOffset;
    var totalBits := 8 * |raw|;
    n := 0;
    while bitPos + 10 <= totalBits && n < decoded.Length
      invariant n <= decoded.Length
      invariant decoded[..n] + DecodeAt(raw, bitPos, decoded.Length - n) == DecodeAt(raw, bitOffset, decoded.Length)
      decreases decoded.Length - n
    {
      if RawBit(raw, bitPos) || !RawBit(raw, bitPos + 9) {
        break;
      }
      var value: byte := 0;
      for index := 0 to 8
        invariant value == Gather(raw, bitPos, index)
      {
        if RawBit(raw, bitPos + 1 + index) {
          value := value | Mask(index);
        }
      }
      ghost var before := decoded[..n];
      decoded[n] := value;
      assert decoded[..n + 1] == before + [value];
      n := n + 1;
      bitPos := bitPos + 10;
    }
  }

  /** `d` is line-coded in `raw` from bit `pos` on. */
  ghost predicate LineCodedAt(raw: seq<byte>, pos: nat, d: seq<byte>) {
    && (d != [] ==> pos + 10 * |d| <= 8 * |raw|)
    && forall k, j :: 0 <= k < |d| && 0 <= j < 10 ==> RawBit(raw, pos + 10 * k + j) == UartBit(d[k], j)
  }

  /** Decoding is sound: what it returns is line-coded in the raw bits. */
  lemma {:induction false} DecodeSound(raw: seq<byte>, pos: nat, max: nat)
    ensures LineCodedAt(raw, pos, DecodeAt(raw, pos, max))
    decreases max
  {
    hide RawBit, Bit, Gather;
    var d := DecodeAt(raw, pos, max);
    if d != [] {
      DecodeSound(raw, pos + 10, max - 1);
      var rest := DecodeAt(raw, pos + 10, max - 1);
      forall k, j | 0 <= k < |d| && 0 <= j < 10
        ensures RawBit(raw, pos + 10 * k + j) == UartBit(d[k], j)
      {
        if k == 0 {
          if 0 < j < 9 {
            GatherBits(raw, pos, 8, j - 1);
          }
        } else {
          assert d[k] == rest[k - 1];
          assert pos + 10 + 10 * (k - 1) + j == pos + 10 * k + j;
        }
      }
    }
  }

  /** Decoding is complete: bytes line-coded at the position are a prefix of what it returns. */
  lemma {:induction false} DecodeComplete(raw: seq<byte>, pos: nat, d: seq<byte>, max: nat)
    requires LineCodedAt(raw, pos, d) && |d| <= max
    ensures d <= DecodeAt(raw, pos, max)
    decreases |d|
  {
    hide RawBit, Bit, Gather;
    if d != [] {
      FirstGroup(raw, pos, d);
      forall k, j | 0 <= k < |d[1..]| && 0 <= j < 10
        ensures RawBit(raw, pos + 10 + 10 * k + j) == UartBit(d[1..][k], j)
      {
        assert pos + 10 * (k + 1) + j == pos + 10 + 10 * k + j;
      }
      DecodeComplete(raw, pos + 10, d[1..], max - 1);
    }
  }

  lemma FirstGroup(raw: seq<byte>, pos: nat, d: seq<byte>)
    requires LineCodedAt(raw, pos, d) && d != []
    ensures Framed(raw, pos) && Gather(raw, pos, 8) == d[0]
  {
    hide RawBit, Bit, Gather;
    assert RawBit(raw, pos + 10 * 0 + 0) == UartBit(d[0], 0);
    assert RawBit(raw, pos + 10 * 0 + 9) == UartBit(d[0], 9);
    forall i | 0 <= i < 8
      ensures Bit(Gather(raw, pos, 8), i) == Bit(d[0], i)
    {
      GatherBits(raw, pos, 8, i);
      assert RawBit(raw, pos + 10 * 0 + (i + 1)) == UartBit(d[0], i + 1);
    }
    BitsEqual(Gather(raw, pos, 8), d[0]);
  }

  // ---- The search for a frame

  predicate Plausible(f: IoFrame, len: nat) {
    FRAME_MIN_SIZE <= len && (f.cmd in KNOWN_COMMANDS || f.ctrl0 & CTRL0_PROTOCOL_1W != 0)
  }

  /** A candidate the search accepts: it parses, is plausible, and its CRC follows it. */
  predicate CrcFrameAt(d: seq<byte>, start: nat, len: nat) {
    && start + len + 2 <= |d|
    && var candidate := d[start..start + len];
       && Parse(candidate).Accepted?
       && Plausible(Parse(candidate).frame, len)
       && Crc(candidate) == Received(d[start + len], d[start + len + 1])
  }

  /** The length is the one the first byte names, so trying lengths downwards cannot miss it. */
  lemma LengthIsNamed(d: seq<byte>, start: nat, len: nat)
    requires CrcFrameAt(d, start, len)
    ensures len == FrameLength(d[start]) && FRAME_MIN_SIZE <= len <= FRAME_MAX_SIZE
  {
    assert d[start..start + len][0] == d[start];
  }

  ghost predicate NoFrameFrom(d: seq<byte>, start: nat) {
    forall len :: 0 <= len ==> !CrcFrameAt(d, start, len)
  }

  ghost predicate NoFrame(d: seq<byte>) {
    forall start :: 0 <= start ==> NoFrameFrom(d, start)
  }

  /** The candidate the search reports. */
  ghost predicate FirstFrame(d: seq<byte>, start: nat, len: nat) {
    CrcFrameAt(d, start, len) && forall s :: 0 <= s < start ==> NoFrameFrom(d, s)
  }

  method FindCrcValidFrame(decoded: seq<byte>) returns (start: nat, len: nat)
    requires |decoded| <= RADIO_PACKET_BUFFER_SIZE
    ensures if len == 0 then start == 0 && NoFrame(decoded) else FirstFrame(decoded, start, len)
  {
    hide Parse, Crc, Received, Plausible;
    start := 0;
    while start < |decoded|
      invariant start <= |decoded|
      invariant forall s :: 0 <= s < start ==> NoFrameFrom(decoded, s)
    {
      len := if |decoded| - start < FRAME_MAX_SIZE then |decoded| - start else FRAME_MAX_SIZE;
      while len >= FRAME_MIN_SIZE
        invariant start + len <= |decoded|
        invariant forall l :: len < l <= FRAME_MAX_SIZE ==> !CrcFrameAt(decoded, start, l)
      {
        var candidate := decoded[start..start + len];
        var ok, frame := ParseInto(candidate, ZERO_FRAME);
        if ok && Plausible(frame, len) && start + len + 2 <= |decoded| {
          var computed := CrcCcitt(candidate);
          if computed == Received(decoded[start + len], decoded[start + len + 1]) {
            return;
          }
        }
        len := len - 1;
      }
      forall l: nat
        ensures !CrcFrameAt(decoded, start, l)
      {
        if CrcFrameAt(decoded, start, l) {
          LengthIsNamed(decoded, start, l);
        }
      }
      start := start + 1;
    }
    return 0, 0;
  }

  /** Result of the probe; `decoded` is the decoded stream at the chosen offset. */
  datatype ProbeResult = ProbeResult(valid: bool, bitOffset: nat, frameStart: nat, frameLen: nat, decoded: seq<byte>)

  /** What the probe tries at one bit offset. */
  function Stream(raw: seq<byte>, bitOffset: nat): (d: seq<byte>)
    ensures |d| <= RADIO_PACKET_BUFFER_SIZE
  {
    DecodeAt(raw, bitOffset, RADIO_PACKET_BUFFER_SIZE)
  }

  /** The contract of the probe: a valid result is the first frame of the stream at the least offset
      that has one; otherwise no offset has one and the longest stream is kept. */
  ghost predicate Probed(raw: seq<byte>, r: ProbeResult) {
    && r.bitOffset < 10
    && r.decoded == Stream(raw, r.bitOffset)
    && (r.valid ==>
          && FirstFrame(r.decoded, r.frameStart, r.frameLen)
          && forall o :: 0 <= o < r.bitOffset ==> NoFrame(Stream(raw, o)))
    && (!r.valid ==>
          && r.frameStart == 0 && r.frameLen == 0
          && (forall o :: 0 <= o < 10 ==> NoFrame(Stream(raw, o)))
          && (forall o :: 0 <= o < 10 ==> |Stream(raw, o)| <= |r.decoded|)
          && (forall o :: 0 <= o < r.bitOffset ==> |Stream(raw, o)| < |r.decoded|))
  }

  lemma EmptyHasNoFrame()
    ensures NoFrame([])
  {
    hide Parse, Crc, Received, Plausible;
  }

  method FindUartProbe(raw: seq<byte>) returns (best: ProbeResult)
    requires |raw| < 256
    ensures Probed(raw, best)
  {
    hide DecodeAt, NoFrame, FirstFrame;
    EmptyHasNoFrame();
    best := ProbeResult(false, 0, 0, 0, []);
    for bitOffset := 0 to UART_PROBE_MAX_BIT_OFFSET
      invariant !best.valid && best.frameStart == 0 && best.frameLen == 0
      invariant best.bitOffset <= bitOffset && (bitOffset == 0 ==> best.bitOffset == 0)
      invariant best.decoded == (if best.bitOffset < bitOffset then Stream(raw, best.bitOffset) else [])
      invariant bitOffset > 0 ==> best.bitOffset < bitOffset
      invariant forall o :: 0 <= o < bitOffset ==> NoFrame(Stream(raw, o)) && |Stream(raw, o)| <= |best.decoded|
      invariant forall o :: 0 <= o < best.bitOffset ==> |Stream(raw, o)| < |best.decoded|
    {
      var decoded := new byte[RADIO_PACKET_BUFFER_SIZE];
      var n := DecodeUartProbe(raw, bitOffset, decoded);
      if n == 0 {
        assert Stream(raw, bitOffset) == [];
        continue;
      }
      if n > |best.decoded| {
        best := best.(bitOffset := bitOffset, decoded := decoded[..n]);
      }
      var start, len := FindCrcValidFrame(decoded[..n]);
      if len > 0 {
        return ProbeResult(true, bitOffset, start, len, decoded[..n]);
      }
    }
  }

  // ---- What the search promises

  /** Soundness: the reported bytes are line-coded in the raw buffer at the reported offset, parse,
      and carry a matching CRC. */
  lemma ProbeSound(raw: seq<byte>, r: ProbeResult)
    requires Probed(raw, r) && r.valid
    ensures LineCodedAt(raw, r.bitOffset, r.decoded)
    ensures CrcFrameAt(r.decoded, r.frameStart, r.frameLen)
    ensures Crc(r.decoded[r.frameStart..r.frameStart + r.frameLen + 2]) == 0
  {
    hide CrcFrameAt, LineCodedAt, DecodeAt;
    DecodeSound(raw, r.bitOffset, RADIO_PACKET_BUFFER_SIZE);
    CandidateResidue(r.decoded, r.frameStart, r.frameLen);
  }

  lemma CandidateResidue(d: seq<byte>, start: nat, len: nat)
    requires CrcFrameAt(d, start, len)
    ensures Crc(d[start..start + len + 2]) == 0
  {
    hide Parse, Crc, Received, Plausible;
    var lo, hi := d[start + len], d[start + len + 1];
    assert d[start..start + len + 2] == d[start..start + len] + [lo, hi];
    ResidueZeroIffMatch(d[start..start + len], lo, hi);
  }

  /** Completeness: a frame in the stream of any of the ten offsets makes the result valid. */
  lemma ProbeComplete(raw: seq<byte>, r: ProbeResult, o: nat, start: nat, len: nat)
    requires Probed(raw, r) && o < 10 && CrcFrameAt(Stream(raw, o), start, len)
    ensures r.valid && r.bitOffset <= o && (r.bitOffset == o ==> r.frameStart <= start)
    ensures r.bitOffset == o && r.frameStart == start ==> r.frameLen == len
  {
    hide CrcFrameAt, Stream;
    assert !NoFrameFrom(Stream(raw, o), start);
    if r.valid && r.bitOffset == o && r.frameStart == start {
      LengthIsNamed(Stream(raw, o), start, len);
      LengthIsNamed(Stream(raw, o), start, r.frameLen);
    }
  }

  /** A candidate of the same length whose data bits differ from a transmitted frame with its check
      bytes by a burst of at most sixteen bits is never accepted. */
  lemma BurstRejected(f: IoFrame, d: seq<byte>, start: nat, p: nat)
    requires Serializable(f) && start + |Wire(f)| + 2 <= |d|
    requires BurstAt(XorBits(BitsOf(Wire(f) + CheckBytes(Crc(Wire(f)))), BitsOf(d[start..start + |Wire(f)| + 2])), p)
    ensures !CrcFrameAt(d, start, |Wire(f)|)
  {
    hide CrcFrameAt, Wire, CheckBytes, BurstAt;
    var n := |Wire(f)|;
    OwnCrcLeavesZero(Wire(f));
    BurstDetected(Wire(f) + CheckBytes(Crc(Wire(f))), d[start..start + n + 2], p);
    if CrcFrameAt(d, start, n) {
      CandidateResidue(d, start, n);
    }
  }

  // ---- Sending and receiving

  /** The bytes a driver without hardware framing puts on the air: the frame and its CRC, low byte first. */
  function AirBytes(f: IoFrame): (d: seq<byte>)
    requires Serializable(f)
    ensures |d| == |Wire(f)| + 2
  {
    Wire(f) + CheckBytes(Crc(Wire(f)))
  }

  lemma EncodedIsLineCoded(data: seq<byte>, encoded: seq<byte>, trailing: seq<byte>)
    requires IsEncoded(data, encoded)
    ensures LineCodedAt(encoded + trailing, 0, data)
  {
    hide Bit, UartBit;
    var raw := encoded + trailing;
    forall k, j | 0 <= k < |data| && 0 <= j < 10
      ensures RawBit(raw, 0 + 10 * k + j) == UartBit(data[k], j)
    {
      var pos := 10 * k + j;
      Positions(k, j);
      assert RawBit(encoded, pos) == LineBit(data, pos);
      assert raw[pos / 8] == encoded[pos / 8];
    }
  }

  lemma AirBytesAreAFrame(f: IoFrame, d: seq<byte>)
    requires Serializable(f) && Plausible(f, |Wire(f)|) && AirBytes(f) <= d
    ensures CrcFrameAt(d, 0, |Wire(f)|) && Parse(d[..|Wire(f)|]) == Accepted(Padded(f))
  {
    hide Wire, Parse, CheckBytes, Received, Crc;
    var n := |Wire(f)|;
    var air := AirBytes(f);
    assert d[0..n] == air[..n] == Wire(f);
    assert d[..n] == d[0..n];
    assert d[n] == air[n] == CheckBytes(Crc(Wire(f)))[0];
    assert d[n + 1] == air[n + 1] == CheckBytes(Crc(Wire(f)))[1];
    ParseWire(f);
    ReceivedCheckBytes(Crc(Wire(f)));
  }

  /** Loop back: a frame that serializes and names a known command or the one-way protocol, followed by
      its CRC, line-coded, and by any further raw bytes, is found at bit offset 0 and byte 0 and parses
      back to the frame. */
  lemma SendReceive(f: IoFrame, encoded: seq<byte>, trailing: seq<byte>, r: ProbeResult)
    requires Serializable(f) && Plausible(f, |Wire(f)|)
    requires IsEncoded(AirBytes(f), encoded)
    requires Probed(encoded + trailing, r)
    ensures r.valid && r.bitOffset == 0 && r.frameStart == 0 && r.frameLen == |Wire(f)|
    ensures Parse(r.decoded[..r.frameLen]) == Accepted(Padded(f))
  {
    hide IsEncoded, CrcFrameAt, AirBytes, Wire, Parse, Plausible, DecodeAt;
    var raw := encoded + trailing;
    EncodedIsLineCoded(AirBytes(f), encoded, trailing);
    DecodeComplete(raw, 0, AirBytes(f), RADIO_PACKET_BUFFER_SIZE);
    AirBytesAreAFrame(f, Stream(raw, 0));
    ProbeComplete(raw, r, 0, 0, |Wire(f)|);
  }
}
