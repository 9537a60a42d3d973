/** The frame container of proto_frame.cpp: building, serializing and parsing.  The main results are
    the two round trips and that parse accepts exactly the byte strings serialize produces. */
module Frame {
  import opened Bytes

  const FRAME_MIN_SIZE: nat := 9
  const FRAME_MAX_SIZE: nat := 32
  const FRAME_MAX_DATA_SIZE: nat := 23
  const CTRL0_END: byte := 0x80
  const CTRL0_START: byte := 0x40
  const CTRL0_PROTOCOL_1W: byte := 0x20
  const CTRL1_LOW_POWER: byte := 0x20

  datatype RawFrame = RawFrame(ctrl0: byte, ctrl1: byte, dst: seq<byte>, src: seq<byte>,
                               cmd: byte, data: seq<byte>, dataLen: nat)

  /** A frame record: fixed-size addresses and a fixed 23-byte payload buffer of which the first
      `dataLen` bytes are in use. */
  type IoFrame = f: RawFrame | |f.dst| == 3 && |f.src| == 3 && |f.data| == FRAME_MAX_DATA_SIZE && f.dataLen < 256
    witness RawFrame(0, 0, [0, 0, 0], [0, 0, 0], 0, seq(FRAME_MAX_DATA_SIZE, _ => 0), 0)

  const ZERO_FRAME: IoFrame := RawFrame(0, 0, [0, 0, 0], [0, 0, 0], 0, Zeros(FRAME_MAX_DATA_SIZE), 0)

  // ---- The length field in the low five bits of ctrl0

  function FrameLength(ctrl0: byte): (n: nat)
    ensures 1 <= n <= FRAME_MAX_SIZE
  {
    (ctrl0 & 0x1F) as nat + 1
  }

  function WithLength(ctrl0: byte, n: nat): byte
    requires 1 <= n <= FRAME_MAX_SIZE
  {
    (ctrl0 & 0xE0) | ((n - 1) as byte & 0x1F)
  }

  /** Setting the length keeps the three flags and reads back. */
  lemma WithLengthReads(ctrl0: byte, n: nat)
    requires 1 <= n <= FRAME_MAX_SIZE
    ensures FrameLength(WithLength(ctrl0, n)) == n
    ensures WithLength(ctrl0, n) & 0xE0 == ctrl0 & 0xE0
    ensures WithLength(ctrl0, n) & CTRL0_START == ctrl0 & CTRL0_START
  {
  }

  /** The payload bytes in use. */
  function Payload(f: IoFrame): seq<byte> {
    f.data[..if f.dataLen < FRAME_MAX_DATA_SIZE then f.dataLen else FRAME_MAX_DATA_SIZE]
  }

  predicate IsStart(f: IoFrame) {
    f.ctrl0 & CTRL0_START != 0
  }

  // ---- Building

  method InitFrame(is2w: bool, start: bool, end: bool, lowPower: bool) returns (f: IoFrame)
    ensures f == ZERO_FRAME.(ctrl0 := Flags(is2w, start, end), ctrl1 := if lowPower then CTRL1_LOW_POWER else 0)
  {
    f := ZERO_FRAME;
    if end {
      f := f.(ctrl0 := f.ctrl0 | CTRL0_END);
    }
    if start {
      f := f.(ctrl0 := f.ctrl0 | CTRL0_START);
    }
    if !is2w {
      f := f.(ctrl0 := f.ctrl0 | CTRL0_PROTOCOL_1W);
    }
    if lowPower {
      f := f.(ctrl1 := f.ctrl1 | CTRL1_LOW_POWER);
    }
  }

  function Flags(is2w: bool, start: bool, end: bool): byte {
    (if end then CTRL0_END else 0) | (if start then CTRL0_START else 0) | (if is2w then 0 else CTRL0_PROTOCOL_1W)
  }

  /** The flags are where the protocol has them, whatever the length, and a start is recognised as one. */
  lemma FlagsRead(is2w: bool, start: bool, end: bool, n: nat)
    requires 1 <= n <= FRAME_MAX_SIZE
    ensures var c := WithLength(Flags(is2w, start, end), n);
            && (c & 0x80 == 0x80 <==> end) && (c & 0x40 == 0x40 <==> start) && (c & 0x20 == 0x20 <==> !is2w)
            && forall f: IoFrame :: f.ctrl0 == c ==> (IsStart(f) <==> start)
  {
    FlagBits(is2w, start, end, (n - 1) as byte);
  }

  lemma FlagBits(is2w: bool, start: bool, end: bool, length: byte)
    ensures var c := (Flags(is2w, start, end) & 0xE0) | (length & 0x1F);
            && (c & 0x80 == 0x80 <==> end) && (c & 0x40 == 0x40 <==> start) && (c & 0x20 == 0x20 <==> !is2w)
            && (c & CTRL0_START != 0 <==> start)
  {
  }

  /** set_cmd: refuses a payload that does not fit and otherwise keeps the length field and the
      payload length in step. */
  function WithCmd(f: IoFrame, cmd: byte, params: seq<byte>): (g: IoFrame)
    requires |params| <= FRAME_MAX_DATA_SIZE
  {
    f.(cmd := cmd, dataLen := |params|, data := params + f.data[|params|..],
       ctrl0 := WithLength(f.ctrl0, FRAME_MIN_SIZE + |params|))
  }

  method SetCmd(f: IoFrame, cmd: byte, params: seq<byte>) returns (ok: bool, g: IoFrame)
    ensures ok <==> |params| <= FRAME_MAX_DATA_SIZE
    ensures g == if ok then WithCmd(f, cmd, params) else f
  {
    g := f;
    if |params| > FRAME_MAX_DATA_SIZE {
      return false, g;
    }
    g := g.(cmd := cmd, dataLen := |params|);
    if |params| > 0 {
      g := g.(data := params + g.data[|params|..]);
    }
    var total := FRAME_MIN_SIZE + g.dataLen;
    if total > FRAME_MAX_SIZE {
      return false, g;
    }
    g := g.(ctrl0 := WithLength(g.ctrl0, total));
    ok := true;
  }

  // ---- The wire form

  /** The checks serialize makes before it writes anything. */
  predicate Serializable(f: IoFrame) {
    var n := FrameLength(f.ctrl0);
    FRAME_MIN_SIZE <= n && f.dataLen <= FRAME_MAX_DATA_SIZE && FRAME_MIN_SIZE + f.dataLen == n
  }

  function Wire(f: IoFrame): (w: seq<byte>)
    requires f.dataLen <= FRAME_MAX_DATA_SIZE
    ensures |w| == FRAME_MIN_SIZE + f.dataLen
  {
    [f.ctrl0, f.ctrl1] + f.dst + f.src + [f.cmd] + f.data[..f.dataLen]
  }

  /** The frame with the unused part of its payload buffer cleared. */
  function Padded(f: IoFrame): (g: IoFrame)
    requires f.dataLen <= FRAME_MAX_DATA_SIZE
  {
    f.(data := f.data[..f.dataLen] + Zeros(FRAME_MAX_DATA_SIZE - f.dataLen))
  }

  method Serialize(f: IoFrame, buf: array<byte>) returns (n: nat)
    modifies buf
    ensures n == if Serializable(f) && |Wire(f)| <= buf.Length then |Wire(f)| else 0
    ensures n == 0 ==> buf[..] == old(buf[..])
    ensures n != 0 ==> n <= buf.Length && buf[..n] == Wire(f) && buf[n..] == old(buf[n..])
  {
    var len := FrameLength(f.ctrl0);
    if len < FRAME_MIN_SIZE || len > FRAME_MAX_SIZE || f.dataLen > FRAME_MAX_DATA_SIZE {
      return 0;
    }
    if FRAME_MIN_SIZE + f.dataLen != len || buf.Length < len {
      return 0;
    }
    ghost var before := buf[..];
    WriteHeader(f, buf);
    assert buf[9..] == before[9..];
    CopyInto(buf, 9, f.data[..f.dataLen]);
    n := 9 + f.dataLen;
    assert buf[..n] == buf[..9] + buf[9..n];
    assert buf[n..] == before[9..][f.dataLen..];
  }

  method WriteHeader(f: IoFrame, buf: array<byte>)
    requires FRAME_MIN_SIZE <= buf.Length
    modifies buf
    ensures buf[..9] == [f.ctrl0, f.ctrl1] + f.dst + f.src + [f.cmd]
    ensures buf[9..] == old(buf[9..])
  {
    ghost var before := buf[..];
    var offset := 0;
    buf[offset] := f.ctrl0;
    offset := offset + 1;
    buf[offset] := f.ctrl1;
    offset := offset + 1;
    assert buf[..2] == [f.ctrl0, f.ctrl1] && buf[2..] == before[2..];
    CopyInto(buf, offset, f.dst);
    offset := offset + 3;
    assert buf[..5] == buf[..2] + buf[2..5];
    assert buf[5..] == before[2..][3..] == before[5..];
    CopyInto(buf, offset, f.src);
    offset := offset + 3;
    assert buf[..8] == buf[..5] + buf[5..8];
    assert buf[8..] == before[5..][3..] == before[8..];
    ghost var header := buf[..8];
    buf[offset] := f.cmd;
    assert buf[..9] == header + [f.cmd];
    assert buf[9..] == before[8..][1..] == before[9..];
  }

  /** What parse makes of a buffer: the frame, or nothing. */
  datatype Parsed = Rejected | Accepted(frame: IoFrame)

  function Parse(buf: seq<byte>): (p: Parsed) {
    if |buf| < FRAME_MIN_SIZE || |buf| != FrameLength(buf[0]) then Rejected
    else Accepted(RawFrame(buf[0], buf[1], buf[2..5], buf[5..8], buf[8],
                           buf[9..] + Zeros(FRAME_MAX_SIZE - |buf|), |buf| - FRAME_MIN_SIZE))
  }

  /** parse fills its out-parameter step by step, so a buffer it rejects late leaves the two control
      bytes behind and a buffer shorter than a header leaves the old record alone. */
  method ParseInto(buf: seq<byte>, old_: IoFrame) returns (ok: bool, f: IoFrame)
    requires |buf| < 256
    ensures ok <==> Parse(buf).Accepted?
    ensures ok ==> f == Parse(buf).frame
    ensures !ok ==> f == if |buf| < FRAME_MIN_SIZE then old_ else ZERO_FRAME.(ctrl0 := buf[0], ctrl1 := buf[1])
  {
    f := old_;
    if |buf| < FRAME_MIN_SIZE {
      return false, f;
    }
    f := ZERO_FRAME;
    var offset := 0;
    f := f.(ctrl0 := buf[offset]);
    offset := offset + 1;
    f := f.(ctrl1 := buf[offset]);
    offset := offset + 1;
    var len := FrameLength(f.ctrl0);
    if len < FRAME_MIN_SIZE || len > FRAME_MAX_SIZE {
      return false, f;
    }
    if |buf| != len {
      return false, f;
    }
    f := f.(dst := buf[offset..offset + 3]);
    offset := offset + 3;
    f := f.(src := buf[offset..offset + 3]);
    offset := offset + 3;
    f := f.(cmd := buf[offset]);
    offset := offset + 1;
    var n := len - FRAME_MIN_SIZE;
    assert f.data[n..] == Zeros(FRAME_MAX_SIZE - |buf|);
    assert buf[offset..offset + n] == buf[9..];
    f := f.(dataLen := n, data := buf[offset..offset + n] + f.data[n..]);
    ok := true;
  }

  // ---- Round trips

  /** Parsing a serialized frame gives the frame back, with the unused payload bytes cleared. */
  lemma ParseWire(f: IoFrame)
    requires Serializable(f)
    ensures Parse(Wire(f)) == Accepted(Padded(f))
  {
    var w := Wire(f);
    assert w[0] == f.ctrl0 && w[1] == f.ctrl1 && w[8] == f.cmd;
    assert w[2..5] == f.dst;
    assert w[5..8] == f.src;
    assert w[9..] == f.data[..f.dataLen];
  }

  /** Serializing a parsed frame gives the buffer back. */
  lemma WireParse(buf: seq<byte>)
    requires Parse(buf).Accepted?
    ensures var f := Parse(buf).frame; Serializable(f) && Wire(f) == buf && Padded(f) == f
  {
    var f := Parse(buf).frame;
    assert f.data[..f.dataLen] == buf[9..];
    assert Wire(f) == buf;
  }

  /** Parsing accepts exactly the wire forms. */
  lemma ParseAcceptsExactlyWires(buf: seq<byte>)
    ensures Parse(buf).Accepted? <==> exists f: IoFrame :: Serializable(f) && Wire(f) == buf
  {
    if Parse(buf).Accepted? {
      WireParse(buf);
    }
    forall f: IoFrame | Serializable(f) && Wire(f) == buf
      ensures Parse(buf).Accepted?
    {
      ParseWire(f);
    }
  }

  /** A frame whose payload set_cmd accepted always serializes, and carries that payload. */
  lemma SetCmdSerializes(f: IoFrame, cmd: byte, params: seq<byte>)
    requires |params| <= FRAME_MAX_DATA_SIZE
    ensures var g := WithCmd(f, cmd, params);
            Serializable(g) && Parse(Wire(g)) == Accepted(Padded(g)) && Padded(g).data[..g.dataLen] == params
  {
    WithLengthReads(f.ctrl0, FRAME_MIN_SIZE + |params|);
    ParseWire(WithCmd(f, cmd, params));
  }
}
