/** The frame check of proto_frame.cpp: the reflected 16-bit CRC of section 2 of ITU-T V.41 with
    initial value 0.  The main results are that a frame followed by its own CRC leaves residue 0,
    and that no error confined to sixteen consecutive bits can. */
module FrameCheck {
  import opened Bytes
  import opened Words

  const CRC_POLYNOMIAL_REVERSED: word := 0x8408

  /** One bit time of the register. */
  function Tick(c: word): word {
    if Low16(c) then Xor16(Shr16(c), CRC_POLYNOMIAL_REVERSED) else Shr16(c)
  }

  function Ticks(c: word, n: nat): word {
    if n == 0 then c else Tick(Ticks(c, n - 1))
  }

  /** The register after one byte, which is added to its low half. */
  function Absorb(c: word, b: byte): word {
    Ticks(Xor16(c, b as word), 8)
  }

  /** The register after the bytes of `data`, started at 0. */
  function Crc(data: seq<byte>): word {
    if data == [] then 0 else Absorb(Crc(data[..|data| - 1]), data[|data| - 1])
  }

  method CrcCcitt(data: seq<byte>) returns (crc: word)
    ensures crc == Crc(data)
  {
    hide Xor16, Shr16, Low16;
    crc := 0;
    for i := 0 to |data|
      invariant crc == Crc(data[..i])
    {
      ghost var before := crc;
      crc := Xor16(crc, data[i] as word);
      ghost var start := crc;
      for j := 0 to 8
        invariant crc == Ticks(start, j)
      {
        crc := if Low16(crc) then Xor16(Shr16(crc), CRC_POLYNOMIAL_REVERSED) else Shr16(crc);
      }
      assert data[..i + 1][..i] == data[..i];
    }
    assert data[..|data|] == data;
  }

  // ---- The register is linear and invertible

  lemma TickXor(a: word, b: word)
    ensures Tick(Xor16(a, b)) == Xor16(Tick(a), Tick(b))
  {
    hide Xor16, Shr16, Low16;
    Shr16Xor(a, b);
    var p := CRC_POLYNOMIAL_REVERSED;
    var x, y := Shr16(a), Shr16(b);
    Xor16Swap(x, p, y, p);
    Xor16Zero(p);
    Xor16Zero(Xor16(x, y));
    Xor16Assoc(x, y, p);
    Xor16Assoc(x, p, y);
    Xor16Comm(p, y);
  }

  lemma {:induction false} TicksXor(a: word, b: word, n: nat)
    ensures Ticks(Xor16(a, b), n) == Xor16(Ticks(a, n), Ticks(b, n))
  {
    hide Xor16, Tick;
    if n > 0 {
      TicksXor(a, b, n - 1);
      TickXor(Ticks(a, n - 1), Ticks(b, n - 1));
    }
  }

  /** The state one tick earlier. */
  function Untick(c: word): word {
    if Top16(c) then Shl16(Xor16(c, CRC_POLYNOMIAL_REVERSED)) | 1 else Shl16(c)
  }

  lemma ShrParts(c: word)
    ensures !Top16(Shr16(c))
    ensures Low16(c) ==> Shl16(Shr16(c)) | 1 == c
    ensures !Low16(c) ==> Shl16(Shr16(c)) == c
  {
  }

  lemma PolynomialSetsTop(c: word)
    ensures Top16(Xor16(c, CRC_POLYNOMIAL_REVERSED)) == !Top16(c)
  {
  }

  lemma UntickTick(c: word)
    ensures Untick(Tick(c)) == c
  {
    hide Xor16, Shr16, Shl16, Top16, Low16;
    ShrParts(c);
    PolynomialSetsTop(Shr16(c));
    Xor16Cancel(Shr16(c), CRC_POLYNOMIAL_REVERSED);
  }

  /** A tick loses nothing, and only the zero register ticks to zero. */
  lemma TickInjective(a: word, b: word)
    requires Tick(a) == Tick(b)
    ensures a == b
  {
    hide Tick, Untick;
    UntickTick(a);
    UntickTick(b);
  }

  // ---- Bits in transmission order: byte by byte, least significant bit first

  function BitsOf(data: seq<byte>): (bits: seq<bool>)
    ensures |bits| == 8 * |data|
  {
    seq(8 * |data|, k requires 0 <= k < 8 * |data| => Bit(data[k / 8], k % 8))
  }

  /** The register after a bit sequence, started at `c`. */
  function Feed(c: word, bits: seq<bool>): word
    decreases |bits|
  {
    if bits == [] then c else Feed(Tick(Xor16(c, Unit16(bits[0]))), bits[1..])
  }

  lemma {:induction false} FeedConcat(c: word, x: seq<bool>, y: seq<bool>)
    ensures Feed(c, x + y) == Feed(Feed(c, x), y)
    decreases |x|
  {
    hide Tick, Xor16;
    if x == [] {
      assert x + y == y;
    } else {
      assert (x + y)[1..] == x[1..] + y;
      FeedConcat(Tick(Xor16(c, Unit16(x[0]))), x[1..], y);
    }
  }

  function XorBits(x: seq<bool>, y: seq<bool>): (z: seq<bool>)
    requires |x| == |y|
    ensures |z| == |x|
  {
    seq(|x|, i requires 0 <= i < |x| => x[i] != y[i])
  }

  lemma Unit16Xor(p: bool, q: bool)
    ensures Unit16(p != q) == Xor16(Unit16(p), Unit16(q))
  {
    if p {
      if q {} else {}
    } else {
      if q {} else {}
    }
  }

  /** The register is linear in state and message together. */
  lemma {:induction false} FeedXor(c: word, d: word, x: seq<bool>, y: seq<bool>)
    requires |x| == |y|
    ensures Feed(Xor16(c, d), XorBits(x, y)) == Xor16(Feed(c, x), Feed(d, y))
    decreases |x|
  {
    hide Tick, Xor16, Unit16;
    if x != [] {
      Unit16Xor(x[0], y[0]);
      Xor16Swap(c, d, Unit16(x[0]), Unit16(y[0]));
      TickXor(Xor16(c, Unit16(x[0])), Xor16(d, Unit16(y[0])));
      assert XorBits(x, y)[1..] == XorBits(x[1..], y[1..]);
      FeedXor(Tick(Xor16(c, Unit16(x[0]))), Tick(Xor16(d, Unit16(y[0]))), x[1..], y[1..]);
    }
  }

  // ---- Absorbing a byte at once is feeding its eight bits

  /** What is left of a byte after its low k bits. */
  function Rest(b: byte, k: nat): byte
    requires k <= 8
  {
    if k == 0 then b else if k == 1 then b >> 1 else if k == 2 then b >> 2 else if k == 3 then b >> 3
    else if k == 4 then b >> 4 else if k == 5 then b >> 5 else if k == 6 then b >> 6 else if k == 7 then b >> 7 else 0
  }

  lemma RestStep(b: byte, k: nat)
    requires k < 8
    ensures Tick(Xor16(Rest(b, k) as word, Unit16(Bit(b, k)))) == Rest(b, k + 1) as word
  {
    if k == 0 {} else if k == 1 {} else if k == 2 {} else if k == 3 {}
    else if k == 4 {} else if k == 5 {} else if k == 6 {} else {}
  }

  function ByteBits(b: byte): (bits: seq<bool>)
    ensures |bits| == 8
  {
    seq(8, i requires 0 <= i < 8 => Bit(b, i))
  }

  lemma {:induction false} AbsorbPrefix(c: word, b: byte, k: nat)
    requires k <= 8
    ensures Feed(c, ByteBits(b)[..k]) == Xor16(Ticks(Xor16(c, b as word), k), Rest(b, k) as word)
  {
    hide Tick, Xor16, Unit16, Rest, Bit;
    var w := b as word;
    if k == 0 {
      RestEnds(b);
      Xor16Cancel(c, w);
    } else {
      var bits := ByteBits(b);
      AbsorbPrefix(c, b, k - 1);
      assert bits[..k] == bits[..k - 1] + [bits[k - 1]];
      FeedConcat(c, bits[..k - 1], [bits[k - 1]]);
      FeedOne(Feed(c, bits[..k - 1]), bits[k - 1]);
      var t, r, u := Ticks(Xor16(c, w), k - 1), Rest(b, k - 1) as word, Unit16(Bit(b, k - 1));
      Xor16Assoc(t, r, u);
      TickXor(t, Xor16(r, u));
      RestStep(b, k - 1);
    }
  }

  lemma FeedOne(c: word, bit: bool)
    ensures Feed(c, [bit]) == Tick(Xor16(c, Unit16(bit)))
  {
    hide Tick, Xor16;
    assert [bit][1..] == [];
    assert Feed(Tick(Xor16(c, Unit16(bit))), []) == Tick(Xor16(c, Unit16(bit)));
  }

  lemma RestEnds(b: byte)
    ensures Rest(b, 0) == b && Rest(b, 8) == 0
  {
  }

  lemma AbsorbIsFeed(c: word, b: byte)
    ensures Absorb(c, b) == Feed(c, ByteBits(b))
  {
    hide Ticks, Feed, Xor16, Rest;
    AbsorbPrefix(c, b, 8);
    assert ByteBits(b)[..8] == ByteBits(b);
    RestEnds(b);
    Xor16Zero(Ticks(Xor16(c, b as word), 8));
  }

  lemma BitsOfLast(data: seq<byte>)
    requires data != []
    ensures BitsOf(data) == BitsOf(data[..|data| - 1]) + ByteBits(data[|data| - 1])
  {
    hide Bit;
  }

  /** The byte-wise loop computes the register over the bits as they are sent. */
  lemma {:induction false} CrcIsFeed(data: seq<byte>)
    ensures Crc(data) == Feed(0, BitsOf(data))
  {
    hide Absorb;
    if data != [] {
      var n := |data| - 1;
      CrcIsFeed(data[..n]);
      BitsOfLast(data);
      FeedConcat(0, BitsOf(data[..n]), ByteBits(data[n]));
      AbsorbIsFeed(Crc(data[..n]), data[n]);
    }
  }

  // ---- Residue

  /** The two check bytes as the receiver reads them, low byte first. */
  function Received(lo: byte, hi: byte): word {
    lo as word | (hi as word << 8)
  }

  /** The two check bytes as the sender appends them. */
  function CheckBytes(crc: word): (b: seq<byte>)
    ensures |b| == 2
  {
    [(crc & 0xFF) as byte, (crc >> 8) as byte]
  }

  lemma ReceivedCheckBytes(crc: word)
    ensures Received(CheckBytes(crc)[0], CheckBytes(crc)[1]) == crc
  {
  }

  function HighRest(b: byte, k: nat): word
    requires k <= 8
  {
    if k == 0 then b as word << 8 else if k == 1 then b as word << 7 else if k == 2 then b as word << 6
    else if k == 3 then b as word << 5 else if k == 4 then b as word << 4 else if k == 5 then b as word << 3
    else if k == 6 then b as word << 2 else if k == 7 then b as word << 1 else b as word
  }

  lemma HighRestStep(b: byte, k: nat)
    requires k < 8
    ensures Tick(HighRest(b, k)) == HighRest(b, k + 1)
  {
    if k == 0 {} else if k == 1 {} else if k == 2 {} else if k == 3 {}
    else if k == 4 {} else if k == 5 {} else if k == 6 {} else {}
  }

  /** A byte in the high half of the register reaches the low half unchanged. */
  lemma {:induction false} HighByteShiftsDown(b: byte, k: nat)
    requires k <= 8
    ensures Ticks(HighRest(b, 0), k) == HighRest(b, k)
  {
    hide Tick, HighRest;
    if k > 0 {
      HighByteShiftsDown(b, k - 1);
      HighRestStep(b, k - 1);
    }
  }

  lemma {:induction false} TicksInjective(a: word, b: word, n: nat)
    requires Ticks(a, n) == Ticks(b, n)
    ensures a == b
  {
    hide Tick;
    if n > 0 {
      TickInjective(Ticks(a, n - 1), Ticks(b, n - 1));
      TicksInjective(a, b, n - 1);
    }
  }

  lemma {:induction false} TicksZero(n: nat)
    ensures Ticks(0, n) == 0
  {
    if n > 0 {
      TicksZero(n - 1);
    }
  }

  lemma ReceivedParts(lo: byte, hi: byte)
    ensures Received(lo, hi) == Xor16(HighRest(hi, 0), lo as word)
    ensures HighRest(hi, 8) == hi as word
  {
    assert HighRest(hi, 0) == hi as word << 8;
  }

  /** The register after two more bytes. */
  lemma TwoMore(data: seq<byte>, lo: byte, hi: byte)
    ensures Crc(data + [lo, hi]) == Absorb(Absorb(Crc(data), lo), hi)
  {
    hide Absorb;
    var d := data + [lo, hi];
    assert d[..|d| - 1] == data + [lo];
    assert (data + [lo])[..|data|] == data;
  }

  /** The two check bytes cancel the register. */
  lemma MatchMeansZero(c: word, lo: byte, hi: byte)
    requires c == Received(lo, hi)
    ensures Absorb(Absorb(c, lo), hi) == 0
  {
    hide Ticks, Xor16, HighRest, Received;
    ReceivedParts(lo, hi);
    Xor16Cancel(HighRest(hi, 0), lo as word);
    HighByteShiftsDown(hi, 8);
    Xor16Zero(hi as word);
    TicksZero(8);
  }

  /** Nothing else does: every step can be undone. */
  lemma ZeroMeansMatch(c: word, lo: byte, hi: byte)
    requires Absorb(Absorb(c, lo), hi) == 0
    ensures c == Received(lo, hi)
  {
    hide Ticks, Xor16, HighRest, Received;
    var x := Xor16(c, lo as word);
    var y := Ticks(x, 8);
    TicksZero(8);
    TicksInjective(Xor16(y, hi as word), 0, 8);
    Xor16Cancel(y, hi as word);
    Xor16Zero(hi as word);
    HighByteShiftsDown(hi, 8);
    ReceivedParts(lo, hi);
    TicksInjective(x, HighRest(hi, 0), 8);
    Xor16Cancel(c, lo as word);
  }

  /** The receiver's comparison succeeds exactly when the frame and its check bytes together leave
      residue 0. */
  lemma ResidueZeroIffMatch(data: seq<byte>, lo: byte, hi: byte)
    ensures Crc(data + [lo, hi]) == 0 <==> Crc(data) == Received(lo, hi)
  {
    hide Absorb, Received, Crc;
    TwoMore(data, lo, hi);
    if Crc(data) == Received(lo, hi) {
      MatchMeansZero(Crc(data), lo, hi);
    }
    if Absorb(Absorb(Crc(data), lo), hi) == 0 {
      ZeroMeansMatch(Crc(data), lo, hi);
    }
  }

  /** A frame followed by its own CRC leaves residue 0. */
  lemma OwnCrcLeavesZero(data: seq<byte>)
    ensures Crc(data + CheckBytes(Crc(data))) == 0
  {
    hide CheckBytes, Received;
    var b := CheckBytes(Crc(data));
    ReceivedCheckBytes(Crc(data));
    assert b == [b[0], b[1]];
    ResidueZeroIffMatch(data, b[0], b[1]);
  }

  // ---- Bursts

  /** The bits above the lowest m + 1. */
  function Above(m: nat): word
    requires m < 16
  {
    if m < 8 then
      if m < 4 then if m == 0 then 0xFFFE else if m == 1 then 0xFFFC else if m == 2 then 0xFFF8 else 0xFFF0
      else if m == 4 then 0xFFE0 else if m == 5 then 0xFFC0 else if m == 6 then 0xFF80 else 0xFF00
    else
      if m < 12 then if m == 8 then 0xFE00 else if m == 9 then 0xFC00 else if m == 10 then 0xF800 else 0xF000
      else if m == 12 then 0xE000 else if m == 13 then 0xC000 else if m == 14 then 0x8000 else 0
  }

  lemma AboveShifts(m: nat)
    requires m < 15
    ensures Above(m + 1) == Above(m) << 1 && Above(m) & 0x8000 != 0
  {
    if m < 8 {
      if m == 0 {} else if m == 1 {} else if m == 2 {} else if m == 3 {}
      else if m == 4 {} else if m == 5 {} else if m == 6 {} else {}
    } else {
      if m == 8 {} else if m == 9 {} else if m == 10 {} else if m == 11 {}
      else if m == 12 {} else if m == 13 {} else {}
    }
  }

  /** A nonzero word of at most m + 1 bits. */
  predicate Within(x: word, m: nat)
    requires m < 16
  {
    x != 0 && x & Above(m) == 0
  }

  lemma GrowTop(x: word, m: nat)
    requires m < 15 && Within(x, m)
    ensures !Top16(x)
  {
    hide Above;
    AboveShifts(m);
  }

  lemma GrowShift(x: word, m: nat)
    requires m < 15 && Within(x, m)
    ensures Within(Shl16(x), m + 1)
  {
    hide Above;
    AboveShifts(m);
  }

  lemma GrowSet(x: word, m: nat)
    requires m < 15 && Within(x, m)
    ensures Within(Xor16(Shl16(x), 1), m + 1)
  {
    hide Above;
    AboveShifts(m);
  }

  /** One bit time backwards. */
  lemma Grow(x: word, m: nat, bit: bool)
    requires m < 15 && Within(x, m)
    ensures !Top16(x)
    ensures Within(Xor16(Shl16(x), Unit16(bit)), m + 1)
  {
    hide Within, Xor16, Shl16, Top16;
    GrowTop(x, m);
    GrowShift(x, m);
    GrowSet(x, m);
    Xor16Zero(Shl16(x));
  }

  lemma OneIsWithin(m: nat)
    requires m < 16
    ensures Within(1, m)
  {
  }

  predicate AllFalse(bits: seq<bool>) {
    forall i :: 0 <= i < |bits| ==> !bits[i]
  }

  lemma TickToZero(c: word)
    ensures Tick(c) == 0 <==> c == 0
  {
    hide Tick;
    assert Tick(0) == 0 by {
      TicksZero(1);
      assert Ticks(0, 1) == Tick(Ticks(0, 0));
    }
    if Tick(c) == 0 {
      TickInjective(c, 0);
    }
  }

  /** Running backwards from the zero register, every bit fed makes the register grow by at most one
      bit and never vanish, so sixteen bits that end in zero started from a nonzero register unless
      all of them were zero. */
  lemma {:induction false} ZeroAfter(c: word, bits: seq<bool>)
    requires |bits| <= 16 && Feed(c, bits) == 0
    ensures (c == 0 && AllFalse(bits)) || (bits != [] && Within(c, |bits| - 1))
    decreases |bits|
  {
    if bits != [] {
      hide Tick, Xor16, Above, Shl16, Top16, Within, Unit16;
      var u := Unit16(bits[0]);
      var d := Xor16(c, u);
      ZeroAfter(Tick(d), bits[1..]);
      Xor16Cancel(c, u);
      UntickTick(d);
      UnitWords();
      if Tick(d) == 0 {
        TickToZero(d);
        Xor16Zero(u);
        assert c == u;
        OneIsWithin(|bits| - 1);
        NotWithinZero(|bits| - 1);
      } else {
        var m := |bits| - 2;
        Grow(Tick(d), m, bits[0]);
        assert d == Shl16(Tick(d));
      }
    }
  }

  lemma UnitWords()
    ensures Unit16(true) == 1 && Unit16(false) == 0
  {
  }

  lemma NotWithinZero(m: nat)
    requires m < 16
    ensures !Within(0, m)
  {
  }

  lemma {:induction false} FeedZeros(bits: seq<bool>)
    requires AllFalse(bits)
    ensures Feed(0, bits) == 0
    decreases |bits|
  {
    if bits != [] {
      hide Tick, Xor16;
      Xor16Zero(0);
      TickToZero(0);
      FeedZeros(bits[1..]);
    }
  }

  lemma {:induction false} FeedZerosInjective(c: word, bits: seq<bool>)
    requires AllFalse(bits) && Feed(c, bits) == 0
    ensures c == 0
    decreases |bits|
  {
    if bits != [] {
      hide Tick, Xor16;
      Xor16Zero(c);
      FeedZerosInjective(Tick(c), bits[1..]);
      TickToZero(c);
    }
  }

  /** `e` is a nonzero error confined to the sixteen bits from position `p`. */
  ghost predicate BurstAt(e: seq<bool>, p: nat) {
    && p <= |e|
    && (forall k :: 0 <= k < |e| && (k < p || p + 16 <= k) ==> !e[k])
    && exists k :: 0 <= k < |e| && e[k]
  }

  /** A burst never feeds the register back to zero. */
  lemma BurstLeavesResidue(e: seq<bool>, p: nat)
    requires BurstAt(e, p)
    ensures Feed(0, e) != 0
  {
    hide Feed;
    var q := if p + 16 <= |e| then p + 16 else |e|;
    var pre, mid, post := e[..p], e[p..q], e[q..];
    assert e == (pre + mid) + post;
    FeedConcat(0, pre + mid, post);
    FeedConcat(0, pre, mid);
    FeedZeros(pre);
    var k :| 0 <= k < |e| && e[k];
    assert mid[k - p];
    NotWithinZero(|mid| - 1);
    if Feed(0, mid) == 0 {
      ZeroAfter(0, mid);
    } else if Feed(0, e) == 0 {
      FeedZerosInjective(Feed(0, mid), post);
    }
  }

  /** Error detection: of two byte strings of the same length that differ by a burst of at most
      sixteen bits in transmission order, at most one leaves residue 0. */
  lemma BurstDetected(sent: seq<byte>, heard: seq<byte>, p: nat)
    requires |sent| == |heard| && Crc(sent) == 0
    requires BurstAt(XorBits(BitsOf(sent), BitsOf(heard)), p)
    ensures Crc(heard) != 0
  {
    hide Feed;
    var x, y := BitsOf(sent), BitsOf(heard);
    CrcIsFeed(sent);
    CrcIsFeed(heard);
    Xor16Zero(0);
    FeedXor(0, 0, x, y);
    BurstLeavesResidue(XorBits(x, y), p);
  }
}
