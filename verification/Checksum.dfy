/** The proprietary checksum inside the initialization vector (proto_crypto.cpp): two bytes that turn
    out to be a 16-bit shift register.  The main results are that a step is linear and invertible,
    and what that says about transcripts that differ. */
module Checksum {
  import opened Bytes
  import opened Words

  // ---- Shifting a byte

  predicate Top(x: byte) {
    x & 0x80 != 0
  }

  function Shl(x: byte): byte {
    x << 1
  }

  function SetLow(x: byte, bit: bool): byte {
    if bit then x | 1 else x
  }

  /** The forms in which the source tests and shifts a byte. */
  lemma SourceForms(x: byte)
    ensures (x & 0x7F) << 1 == Shl(x)
    ensures x << 1 == Shl(x)
    ensures (x >= 128) == Top(x)
    ensures (x & 0x80 == 0) == !Top(x)
  {
  }

  /** The two running checksum bytes. */
  datatype Sum = Sum(c1: byte, c2: byte)

  /** The same step as a function: shift the state with the byte added to its low half, and add the
      constant when the top bit falls out. */
  function Step(b: byte, s: Sum): Sum {
    Reduce(Top(s.c1), Shift(s.c1, Xor(b, s.c2)))
  }

  function Shift(hi: byte, lo: byte): Sum {
    Sum(SetLow(Shl(hi), Top(lo)), Shl(lo))
  }

  function Reduce(carry: bool, s: Sum): Sum {
    if carry then Sum(Xor(s.c1, 0x55), Xor(s.c2, 0x5B)) else s
  }

  /** One step of compute_checksum. */
  method ComputeChecksum(b: byte, c1: byte, c2: byte) returns (d1: byte, d2: byte)
    ensures Sum(d1, d2) == Step(b, Sum(c1, c2))
  {
    hide Xor, Shl, Top;
    var tmp := Xor(b, c2);
    SourceForms(c1);
    SourceForms(tmp);
    d2 := (c1 & 0x7F) << 1;
    if c1 & 0x80 == 0 {
      if tmp >= 128 {
        d2 := d2 | 1;
      }
      d1 := d2;
      d2 := tmp << 1;
      return;
    }
    if tmp >= 128 {
      d2 := d2 | 1;
    }
    d1 := Xor(d2, 0x55);
    d2 := Xor(tmp << 1, 0x5B);
  }

  // ---- The register behind the two bytes

  function Pack(s: Sum): word {
    (s.c1 as word << 8) | s.c2 as word
  }

  /** One step of a 16-bit Galois shift register with feedback constant 0x555B. */
  function Lfsr(v: word): word {
    if Top16(v) then Xor16(Shl16(v), 0x555B) else Shl16(v)
  }

  lemma RawShiftOne(hi: byte, lo: byte)
    requires lo & 0x80 != 0
    ensures (((hi << 1) | 1) as word << 8) | (lo << 1) as word == ((hi as word << 8) | lo as word) << 1
  {
  }

  lemma RawShiftZero(hi: byte, lo: byte)
    requires lo & 0x80 == 0
    ensures ((hi << 1) as word << 8) | (lo << 1) as word == ((hi as word << 8) | lo as word) << 1
  {
  }

  lemma PackShiftOne(hi: byte, lo: byte)
    requires Top(lo)
    ensures Pack(Sum((hi << 1) | 1, lo << 1)) == Shl16(Pack(Sum(hi, lo)))
  {
    RawShiftOne(hi, lo);
  }

  lemma PackShiftZero(hi: byte, lo: byte)
    requires !Top(lo)
    ensures Pack(Sum(hi << 1, lo << 1)) == Shl16(Pack(Sum(hi, lo)))
  {
    RawShiftZero(hi, lo);
  }

  lemma ShiftForm(hi: byte, lo: byte)
    ensures Shift(hi, lo) == if Top(lo) then Sum((hi << 1) | 1, lo << 1) else Sum(hi << 1, lo << 1)
  {
  }

  lemma PackShift(hi: byte, lo: byte)
    ensures Pack(Shift(hi, lo)) == Shl16(Pack(Sum(hi, lo)))
  {
    hide Shift, Pack, Shl16, Top;
    ShiftForm(hi, lo);
    if Top(lo) {
      PackShiftOne(hi, lo);
    } else {
      PackShiftZero(hi, lo);
    }
  }

  lemma PackTop(s: Sum)
    ensures Top16(Pack(s)) == Top(s.c1)
  {
  }

  lemma PackXor(a: Sum, b: Sum)
    ensures Pack(Sum(Xor(a.c1, b.c1), Xor(a.c2, b.c2))) == Xor16(Pack(a), Pack(b))
  {
  }

  lemma PackConstants(b: byte)
    ensures Pack(Sum(0, b)) == b as word
    ensures Pack(Sum(0x55, 0x5B)) == 0x555B
  {
  }

  /** The checksum of the protocol is a shift register that absorbs one byte a step. */
  lemma StepIsLfsr(b: byte, s: Sum)
    ensures Pack(Step(b, s)) == Lfsr(Xor16(Pack(s), b as word))
  {
    hide Pack, Xor, Xor16, Shl16, Top16, Shift, Top;
    var t := Sum(s.c1, Xor(b, s.c2));
    XorZero(s.c1);
    XorComm(b, s.c2);
    PackConstants(b);
    PackXor(s, Sum(0, b));
    PackTop(t);
    PackShift(t.c1, t.c2);
    PackXor(Shift(t.c1, t.c2), Sum(0x55, 0x5B));
  }

  // ---- One step is invertible in the state

  predicate Low(x: byte) {
    x & 1 != 0
  }

  function Unshl(x: byte, top: bool): byte {
    if top then (x >> 1) | 0x80 else x >> 1
  }

  lemma UnshlShl(x: byte)
    ensures Unshl(Shl(x), Top(x)) == x
    ensures Unshl(Shl(x) | 1, Top(x)) == x
    ensures !Low(Shl(x)) && Low(Shl(x) | 1)
  {
    if x & 0x80 != 0 {} else {}
  }

  lemma ShlUnshl(x: byte, top: bool)
    ensures Low(x) ==> Shl(Unshl(x, top)) | 1 == x
    ensures !Low(x) ==> Shl(Unshl(x, top)) == x
    ensures Top(Unshl(x, top)) == top
  {
    if x & 1 != 0 {} else {}
  }

  lemma LowXor(x: byte)
    ensures Low(Xor(x, 0x55)) == !Low(x)
    ensures Low(Xor(x, 0x5B)) == !Low(x)
  {
  }

  /** The state before a step that absorbed `b`. */
  function Unstep(b: byte, s: Sum): Sum {
    var carry := Low(s.c2);
    var u := Reduce(carry, s);
    Sum(Unshl(u.c1, carry), Xor(b, Unshl(u.c2, Low(u.c1))))
  }

  lemma UnstepStep(b: byte, s: Sum)
    ensures Unstep(b, Step(b, s)) == s
  {
    hide Xor, Shl, Top, Low, Unshl;
    var tmp := Xor(b, s.c2);
    var t := Shift(s.c1, tmp);
    UnshlShl(s.c1);
    UnshlShl(tmp);
    LowXor(t.c2);
    XorCancel(t.c1, 0x55);
    XorCancel(t.c2, 0x5B);
    XorLeftCancel(b, s.c2);
  }

  lemma XorLeftCancel(b: byte, x: byte)
    ensures Xor(b, Xor(b, x)) == x
  {
    hide Xor;
    XorComm(b, x);
    XorCancel(x, b);
    XorComm(Xor(x, b), b);
  }

  lemma StepUnstep(b: byte, s: Sum)
    ensures Step(b, Unstep(b, s)) == s
  {
    hide Xor, Shl, Top, Low, Unshl;
    var carry := Low(s.c2);
    var u := Reduce(carry, s);
    XorCancel(s.c1, 0x55);
    XorCancel(s.c2, 0x5B);
    LowXor(s.c2);
    ShlUnshl(u.c1, carry);
    ShlUnshl(u.c2, Low(u.c1));
    XorLeftCancel(b, Unshl(u.c2, Low(u.c1)));
  }

  // ---- One step is linear

  function Add(s: Sum, t: Sum): Sum {
    Sum(Xor(s.c1, t.c1), Xor(s.c2, t.c2))
  }

  lemma ShlXor(x: byte, y: byte)
    ensures Shl(Xor(x, y)) == Xor(Shl(x), Shl(y))
    ensures Top(Xor(x, y)) == (Top(x) != Top(y))
  {
  }

  lemma RawOr(x: byte, y: byte)
    ensures ((x << 1) ^ (y << 1)) | 1 == ((x << 1) | 1) ^ (y << 1)
    ensures ((x << 1) ^ (y << 1)) | 1 == (x << 1) ^ ((y << 1) | 1)
    ensures (x << 1) ^ (y << 1) == ((x << 1) | 1) ^ ((y << 1) | 1)
  {
  }

  lemma SetLowXor(x: byte, y: byte, p: bool, q: bool)
    ensures SetLow(Xor(Shl(x), Shl(y)), p != q) == Xor(SetLow(Shl(x), p), SetLow(Shl(y), q))
  {
    RawOr(x, y);
    if p {
      if q {} else {}
    } else {
      if q {} else {}
    }
  }

  lemma ReduceAdd(p: bool, q: bool, s: Sum, t: Sum)
    ensures Reduce(p != q, Add(s, t)) == Add(Reduce(p, s), Reduce(q, t))
  {
    hide Xor;
    XorSwap(s.c1, 0x55, t.c1, 0x55);
    XorSwap(s.c2, 0x5B, t.c2, 0x5B);
    XorZero(0x55);
    XorZero(0x5B);
    XorZero(Xor(s.c1, t.c1));
    XorZero(Xor(s.c2, t.c2));
    XorAssoc(s.c1, t.c1, 0x55);
    XorAssoc(s.c2, t.c2, 0x5B);
    XorAssoc(s.c1, 0x55, t.c1);
    XorAssoc(s.c2, 0x5B, t.c2);
    XorComm(0x55, t.c1);
    XorComm(0x5B, t.c2);
  }

  /** Absorbing the sum of two bytes into the sum of two states gives the sum of the two results. */
  lemma StepAdd(a: byte, b: byte, s: Sum, t: Sum)
    ensures Step(Xor(a, b), Add(s, t)) == Add(Step(a, s), Step(b, t))
  {
    hide Xor, Shl, Top, SetLow, Reduce;
    var x, y := Xor(a, s.c2), Xor(b, t.c2);
    XorSwap(a, b, s.c2, t.c2);
    ShlXor(s.c1, t.c1);
    ShlXor(x, y);
    SetLowXor(s.c1, t.c1, Top(x), Top(y));
    ReduceAdd(Top(s.c1), Top(t.c1), Shift(s.c1, x), Shift(t.c1, y));
  }

  // ---- Whole messages

  /** The state after absorbing `data` from state `s`. */
  function Run(s: Sum, data: seq<byte>): Sum {
    if data == [] then s else Step(data[|data| - 1], Run(s, data[..|data| - 1]))
  }

  const ZERO := Sum(0, 0)

  function XorSeq(x: seq<byte>, y: seq<byte>): (z: seq<byte>)
    requires |x| == |y|
    ensures |z| == |x|
  {
    seq(|x|, i requires 0 <= i < |x| => Xor(x[i], y[i]))
  }

  /** The checksum of a sum of messages is the sum of their checksums. */
  lemma {:induction false} RunAdd(s: Sum, t: Sum, x: seq<byte>, y: seq<byte>)
    requires |x| == |y|
    ensures Run(Add(s, t), XorSeq(x, y)) == Add(Run(s, x), Run(t, y))
  {
    hide Step, Add, Xor;
    if x != [] {
      var n := |x| - 1;
      RunAdd(s, t, x[..n], y[..n]);
      assert XorSeq(x, y)[..n] == XorSeq(x[..n], y[..n]);
      StepAdd(x[n], y[n], Run(s, x[..n]), Run(t, y[..n]));
    }
  }

  /** Distinct states stay distinct under the same bytes. */
  lemma {:induction false} RunInjective(s: Sum, t: Sum, data: seq<byte>)
    requires Run(s, data) == Run(t, data)
    ensures s == t
  {
    if data != [] {
      hide Step, Unstep;
      var n := |data| - 1;
      UnstepStep(data[n], Run(s, data[..n]));
      UnstepStep(data[n], Run(t, data[..n]));
      RunInjective(s, t, data[..n]);
    }
  }

  lemma {:induction false} RunSplit(s: Sum, x: seq<byte>, y: seq<byte>)
    ensures Run(s, x + y) == Run(Run(s, x), y)
  {
    hide Step;
    if y == [] {
      assert x + y == x;
    } else {
      var n := |y| - 1;
      RunSplit(s, x, y[..n]);
      assert (x + y)[..|x| + n] == x + y[..n];
    }
  }

  /** A step tells apart the bytes it absorbs. */
  lemma StepSeparates(a: byte, b: byte, s: Sum)
    requires Step(a, s) == Step(b, s)
    ensures a == b
  {
    hide Step, Xor;
    UnstepStep(a, s);
    UnstepStep(b, s);
    var u := Unstep(a, Step(a, s));
    SameSummand(a, b, s);
  }

  lemma SameSummand(a: byte, b: byte, s: Sum)
    requires Unstep(a, Step(a, s)) == Unstep(b, Step(a, s))
    ensures a == b
  {
    hide Step, Xor, Unshl, Low;
    var t := Step(a, s);
    var u := Reduce(Low(t.c2), t);
    var v := Unshl(u.c2, Low(u.c1));
    XorCancel(a, v);
    XorCancel(b, v);
  }

  /** Changing exactly one byte of a message, wherever it is, changes its checksum. */
  lemma OneByteChangesChecksum(pre: seq<byte>, a: byte, b: byte, post: seq<byte>)
    requires a != b
    ensures Run(ZERO, pre + [a] + post) != Run(ZERO, pre + [b] + post)
  {
    hide Step;
    var s := Run(ZERO, pre);
    RunSplit(ZERO, pre, [a]);
    RunSplit(ZERO, pre, [b]);
    RunSplit(ZERO, pre + [a], post);
    RunSplit(ZERO, pre + [b], post);
    assert [a][..0] == [] && [b][..0] == [];
    assert Run(s, [a]) == Step(a, s) && Run(s, [b]) == Step(b, s);
    if Run(ZERO, pre + [a] + post) == Run(ZERO, pre + [b] + post) {
      RunInjective(Run(s, [a]), Run(s, [b]), post);
      StepSeparates(a, b, s);
    }
  }

  /** The limit of that: two adjacent changes a -> a', b -> b' go unnoticed exactly when the second
      change is the first one shifted left without loss. */
  lemma TwoByteChangesChecksum(pre: seq<byte>, a: byte, a': byte, b: byte, b': byte, post: seq<byte>)
    ensures Run(ZERO, pre + [a, b] + post) == Run(ZERO, pre + [a', b'] + post)
       <==> !Top(Xor(a, a')) && Xor(b, b') == Shl(Xor(a, a'))
  {
    hide Step, Xor, Shl, Top, Add;
    var s := Run(ZERO, pre);
    RunSplit(ZERO, pre, [a, b]);
    RunSplit(ZERO, pre, [a', b']);
    RunSplit(ZERO, pre + [a, b], post);
    RunSplit(ZERO, pre + [a', b'], post);
    var u, u' := Run(s, [a, b]), Run(s, [a', b']);
    if u != u' && Run(u, post) == Run(u', post) {
      RunInjective(u, u', post);
    }
    TwoSteps(s, a, b);
    TwoSteps(s, a', b');
    StepAdd(a, a', s, s);
    StepAdd(b, b', Step(a, s), Step(a', s));
    AddSelf(s);
    AddZero(u, u');
    TwoStepsFromZero(Xor(a, a'), Xor(b, b'));
  }

  lemma TwoSteps(s: Sum, a: byte, b: byte)
    ensures Run(s, [a, b]) == Step(b, Step(a, s))
  {
    hide Step;
    assert [a, b][..1] == [a] && [a][..0] == [];
    assert Run(s, [a]) == Step(a, Run(s, []));
    assert Run(s, [a, b]) == Step(b, Run(s, [a]));
  }

  lemma AddSelf(s: Sum)
    ensures Add(s, s) == ZERO
  {
    XorZero(s.c1);
    XorZero(s.c2);
  }

  lemma AddZero(s: Sum, t: Sum)
    ensures Add(s, t) == ZERO <==> s == t
  {
    hide Xor;
    XorZero(s.c1);
    XorZero(s.c2);
    XorZero(t.c1);
    XorZero(t.c2);
    XorCancel(s.c1, t.c1);
    XorCancel(s.c2, t.c2);
  }

  lemma TwoStepsFromZero(d: byte, e: byte)
    ensures Step(e, Step(d, ZERO)) == ZERO <==> !Top(d) && e == Shl(d)
  {
    hide Xor, Shl, Unstep, Step;
    var s := Step(d, ZERO);
    assert s == Sum(if Top(d) then 1 else 0, Shl(d)) by {
      StepFromZero(d);
    }
    StepToZero(e, s);
    XorZero(e);
    XorCancel(e, Shl(d));
    XorZero(Shl(d));
  }

  lemma StepFromZero(d: byte)
    ensures Step(d, ZERO) == Sum(if Top(d) then 1 else 0, Shl(d))
  {
    XorZero(d);
    assert !Top(0) && Shl(0) == 0;
  }

  lemma StepToZero(b: byte, s: Sum)
    ensures Step(b, s) == ZERO <==> s.c1 == 0 && Xor(b, s.c2) == 0
  {
    hide Xor, Unstep, Step;
    UnstepStep(b, s);
    UnstepToZero(b);
    XorCancel(b, s.c2);
    XorComm(b, s.c2);
    XorCancel(s.c2, b);
    XorZero(b);
    XorZero(s.c2);
    StepUnstep(b, ZERO);
  }

  lemma UnstepToZero(b: byte)
    ensures Unstep(b, ZERO) == Sum(0, b)
  {
    XorZero(b);
    assert !Low(0) && Unshl(0, false) == 0;
  }
}
