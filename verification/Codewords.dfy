/** What the frame check detects, exactly: bit sequences are polynomials over GF(2), and the register ends at zero
    for the multiples of the generator and for nothing else. */
module Codewords {
  import opened Bytes
  import opened Words
  import opened FrameCheck

  /** The generator of section 2 of ITU-T V.41, by its exponents. */
  predicate HasTerm(exponent: nat) {
    exponent == 16 || exponent == 12 || exponent == 5 || exponent == 0
  }

  /** Its coefficients, in the order of transmission: the highest power first. */
  function Generator(): (g: seq<bool>)
    ensures |g| == 17
  {
    seq(17, i requires 0 <= i < 17 => HasTerm(16 - i))
  }

  function Falses(n: nat): (z: seq<bool>)
    ensures |z| == n && AllFalse(z)
  {
    seq(n, _ => false)
  }

  /** The product of a polynomial with the generator: the shifted copies that its terms select, added up. */
  function Multiple(q: seq<bool>): (r: seq<bool>)
    ensures |r| == |q| + 16
    decreases |q|
  {
    if q == [] then Falses(16)
    else XorBits(if q[0] then Generator() + Falses(|q| - 1) else Falses(|q| + 16), [false] + Multiple(q[1..]))
  }

  // ---- The generator leaves the register at zero

  /** The register after the first `k` coefficients. */
  function Register(k: nat): word {
    if k == 0 then 0x0000 else if k == 1 then 0x8408 else if k == 2 then 0x4204 else if k == 3 then 0x2102
    else if k == 4 then 0x1081 else if k == 5 then 0x0840 else if k == 6 then 0x0420 else if k == 7 then 0x0210
    else if k == 8 then 0x0108 else if k == 9 then 0x0084 else if k == 10 then 0x0042 else if k == 11 then 0x0021
    else if k == 12 then 0x0010 else if k == 13 then 0x0008 else if k == 14 then 0x0004 else if k == 15 then 0x0002
    else if k == 16 then 0x0001 else 0x0000
  }

  lemma RegisterStep(k: nat)
    requires k < 17
    ensures Register(k + 1) == Tick(Xor16(Register(k), Unit16(HasTerm(16 - k))))
  {
    if k < 8 {
      if k == 0 {} else if k == 1 {} else if k == 2 {} else if k == 3 {}
      else if k == 4 {} else if k == 5 {} else if k == 6 {} else {}
    } else {
      if k == 8 {} else if k == 9 {} else if k == 10 {} else if k == 11 {}
      else if k == 12 {} else if k == 13 {} else if k == 14 {} else if k == 15 {} else {}
    }
  }

  lemma {:induction false} GeneratorPrefix(k: nat)
    requires k <= 17
    ensures Feed(0, Generator()[..k]) == Register(k)
  {
    hide Tick, Xor16, Register, Unit16, HasTerm;
    var g := Generator();
    if k == 0 {
      RegisterStarts();
    } else {
      GeneratorPrefix(k - 1);
      assert g[..k] == g[..k - 1] + [g[k - 1]];
      FeedConcat(0, g[..k - 1], [g[k - 1]]);
      FeedOne(Register(k - 1), g[k - 1]);
      RegisterStep(k - 1);
    }
  }

  lemma RegisterStarts()
    ensures Register(0) == 0 && Register(17) == 0
  {
  }

  lemma GeneratorLeavesZero(tail: nat)
    ensures Feed(0, Generator() + Falses(tail)) == 0
  {
    hide Feed, Register;
    GeneratorPrefix(17);
    RegisterStarts();
    assert Generator()[..17] == Generator();
    FeedConcat(0, Generator(), Falses(tail));
    FeedZeros(Falses(tail));
  }

  // ---- Multiples, and nothing else

  /** A leading zero changes nothing. */
  lemma LeadingFalse(bits: seq<bool>)
    ensures Feed(0, [false] + bits) == Feed(0, bits)
  {
    hide Feed;
    assert [false][0] == false;
    FeedZeros([false]);
    FeedConcat(0, [false], bits);
  }

  lemma {:induction false} MultipleLeavesZero(q: seq<bool>)
    ensures Feed(0, Multiple(q)) == 0
    decreases |q|
  {
    hide Feed, Xor16, Generator;
    if q == [] {
      FeedZeros(Falses(16));
    } else {
      MultipleLeavesZero(q[1..]);
      LeadingFalse(Multiple(q[1..]));
      GeneratorLeavesZero(|q| - 1);
      FeedZeros(Falses(|q| + 16));
      var shifted := if q[0] then Generator() + Falses(|q| - 1) else Falses(|q| + 16);
      Xor16Zero(0);
      FeedXor(0, 0, shifted, [false] + Multiple(q[1..]));
    }
  }

  lemma XorBitsTwice(x: seq<bool>, y: seq<bool>)
    requires |x| == |y|
    ensures XorBits(y, XorBits(y, x)) == x
  {
  }

  /** Division: a sequence that leaves zero is a multiple. */
  lemma {:induction false} Quotient(bits: seq<bool>) returns (q: seq<bool>)
    requires |bits| >= 16 && Feed(0, bits) == 0
    ensures |q| == |bits| - 16 && bits == Multiple(q)
    decreases |bits|
  {
    hide Feed, Xor16, Generator, Multiple;
    if |bits| == 16 {
      q := [];
      ShortIsZero(bits);
      MultipleNothing();
      assert bits == Falses(16);
    } else {
      var n := |bits| - 17;
      var shifted := if bits[0] then Generator() + Falses(n) else Falses(n + 17);
      var rest := XorBits(shifted, bits);
      GeneratorLeavesZero(n);
      FeedZeros(Falses(n + 17));
      Xor16Zero(0);
      FeedXor(0, 0, shifted, bits);
      LeadingCoefficient();
      assert rest == [false] + rest[1..];
      LeadingFalse(rest[1..]);
      var q' := Quotient(rest[1..]);
      q := [bits[0]] + q';
      assert q[1..] == q';
      MultipleNext(q);
      XorBitsTwice(bits, shifted);
    }
  }

  lemma MultipleNothing()
    ensures Multiple([]) == Falses(16)
  {
  }

  lemma MultipleNext(q: seq<bool>)
    requires q != []
    ensures Multiple(q) == XorBits(if q[0] then Generator() + Falses(|q| - 1) else Falses(|q| + 16),
                                   [false] + Multiple(q[1..]))
  {
  }

  lemma LeadingCoefficient()
    ensures Generator()[0]
  {
  }

  /** Fewer bits than the generator has leave zero only when all are zero. */
  lemma ShortIsZero(bits: seq<bool>)
    requires |bits| <= 16
    ensures Feed(0, bits) == 0 <==> AllFalse(bits)
  {
    hide Feed;
    if Feed(0, bits) == 0 {
      ZeroAfter(0, bits);
      if bits != [] {
        NotWithinZero(|bits| - 1);
      }
    }
    if AllFalse(bits) {
      FeedZeros(bits);
    }
  }

  /** A frame with its check bytes leaves the register at zero exactly when its bits, as transmitted, are a
      multiple of x^16 + x^12 + x^5 + 1. */
  lemma ZeroMeansMultiple(data: seq<byte>)
    requires |data| >= 2
    ensures Crc(data) == 0 <==> exists q :: |q| == 8 * |data| - 16 && BitsOf(data) == Multiple(q)
  {
    hide Feed, Multiple, BitsOf;
    CrcIsFeed(data);
    if Crc(data) == 0 {
      var q := Quotient(BitsOf(data));
    }
    if q :| |q| == 8 * |data| - 16 && BitsOf(data) == Multiple(q) {
      MultipleLeavesZero(q);
    }
  }
}
