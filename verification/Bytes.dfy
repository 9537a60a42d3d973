/** Bytes, their bits, and the exclusive or on which every checksum, key stream and field sum of the
    protocol is built.  Xor and Bit are named functions so that a proof can `hide` them and argue
    from the laws alone. */
module Bytes {

  type byte = bv8

  // ---- Bits

  /** The byte whose only set bit is bit `i`. */
  function Mask(i: nat): byte
    requires i < 8
  {
    if i == 0 then 0x01 else if i == 1 then 0x02 else if i == 2 then 0x04 else if i == 3 then 0x08
    else if i == 4 then 0x10 else if i == 5 then 0x20 else if i == 6 then 0x40 else 0x80
  }

  /** Bit `i` of a byte, counted from the least significant. */
  predicate Bit(x: byte, i: nat)
    requires i < 8
  {
    x & Mask(i) != 0
  }

  /** A byte is determined by its bits. */
  lemma BitsEqual(x: byte, y: byte)
    requires forall i :: 0 <= i < 8 ==> Bit(x, i) == Bit(y, i)
    ensures x == y
  {
    assert Bit(x, 0) == Bit(y, 0);
    assert Bit(x, 1) == Bit(y, 1);
    assert Bit(x, 2) == Bit(y, 2);
    assert Bit(x, 3) == Bit(y, 3);
    assert Bit(x, 4) == Bit(y, 4);
    assert Bit(x, 5) == Bit(y, 5);
    assert Bit(x, 6) == Bit(y, 6);
    assert Bit(x, 7) == Bit(y, 7);
  }

  // ---- Exclusive or

  function Xor(a: byte, b: byte): byte {
    a ^ b
  }

  lemma BitXor(a: byte, b: byte, i: nat)
    requires i < 8
    ensures Bit(Xor(a, b), i) == (Bit(a, i) != Bit(b, i))
  {
  }

  lemma BitsXor(i: nat)
    requires i < 8
    ensures forall a, b :: Bit(Xor(a, b), i) == (Bit(a, i) != Bit(b, i))
    ensures !Bit(0, i)
  {
    assert !Bit(0, i);
    forall a, b
      ensures Bit(Xor(a, b), i) == (Bit(a, i) != Bit(b, i))
    {
      BitXor(a, b, i);
    }
  }

  lemma XorComm(a: byte, b: byte)
    ensures Xor(a, b) == Xor(b, a)
  {
  }

  lemma RawAssoc(a: byte, b: byte, c: byte)
    ensures (a ^ b) ^ c == a ^ (b ^ c)
  {
  }

  lemma XorAssoc(a: byte, b: byte, c: byte)
    ensures Xor(Xor(a, b), c) == Xor(a, Xor(b, c))
  {
    RawAssoc(a, b, c);
  }

  lemma XorSwap(a: byte, b: byte, c: byte, d: byte)
    ensures Xor(Xor(a, b), Xor(c, d)) == Xor(Xor(a, c), Xor(b, d))
  {
    hide Xor;
    XorAssoc(a, b, Xor(c, d));
    XorAssoc(b, c, d);
    XorComm(b, c);
    XorAssoc(c, b, d);
    XorAssoc(a, c, Xor(b, d));
  }

  lemma XorZero(a: byte)
    ensures Xor(a, 0) == a
    ensures Xor(0, a) == a
    ensures Xor(a, a) == 0
  {
  }

  /** Adding the same byte twice changes nothing. */
  lemma XorCancel(a: byte, k: byte)
    ensures Xor(Xor(a, k), k) == a
  {
  }

  // ---- Buffers

  function Zeros(n: nat): (z: seq<byte>)
    ensures |z| == n && forall i :: 0 <= i < n ==> z[i] == 0
  {
    seq(n, _ => 0)
  }

  /** memcpy: writes `src` over the bytes of `dst` from index `at`. */
  method CopyInto(dst: array<byte>, at: nat, src: seq<byte>)
    requires at + |src| <= dst.Length
    modifies dst
    ensures dst[..at] == old(dst[..at])
    ensures dst[at..at + |src|] == src
    ensures dst[at + |src|..] == old(dst[at + |src|..])
  {
    for i := 0 to |src|
      invariant dst[..at] == old(dst[..at])
      invariant dst[at..at + i] == src[..i]
      invariant dst[at + |src|..] == old(dst[at + |src|..])
    {
      dst[at + i] := src[i];
    }
  }
}
