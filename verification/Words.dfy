/** Sixteen-bit words: exclusive or and shifts by one, with the laws that shift registers need. */
module Words {

  type word = bv16

  function Xor16(a: word, b: word): word {
    a ^ b
  }

  predicate Top16(v: word) {
    v & 0x8000 != 0
  }

  predicate Low16(v: word) {
    v & 1 != 0
  }

  function Shl16(v: word): word {
    v << 1
  }

  function Shr16(v: word): word {
    v >> 1
  }

  /** A single bit as a word. */
  function Unit16(b: bool): word {
    if b then 1 else 0
  }

  lemma Xor16Comm(a: word, b: word)
    ensures Xor16(a, b) == Xor16(b, a)
  {
  }

  lemma RawAssoc16(a: word, b: word, c: word)
    ensures (a ^ b) ^ c == a ^ (b ^ c)
  {
  }

  lemma Xor16Assoc(a: word, b: word, c: word)
    ensures Xor16(Xor16(a, b), c) == Xor16(a, Xor16(b, c))
  {
    RawAssoc16(a, b, c);
  }

  lemma Xor16Swap(a: word, b: word, c: word, d: word)
    ensures Xor16(Xor16(a, b), Xor16(c, d)) == Xor16(Xor16(a, c), Xor16(b, d))
  {
    hide Xor16;
    Xor16Assoc(a, b, Xor16(c, d));
    Xor16Assoc(b, c, d);
    Xor16Comm(b, c);
    Xor16Assoc(c, b, d);
    Xor16Assoc(a, c, Xor16(b, d));
  }

  lemma Xor16Zero(a: word)
    ensures Xor16(a, 0) == a
    ensures Xor16(0, a) == a
    ensures Xor16(a, a) == 0
  {
  }

  lemma Xor16Cancel(a: word, k: word)
    ensures Xor16(Xor16(a, k), k) == a
  {
  }

  lemma Shr16Xor(a: word, b: word)
    ensures Shr16(Xor16(a, b)) == Xor16(Shr16(a), Shr16(b))
    ensures Low16(Xor16(a, b)) == (Low16(a) != Low16(b))
  {
  }
}
