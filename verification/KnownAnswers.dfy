/** The known-answer vectors of the original's tests (tests/corpus_crypto_test.cpp, tests/proto_frame_test.cpp) and
    a captured key transfer, computed through the specification.  They fix the constants and the order of steps that
    the algebraic laws leave open.  The cipher is followed a column at a time, each column a 32-bit word. */
module KnownAnswers {
  import opened Bytes
  import opened Gf256
  import opened Aes
  import opened Checksum
  import opened Crypto
  import FrameCheck

  // ---- Columns as words

  function Word(b0: byte, b1: byte, b2: byte, b3: byte): bv32 {
    ((b0 as bv32) << 24) | ((b1 as bv32) << 16) | ((b2 as bv32) << 8) | (b3 as bv32)
  }

  function B0(w: bv32): byte {
    ((w >> 24) & 0xFF) as byte
  }

  function B1(w: bv32): byte {
    ((w >> 16) & 0xFF) as byte
  }

  function B2(w: bv32): byte {
    ((w >> 8) & 0xFF) as byte
  }

  function B3(w: bv32): byte {
    (w & 0xFF) as byte
  }

  function Plus(a: bv32, b: bv32): bv32 {
    a ^ b
  }

  lemma WordBytes(b0: byte, b1: byte, b2: byte, b3: byte)
    ensures var w := Word(b0, b1, b2, b3); B0(w) == b0 && B1(w) == b1 && B2(w) == b2 && B3(w) == b3
  {
  }

  function Column(s: seq<byte>, c: nat): bv32
    requires 4 * c + 4 <= |s|
  {
    Word(s[4 * c], s[4 * c + 1], s[4 * c + 2], s[4 * c + 3])
  }

  // ---- The cipher by columns

  /** A column after a round: the diagonal that is shifted into it, substituted, mixed and added to the key. */
  function MixedColumn(a: bv32, b: bv32, c: bv32, d: bv32, k: bv32): bv32 {
    var s0, s1, s2, s3 := Sbox(B0(a)), Sbox(B1(b)), Sbox(B2(c)), Sbox(B3(d));
    Word(Xor(MixByte(s0, s1, s2, s3), B0(k)), Xor(MixByte(s1, s2, s3, s0), B1(k)),
         Xor(MixByte(s2, s3, s0, s1), B2(k)), Xor(MixByte(s3, s0, s1, s2), B3(k)))
  }

  /** The last round does not mix. */
  function LastColumn(a: bv32, b: bv32, c: bv32, d: bv32, k: bv32): bv32 {
    Word(Xor(Sbox(B0(a)), B0(k)), Xor(Sbox(B1(b)), B1(k)), Xor(Sbox(B2(c)), B2(k)), Xor(Sbox(B3(d)), B3(k)))
  }

  /** The columns `t` follow from the columns `s` by a round with the key words `k`. */
  predicate Round(s0: bv32, s1: bv32, s2: bv32, s3: bv32, k0: bv32, k1: bv32, k2: bv32, k3: bv32,
                  t0: bv32, t1: bv32, t2: bv32, t3: bv32)
  {
    && t0 == MixedColumn(s0, s1, s2, s3, k0) && t1 == MixedColumn(s1, s2, s3, s0, k1)
    && t2 == MixedColumn(s2, s3, s0, s1, k2) && t3 == MixedColumn(s3, s0, s1, s2, k3)
  }

  /** The key words `n` follow from the key words `k`. */
  predicate NextKey(k0: bv32, k1: bv32, k2: bv32, k3: bv32, constant: byte, n0: bv32, n1: bv32, n2: bv32, n3: bv32) {
    && n0 == Plus(k0, Word(Xor(Sbox(B1(k3)), constant), Sbox(B2(k3)), Sbox(B3(k3)), Sbox(B0(k3))))
    && n1 == Plus(k1, n0) && n2 == Plus(k2, n1) && n3 == Plus(k3, n2)
  }

  // ---- The columns follow the cipher

  lemma ColumnBytes(s: seq<byte>, c: nat)
    requires 4 * c + 4 <= |s|
    ensures var w := Column(s, c);
            B0(w) == s[4 * c] && B1(w) == s[4 * c + 1] && B2(w) == s[4 * c + 2] && B3(w) == s[4 * c + 3]
  {
    WordBytes(s[4 * c], s[4 * c + 1], s[4 * c + 2], s[4 * c + 3]);
  }

  lemma RoundByte(s: seq<byte>, w: seq<byte>, round: nat, i: nat)
    requires |s| == BLOCK && |w| == SCHEDULE && round <= 10 && i < BLOCK
    ensures EncryptRound(s, w, round)[i] ==
            Xor(MixByte(Sbox(s[LeftOf(i)]), Sbox(s[LeftOf(Below(i, 1))]), Sbox(s[LeftOf(Below(i, 2))]),
                        Sbox(s[LeftOf(Below(i, 3))])), w[16 * round + i])
  {
    hide Xor, MixByte, Sbox, LeftOf, Below;
  }

  lemma RoundColumn0(s: seq<byte>, w: seq<byte>, round: nat)
    requires |s| == BLOCK && |w| == SCHEDULE && round <= 10
    ensures Column(EncryptRound(s, w, round), 0) ==
            MixedColumn(Column(s, 0), Column(s, 1), Column(s, 2), Column(s, 3), Column(w, 4 * round + 0))
  {
    hide Xor, MixByte, Sbox, EncryptRound, Word, B0, B1, B2, B3;
    RoundByte(s, w, round, 0);
    RoundByte(s, w, round, 1);
    RoundByte(s, w, round, 2);
    RoundByte(s, w, round, 3);
    ColumnBytes(s, 0);
    ColumnBytes(s, 1);
    ColumnBytes(s, 2);
    ColumnBytes(s, 3);
    ColumnBytes(w, 4 * round + 0);
  }

  lemma RoundColumn1(s: seq<byte>, w: seq<byte>, round: nat)
    requires |s| == BLOCK && |w| == SCHEDULE && round <= 10
    ensures Column(EncryptRound(s, w, round), 1) ==
            MixedColumn(Column(s, 1), Column(s, 2), Column(s, 3), Column(s, 0), Column(w, 4 * round + 1))
  {
    hide Xor, MixByte, Sbox, EncryptRound, Word, B0, B1, B2, B3;
    RoundByte(s, w, round, 4);
    RoundByte(s, w, round, 5);
    RoundByte(s, w, round, 6);
    RoundByte(s, w, round, 7);
    ColumnBytes(s, 0);
    ColumnBytes(s, 1);
    ColumnBytes(s, 2);
    ColumnBytes(s, 3);
    ColumnBytes(w, 4 * round + 1);
  }

  lemma RoundColumn2(s: seq<byte>, w: seq<byte>, round: nat)
    requires |s| == BLOCK && |w| == SCHEDULE && round <= 10
    ensures Column(EncryptRound(s, w, round), 2) ==
            MixedColumn(Column(s, 2), Column(s, 3), Column(s, 0), Column(s, 1), Column(w, 4 * round + 2))
  {
    hide Xor, MixByte, Sbox, EncryptRound, Word, B0, B1, B2, B3;
    RoundByte(s, w, round, 8);
    RoundByte(s, w, round, 9);
    RoundByte(s, w, round, 10);
    RoundByte(s, w, round, 11);
    ColumnBytes(s, 0);
    ColumnBytes(s, 1);
    ColumnBytes(s, 2);
    ColumnBytes(s, 3);
    ColumnBytes(w, 4 * round + 2);
  }

  lemma RoundColumn3(s: seq<byte>, w: seq<byte>, round: nat)
    requires |s| == BLOCK && |w| == SCHEDULE && round <= 10
    ensures Column(EncryptRound(s, w, round), 3) ==
            MixedColumn(Column(s, 3), Column(s, 0), Column(s, 1), Column(s, 2), Column(w, 4 * round + 3))
  {
    hide Xor, MixByte, Sbox, EncryptRound, Word, B0, B1, B2, B3;
    RoundByte(s, w, round, 12);
    RoundByte(s, w, round, 13);
    RoundByte(s, w, round, 14);
    RoundByte(s, w, round, 15);
    ColumnBytes(s, 0);
    ColumnBytes(s, 1);
    ColumnBytes(s, 2);
    ColumnBytes(s, 3);
    ColumnBytes(w, 4 * round + 3);
  }

  lemma LastByte(s: seq<byte>, w: seq<byte>, i: nat)
    requires |s| == BLOCK && |w| == SCHEDULE && i < BLOCK
    ensures AddRoundKey(ShiftRows(SubBytes(s)), w, 10)[i] == Xor(Sbox(s[LeftOf(i)]), w[160 + i])
  {
    hide Xor, Sbox, LeftOf;
  }

  lemma LastColumn0(s: seq<byte>, w: seq<byte>)
    requires |s| == BLOCK && |w| == SCHEDULE
    ensures Column(AddRoundKey(ShiftRows(SubBytes(s)), w, 10), 0) ==
            LastColumn(Column(s, 0), Column(s, 1), Column(s, 2), Column(s, 3), Column(w, 40))
  {
    hide Xor, Sbox, AddRoundKey, ShiftRows, SubBytes, Word, B0, B1, B2, B3;
    LastByte(s, w, 0);
    LastByte(s, w, 1);
    LastByte(s, w, 2);
    LastByte(s, w, 3);
    ColumnBytes(s, 0);
    ColumnBytes(s, 1);
    ColumnBytes(s, 2);
    ColumnBytes(s, 3);
    ColumnBytes(w, 40);
  }

  lemma LastColumn1(s: seq<byte>, w: seq<byte>)
    requires |s| == BLOCK && |w| == SCHEDULE
    ensures Column(AddRoundKey(ShiftRows(SubBytes(s)), w, 10), 1) ==
            LastColumn(Column(s, 1), Column(s, 2), Column(s, 3), Column(s, 0), Column(w, 41))
  {
    hide Xor, Sbox, AddRoundKey, ShiftRows, SubBytes, Word, B0, B1, B2, B3;
    LastByte(s, w, 4);
    LastByte(s, w, 5);
    LastByte(s, w, 6);
    LastByte(s, w, 7);
    ColumnBytes(s, 0);
    ColumnBytes(s, 1);
    ColumnBytes(s, 2);
    ColumnBytes(s, 3);
    ColumnBytes(w, 41);
  }

  lemma LastColumn2(s: seq<byte>, w: seq<byte>)
    requires |s| == BLOCK && |w| == SCHEDULE
    ensures Column(AddRoundKey(ShiftRows(SubBytes(s)), w, 10), 2) ==
            LastColumn(Column(s, 2), Column(s, 3), Column(s, 0), Column(s, 1), Column(w, 42))
  {
    hide Xor, Sbox, AddRoundKey, ShiftRows, SubBytes, Word, B0, B1, B2, B3;
    LastByte(s, w, 8);
    LastByte(s, w, 9);
    LastByte(s, w, 10);
    LastByte(s, w, 11);
    ColumnBytes(s, 0);
    ColumnBytes(s, 1);
    ColumnBytes(s, 2);
    ColumnBytes(s, 3);
    ColumnBytes(w, 42);
  }

  lemma LastColumn3(s: seq<byte>, w: seq<byte>)
    requires |s| == BLOCK && |w| == SCHEDULE
    ensures Column(AddRoundKey(ShiftRows(SubBytes(s)), w, 10), 3) ==
            LastColumn(Column(s, 3), Column(s, 0), Column(s, 1), Column(s, 2), Column(w, 43))
  {
    hide Xor, Sbox, AddRoundKey, ShiftRows, SubBytes, Word, B0, B1, B2, B3;
    LastByte(s, w, 12);
    LastByte(s, w, 13);
    LastByte(s, w, 14);
    LastByte(s, w, 15);
    ColumnBytes(s, 0);
    ColumnBytes(s, 1);
    ColumnBytes(s, 2);
    ColumnBytes(s, 3);
    ColumnBytes(w, 43);
  }

  lemma WordPlus(a0: byte, a1: byte, a2: byte, a3: byte, b0: byte, b1: byte, b2: byte, b3: byte)
    ensures Plus(Word(a0, a1, a2, a3), Word(b0, b1, b2, b3)) == Word(Xor(a0, b0), Xor(a1, b1), Xor(a2, b2), Xor(a3, b3))
  {
  }

  lemma FirstKeyWord(key: seq<byte>, round: nat)
    requires |key| == BLOCK && 1 <= round <= 10
    ensures var w, c := ExpandKey(key), 4 * round;
            var l := Column(w, c - 1);
            Column(w, c) == Plus(Column(w, c - 4), Word(Xor(Sbox(B1(l)), PowerOfX(round - 1)),
                                                        Sbox(B2(l)), Sbox(B3(l)), Sbox(B0(l))))
  {
    hide Sbox, PowerOfX, ExpandKey, Word, B0, B1, B2, B3, Xor, Plus;
    var w, c := ExpandKey(key), 4 * round;
    ScheduleFirstWord(key, round);
    ColumnBytes(w, c - 1);
    var s1, s2, s3, s0 := Sbox(w[4 * c - 3]), Sbox(w[4 * c - 2]), Sbox(w[4 * c - 1]), Sbox(w[4 * c - 4]);
    WordPlus(w[4 * c - 16], w[4 * c - 15], w[4 * c - 14], w[4 * c - 13], Xor(s1, PowerOfX(round - 1)), s2, s3, s0);
  }

  lemma OtherKeyByte(key: seq<byte>, c: nat, j: nat)
    requires |key| == BLOCK && 4 <= c < 44 && c % 4 != 0 && j < 4
    ensures var w := ExpandKey(key); w[4 * c + j] == Xor(w[4 * c - 16 + j], w[4 * c - 4 + j])
  {
    hide ExpandKey, Xor;
    ScheduleOtherWords(key, 4 * c + j);
  }

  lemma OtherKeyWord(key: seq<byte>, c: nat)
    requires |key| == BLOCK && 4 <= c < 44 && c % 4 != 0
    ensures var w := ExpandKey(key); Column(w, c) == Plus(Column(w, c - 4), Column(w, c - 1))
  {
    hide ExpandKey, Word, Xor, Plus;
    var w := ExpandKey(key);
    OtherKeyByte(key, c, 0);
    OtherKeyByte(key, c, 1);
    OtherKeyByte(key, c, 2);
    OtherKeyByte(key, c, 3);
    WordPlus(w[4 * c - 16], w[4 * c - 15], w[4 * c - 14], w[4 * c - 13],
             w[4 * c - 4], w[4 * c - 3], w[4 * c - 2], w[4 * c - 1]);
  }

  /** The columns from number `at` on. */
  predicate Holds(s: seq<byte>, at: nat, a: bv32, b: bv32, c: bv32, d: bv32) {
    && 4 * at + 16 <= |s|
    && Column(s, at) == a && Column(s, at + 1) == b && Column(s, at + 2) == c && Column(s, at + 3) == d
  }

  /** One step of the key schedule. */
  lemma Extend(key: seq<byte>, round: nat, k0: bv32, k1: bv32, k2: bv32, k3: bv32, constant: byte,
               n0: bv32, n1: bv32, n2: bv32, n3: bv32)
    requires |key| == BLOCK && 1 <= round <= 10 && constant == PowerOfX(round - 1)
    requires Holds(ExpandKey(key), 4 * round - 4, k0, k1, k2, k3)
    requires NextKey(k0, k1, k2, k3, constant, n0, n1, n2, n3)
    ensures Holds(ExpandKey(key), 4 * round, n0, n1, n2, n3)
  {
    hide Sbox, PowerOfX, ExpandKey, Column, Word, B0, B1, B2, B3, Xor, Plus;
    FirstKeyWord(key, round);
    OtherKeyWord(key, 4 * round + 1);
    OtherKeyWord(key, 4 * round + 2);
    OtherKeyWord(key, 4 * round + 3);
  }

  /** One round. */
  lemma Advance(s: seq<byte>, w: seq<byte>, round: nat, s0: bv32, s1: bv32, s2: bv32, s3: bv32,
                k0: bv32, k1: bv32, k2: bv32, k3: bv32, t0: bv32, t1: bv32, t2: bv32, t3: bv32)
    requires |s| == BLOCK && |w| == SCHEDULE && round <= 10
    requires Holds(s, 0, s0, s1, s2, s3) && Holds(w, 4 * round, k0, k1, k2, k3)
    requires Round(s0, s1, s2, s3, k0, k1, k2, k3, t0, t1, t2, t3)
    ensures Holds(EncryptRound(s, w, round), 0, t0, t1, t2, t3)
  {
    hide EncryptRound, Column, MixedColumn;
    RoundColumn0(s, w, round);
    RoundColumn1(s, w, round);
    RoundColumn2(s, w, round);
    RoundColumn3(s, w, round);
  }

  /** Adding the first round key. */
  lemma Begin(s: seq<byte>, w: seq<byte>, s0: bv32, s1: bv32, s2: bv32, s3: bv32,
              k0: bv32, k1: bv32, k2: bv32, k3: bv32)
    requires |s| == BLOCK && |w| == SCHEDULE && Holds(s, 0, s0, s1, s2, s3) && Holds(w, 0, k0, k1, k2, k3)
    ensures Holds(AddRoundKey(s, w, 0), 0, Plus(s0, k0), Plus(s1, k1), Plus(s2, k2), Plus(s3, k3))
  {
    hide Word, Xor, Plus;
    WordPlus(s[0], s[1], s[2], s[3], w[0], w[1], w[2], w[3]);
    WordPlus(s[4], s[5], s[6], s[7], w[4], w[5], w[6], w[7]);
    WordPlus(s[8], s[9], s[10], s[11], w[8], w[9], w[10], w[11]);
    WordPlus(s[12], s[13], s[14], s[15], w[12], w[13], w[14], w[15]);
  }

  /** The last round. */
  lemma Finish(block: seq<byte>, key: seq<byte>, s0: bv32, s1: bv32, s2: bv32, s3: bv32, k0: bv32, k1: bv32,
               k2: bv32, k3: bv32, t0: bv32, t1: bv32, t2: bv32, t3: bv32)
    requires |block| == BLOCK && |key| == BLOCK
    requires var w := ExpandKey(key); Holds(Forward(AddRoundKey(block, w, 0), w, 9), 0, s0, s1, s2, s3)
    requires Holds(ExpandKey(key), 40, k0, k1, k2, k3)
    requires t0 == LastColumn(s0, s1, s2, s3, k0) && t1 == LastColumn(s1, s2, s3, s0, k1)
    requires t2 == LastColumn(s2, s3, s0, s1, k2) && t3 == LastColumn(s3, s0, s1, s2, k3)
    ensures Encrypt(block, key) == [B0(t0), B1(t0), B2(t0), B3(t0), B0(t1), B1(t1), B2(t1), B3(t1),
                                    B0(t2), B1(t2), B2(t2), B3(t2), B0(t3), B1(t3), B2(t3), B3(t3)]
  {
    hide AddRoundKey, ShiftRows, SubBytes, Forward, ExpandKey, LastColumn, Column, B0, B1, B2, B3;
    var w := ExpandKey(key);
    var last := Forward(AddRoundKey(block, w, 0), w, 9);
    LastColumn0(last, w);
    LastColumn1(last, w);
    LastColumn2(last, w);
    LastColumn3(last, w);
    ColumnBytes(Encrypt(block, key), 0);
    ColumnBytes(Encrypt(block, key), 1);
    ColumnBytes(Encrypt(block, key), 2);
    ColumnBytes(Encrypt(block, key), 3);
  }

  // ---- The vectors

  const KEY: seq<byte> :=
    [0xDE, 0xCA, 0xFC, 0x0F, 0xFE, 0xE0, 0xFF, 0x1C, 0xEB, 0xAD, 0xBE, 0xEF, 0xF0, 0x0D, 0xBA, 0x11]
  const CHALLENGE: seq<byte> := [0x01, 0x23, 0x45, 0x67, 0x89, 0xAB]

  function Start(block: seq<byte>, key: seq<byte>): (s: seq<byte>)
    requires |block| == BLOCK && |key| == BLOCK
    ensures |s| == BLOCK
  {
    AddRoundKey(block, ExpandKey(key), 0)
  }

  function After(block: seq<byte>, key: seq<byte>, n: nat): (s: seq<byte>)
    requires |block| == BLOCK && |key| == BLOCK && n <= 9
    ensures |s| == BLOCK
  {
    Forward(Start(block, key), ExpandKey(key), n)
  }

  lemma Constants()
    ensures PowerOfX(0) == 0x01 && PowerOfX(1) == 0x02 && PowerOfX(2) == 0x04 && PowerOfX(3) == 0x08
    ensures PowerOfX(4) == 0x10 && PowerOfX(5) == 0x20 && PowerOfX(6) == 0x40 && PowerOfX(7) == 0x80
    ensures PowerOfX(8) == 0x1B && PowerOfX(9) == 0x36
  {
    hide PowerOfX;
    RconIsPower(1);
    RconIsPower(2);
    RconIsPower(3);
    RconIsPower(4);
    RconIsPower(5);
    RconIsPower(6);
    RconIsPower(7);
    RconIsPower(8);
    RconIsPower(9);
    RconIsPower(10);
  }

  lemma FirstKey()
    ensures Holds(ExpandKey(KEY), 0, 0xDECAFC0F, 0xFEE0FF1C, 0xEBADBEEF, 0xF00DBA11)
  {
    hide ExpandKey, Sbox, PowerOfX, Xor;
    var w := ExpandKey(KEY);
    ScheduleFirstWord(KEY, 1);
    assert w[..BLOCK] == KEY;
    forall i | 0 <= i < BLOCK
      ensures w[i] == KEY[i]
    {
      assert w[..BLOCK][i] == w[i];
    }
  }

  lemma RoundKeys()
    ensures Holds(ExpandKey(KEY), 0, 0xDECAFC0F, 0xFEE0FF1C, 0xEBADBEEF, 0xF00DBA11)
    ensures Holds(ExpandKey(KEY), 4, 0x083E7E83, 0xF6DE819F, 0x1D733F70, 0xED7E8561)
    ensures Holds(ExpandKey(KEY), 8, 0xF9A991D6, 0x0F771049, 0x12042F39, 0xFF7AAA58)
    ensures Holds(ExpandKey(KEY), 12, 0x2705FBC0, 0x2872EB89, 0x3A76C4B0, 0xC50C6EE8)
    ensures Holds(ExpandKey(KEY), 16, 0xD19A6066, 0xF9E88BEF, 0xC39E4F5F, 0x069221B7)
    ensures Holds(ExpandKey(KEY), 20, 0x8E67C909, 0x778F42E6, 0xB4110DB9, 0xB2832C0E)
    ensures Holds(ExpandKey(KEY), 24, 0x4216623E, 0x359920D8, 0x81882D61, 0x330B016F)
    ensures Holds(ExpandKey(KEY), 28, 0x296ACAFD, 0x1CF3EA25, 0x9D7BC744, 0xAE70C62B)
    ensures Holds(ExpandKey(KEY), 32, 0xF8DE3B19, 0xE42DD13C, 0x79561678, 0xD726D053)
    ensures Holds(ExpandKey(KEY), 36, 0x14AED617, 0xF083072B, 0x89D51153, 0x5EF3C100)
    ensures Holds(ExpandKey(KEY), 40, 0x2FD6B54F, 0xDF55B264, 0x5680A337, 0x08736237)
  {
    hide PowerOfX, ExpandKey, Holds;
    Constants();
    FirstKey();
    Extend(KEY, 1, 0xDECAFC0F, 0xFEE0FF1C, 0xEBADBEEF, 0xF00DBA11, 0x01,
           0x083E7E83, 0xF6DE819F, 0x1D733F70, 0xED7E8561);
    Extend(KEY, 2, 0x083E7E83, 0xF6DE819F, 0x1D733F70, 0xED7E8561, 0x02,
           0xF9A991D6, 0x0F771049, 0x12042F39, 0xFF7AAA58);
    Extend(KEY, 3, 0xF9A991D6, 0x0F771049, 0x12042F39, 0xFF7AAA58, 0x04,
           0x2705FBC0, 0x2872EB89, 0x3A76C4B0, 0xC50C6EE8);
    Extend(KEY, 4, 0x2705FBC0, 0x2872EB89, 0x3A76C4B0, 0xC50C6EE8, 0x08,
           0xD19A6066, 0xF9E88BEF, 0xC39E4F5F, 0x069221B7);
    Extend(KEY, 5, 0xD19A6066, 0xF9E88BEF, 0xC39E4F5F, 0x069221B7, 0x10,
           0x8E67C909, 0x778F42E6, 0xB4110DB9, 0xB2832C0E);
    Extend(KEY, 6, 0x8E67C909, 0x778F42E6, 0xB4110DB9, 0xB2832C0E, 0x20,
           0x4216623E, 0x359920D8, 0x81882D61, 0x330B016F);
    Extend(KEY, 7, 0x4216623E, 0x359920D8, 0x81882D61, 0x330B016F, 0x40,
           0x296ACAFD, 0x1CF3EA25, 0x9D7BC744, 0xAE70C62B);
    Extend(KEY, 8, 0x296ACAFD, 0x1CF3EA25, 0x9D7BC744, 0xAE70C62B, 0x80,
           0xF8DE3B19, 0xE42DD13C, 0x79561678, 0xD726D053);
    Extend(KEY, 9, 0xF8DE3B19, 0xE42DD13C, 0x79561678, 0xD726D053, 0x1B,
           0x14AED617, 0xF083072B, 0x89D51153, 0x5EF3C100);
    Extend(KEY, 10, 0x14AED617, 0xF083072B, 0x89D51153, 0x5EF3C100, 0x36,
           0x2FD6B54F, 0xDF55B264, 0x5680A337, 0x08736237);
  }

  lemma Snoc(data: seq<byte>, x: byte)
    ensures Run(ZERO, data + [x]) == Step(x, Run(ZERO, data))
  {
    hide Step;
    assert (data + [x])[..|data|] == data;
  }

  lemma HeadIs(data: seq<byte>)
    ensures forall i :: 0 <= i < 8 ==> Head(data)[i] == if i < |data| then data[i] else 0x55
  {
  }

  // ---- A transcript of fourteen bytes, of which the last six only reach the checksum

  const LONG: seq<byte> := [0x20, 0x02, 0x03, 0x05, 0x04, 0x00, 0x08, 0xAF, 0xC0, 0xB8, 0x12, 0x1F, 0x73, 0xA2]

  lemma LongIv()
    ensures Iv(LONG, CHALLENGE) ==
            [0x20, 0x02, 0x03, 0x05, 0x04, 0x00, 0x08, 0xAF, 0x31, 0xBE, 0x01, 0x23, 0x45, 0x67, 0x89, 0xAB]
  {
    hide Step;
    var d0: seq<byte> := [];
    var d1 := d0 + [0x20];
    Snoc(d0, 0x20);
    var d2 := d1 + [0x02];
    Snoc(d1, 0x02);
    var d3 := d2 + [0x03];
    Snoc(d2, 0x03);
    var d4 := d3 + [0x05];
    Snoc(d3, 0x05);
    var d5 := d4 + [0x04];
    Snoc(d4, 0x04);
    var d6 := d5 + [0x00];
    Snoc(d5, 0x00);
    var d7 := d6 + [0x08];
    Snoc(d6, 0x08);
    var d8 := d7 + [0xAF];
    Snoc(d7, 0xAF);
    var d9 := d8 + [0xC0];
    Snoc(d8, 0xC0);
    var d10 := d9 + [0xB8];
    Snoc(d9, 0xB8);
    var d11 := d10 + [0x12];
    Snoc(d10, 0x12);
    var d12 := d11 + [0x1F];
    Snoc(d11, 0x1F);
    var d13 := d12 + [0x73];
    Snoc(d12, 0x73);
    var d14 := d13 + [0xA2];
    Snoc(d13, 0xA2);
    LongSteps();
    assert d14 == LONG;
    HeadIs(LONG);
    assert Head(LONG) == [0x20, 0x02, 0x03, 0x05, 0x04, 0x00, 0x08, 0xAF];
  }

  lemma LongSteps()
    ensures Step(0x20, Sum(0x00, 0x00)) == Sum(0x00, 0x40)
    ensures Step(0x02, Sum(0x00, 0x40)) == Sum(0x00, 0x84)
    ensures Step(0x03, Sum(0x00, 0x84)) == Sum(0x01, 0x0E)
    ensures Step(0x05, Sum(0x01, 0x0E)) == Sum(0x02, 0x16)
    ensures Step(0x04, Sum(0x02, 0x16)) == Sum(0x04, 0x24)
    ensures Step(0x00, Sum(0x04, 0x24)) == Sum(0x08, 0x48)
    ensures Step(0x08, Sum(0x08, 0x48)) == Sum(0x10, 0x80)
    ensures Step(0xAF, Sum(0x10, 0x80)) == Sum(0x20, 0x5E)
    ensures Step(0xC0, Sum(0x20, 0x5E)) == Sum(0x41, 0x3C)
    ensures Step(0xB8, Sum(0x41, 0x3C)) == Sum(0x83, 0x08)
    ensures Step(0x12, Sum(0x83, 0x08)) == Sum(0x53, 0x6F)
    ensures Step(0x1F, Sum(0x53, 0x6F)) == Sum(0xA6, 0xE0)
    ensures Step(0x73, Sum(0xA6, 0xE0)) == Sum(0x18, 0x7D)
    ensures Step(0xA2, Sum(0x18, 0x7D)) == Sum(0x31, 0xBE)
  {
  }

  lemma LongStart()
    ensures Holds(Start(Iv(LONG, CHALLENGE), KEY), 0,
                  0xFEC8FF0A, 0xFAE0F7B3, 0xDA13BFCC, 0xB56A33BA)
  {
    hide ExpandKey, AddRoundKey, Iv, NextKey;
    LongIv();
    RoundKeys();
    Begin(Iv(LONG, CHALLENGE), ExpandKey(KEY),
          0x20020305, 0x040008AF, 0x31BE0123, 0x456789AB, 0xDECAFC0F, 0xFEE0FF1C, 0xEBADBEEF, 0xF00DBA11);
  }

  lemma LongRound1()
    ensures Holds(After(Iv(LONG, CHALLENGE), KEY, 1), 0,
                  0xA1B0334F, 0x8F30E598, 0xCE77F147, 0x5C93B513)
  {
    hide ExpandKey, EncryptRound, Holds, Start, Iv;
    LongStart();
    RoundKeys();
    var w := ExpandKey(KEY);
    Advance(After(Iv(LONG, CHALLENGE), KEY, 0), w, 1,
            0xFEC8FF0A, 0xFAE0F7B3, 0xDA13BFCC, 0xB56A33BA,
            0x083E7E83, 0xF6DE819F, 0x1D733F70, 0xED7E8561,
            0xA1B0334F, 0x8F30E598, 0xCE77F147, 0x5C93B513);
  }

  lemma LongRound2()
    ensures Holds(After(Iv(LONG, CHALLENGE), KEY, 2), 0,
                  0x4D1679DF, 0xBC15B0EF, 0xE5342F2C, 0x203555E3)
  {
    hide ExpandKey, EncryptRound, Holds, Start, Iv;
    LongRound1();
    RoundKeys();
    var w := ExpandKey(KEY);
    Advance(After(Iv(LONG, CHALLENGE), KEY, 1), w, 2,
            0xA1B0334F, 0x8F30E598, 0xCE77F147, 0x5C93B513,
            0xF9A991D6, 0x0F771049, 0x12042F39, 0xFF7AAA58,
            0x4D1679DF, 0xBC15B0EF, 0xE5342F2C, 0x203555E3);
  }

  lemma LongRound3()
    ensures Holds(After(Iv(LONG, CHALLENGE), KEY, 3), 0,
                  0x157A5890, 0xA8A6CCE5, 0x5B868645, 0xEF76D868)
  {
    hide ExpandKey, EncryptRound, Holds, Start, Iv;
    LongRound2();
    RoundKeys();
    var w := ExpandKey(KEY);
    Advance(After(Iv(LONG, CHALLENGE), KEY, 2), w, 3,
            0x4D1679DF, 0xBC15B0EF, 0xE5342F2C, 0x203555E3,
            0x2705FBC0, 0x2872EB89, 0x3A76C4B0, 0xC50C6EE8,
            0x157A5890, 0xA8A6CCE5, 0x5B868645, 0xEF76D868);
  }

  lemma LongRound4()
    ensures Holds(After(Iv(LONG, CHALLENGE), KEY, 4), 0,
                  0x0E025A67, 0xAB616F57, 0x4AB0EAEF, 0xF3510080)
  {
    hide ExpandKey, EncryptRound, Holds, Start, Iv;
    LongRound3();
    RoundKeys();
    var w := ExpandKey(KEY);
    Advance(After(Iv(LONG, CHALLENGE), KEY, 3), w, 4,
            0x157A5890, 0xA8A6CCE5, 0x5B868645, 0xEF76D868,
            0xD19A6066, 0xF9E88BEF, 0xC39E4F5F, 0x069221B7,
            0x0E025A67, 0xAB616F57, 0x4AB0EAEF, 0xF3510080);
  }

  lemma LongBytes5()
    ensures Sbox(0x00) == 0x63 && Mul(0x63, 2) == 0xC6 && Mul(0x63, 3) == 0xA5
    ensures Sbox(0x02) == 0x77 && Mul(0x77, 2) == 0xEE && Mul(0x77, 3) == 0x99
    ensures Sbox(0x0E) == 0xAB && Mul(0xAB, 2) == 0x4D && Mul(0xAB, 3) == 0xE6
    ensures Sbox(0x4A) == 0xD6 && Mul(0xD6, 2) == 0xB7 && Mul(0xD6, 3) == 0x61
    ensures Sbox(0x51) == 0xD1 && Mul(0xD1, 2) == 0xB9 && Mul(0xD1, 3) == 0x68
    ensures Sbox(0x57) == 0x5B && Mul(0x5B, 2) == 0xB6 && Mul(0x5B, 3) == 0xED
    ensures Sbox(0x5A) == 0xBE && Mul(0xBE, 2) == 0x67 && Mul(0xBE, 3) == 0xD9
    ensures Sbox(0x61) == 0xEF && Mul(0xEF, 2) == 0xC5 && Mul(0xEF, 3) == 0x2A
    ensures Sbox(0x67) == 0x85 && Mul(0x85, 2) == 0x11 && Mul(0x85, 3) == 0x94
    ensures Sbox(0x6F) == 0xA8 && Mul(0xA8, 2) == 0x4B && Mul(0xA8, 3) == 0xE3
    ensures Sbox(0x80) == 0xCD && Mul(0xCD, 2) == 0x81 && Mul(0xCD, 3) == 0x4C
    ensures Sbox(0xAB) == 0x62 && Mul(0x62, 2) == 0xC4 && Mul(0x62, 3) == 0xA6
    ensures Sbox(0xB0) == 0xE7 && Mul(0xE7, 2) == 0xD5 && Mul(0xE7, 3) == 0x32
    ensures Sbox(0xEA) == 0x87 && Mul(0x87, 2) == 0x15 && Mul(0x87, 3) == 0x92
    ensures Sbox(0xEF) == 0xDF && Mul(0xDF, 2) == 0xA5 && Mul(0xDF, 3) == 0x7A
    ensures Sbox(0xF3) == 0x0D && Mul(0x0D, 2) == 0x1A && Mul(0x0D, 3) == 0x17
  {
  }

  lemma LongRound5()
    ensures Holds(After(Iv(LONG, CHALLENGE), KEY, 5), 0,
                  0xA356D406, 0x671895D5, 0x8EFC8001, 0x465C6763)
  {
    hide ExpandKey, EncryptRound, Holds, Start, Iv, Sbox, Mul;
    LongRound4();
    RoundKeys();
    LongBytes5();
    var w := ExpandKey(KEY);
    Advance(After(Iv(LONG, CHALLENGE), KEY, 4), w, 5,
            0x0E025A67, 0xAB616F57, 0x4AB0EAEF, 0xF3510080,
            0x8E67C909, 0x778F42E6, 0xB4110DB9, 0xB2832C0E,
            0xA356D406, 0x671895D5, 0x8EFC8001, 0x465C6763);
  }

  lemma LongRound6()
    ensures Holds(After(Iv(LONG, CHALLENGE), KEY, 6), 0,
                  0x8CEA52AD, 0x059CB5A7, 0x26DEEB4E, 0x192A3AE2)
  {
    hide ExpandKey, EncryptRound, Holds, Start, Iv;
    LongRound5();
    RoundKeys();
    var w := ExpandKey(KEY);
    Advance(After(Iv(LONG, CHALLENGE), KEY, 5), w, 6,
            0xA356D406, 0x671895D5, 0x8EFC8001, 0x465C6763,
            0x4216623E, 0x359920D8, 0x81882D61, 0x330B016F,
            0x8CEA52AD, 0x059CB5A7, 0x26DEEB4E, 0x192A3AE2);
  }

  lemma LongRound7()
    ensures Holds(After(Iv(LONG, CHALLENGE), KEY, 7), 0,
                  0xE9110A4D, 0xF8AC2334, 0x0001311B, 0x75FA5540)
  {
    hide ExpandKey, EncryptRound, Holds, Start, Iv;
    LongRound6();
    RoundKeys();
    var w := ExpandKey(KEY);
    Advance(After(Iv(LONG, CHALLENGE), KEY, 6), w, 7,
            0x8CEA52AD, 0x059CB5A7, 0x26DEEB4E, 0x192A3AE2,
            0x296ACAFD, 0x1CF3EA25, 0x9D7BC744, 0xAE70C62B,
            0xE9110A4D, 0xF8AC2334, 0x0001311B, 0x75FA5540);
  }

  lemma LongRound8()
    ensures Holds(After(Iv(LONG, CHALLENGE), KEY, 8), 0,
                  0xA2A23A7F, 0xFD6831A2, 0xB7DEBEA7, 0xE261690E)
  {
    hide ExpandKey, EncryptRound, Holds, Start, Iv;
    LongRound7();
    RoundKeys();
    var w := ExpandKey(KEY);
    Advance(After(Iv(LONG, CHALLENGE), KEY, 7), w, 8,
            0xE9110A4D, 0xF8AC2334, 0x0001311B, 0x75FA5540,
            0xF8DE3B19, 0xE42DD13C, 0x79561678, 0xD726D053,
            0xA2A23A7F, 0xFD6831A2, 0xB7DEBEA7, 0xE261690E);
  }

  lemma LongBytes9()
    ensures Sbox(0x0E) == 0xAB && Mul(0xAB, 2) == 0x4D && Mul(0xAB, 3) == 0xE6
    ensures Sbox(0x31) == 0xC7 && Mul(0xC7, 2) == 0x95 && Mul(0xC7, 3) == 0x52
    ensures Sbox(0x3A) == 0x80 && Mul(0x80, 2) == 0x1B && Mul(0x80, 3) == 0x9B
    ensures Sbox(0x61) == 0xEF && Mul(0xEF, 2) == 0xC5 && Mul(0xEF, 3) == 0x2A
    ensures Sbox(0x68) == 0x45 && Mul(0x45, 2) == 0x8A && Mul(0x45, 3) == 0xCF
    ensures Sbox(0x69) == 0xF9 && Mul(0xF9, 2) == 0xE9 && Mul(0xF9, 3) == 0x10
    ensures Sbox(0x7F) == 0xD2 && Mul(0xD2, 2) == 0xBF && Mul(0xD2, 3) == 0x6D
    ensures Sbox(0xA2) == 0x3A && Mul(0x3A, 2) == 0x74 && Mul(0x3A, 3) == 0x4E
    ensures Sbox(0xA7) == 0x5C && Mul(0x5C, 2) == 0xB8 && Mul(0x5C, 3) == 0xE4
    ensures Sbox(0xB7) == 0xA9 && Mul(0xA9, 2) == 0x49 && Mul(0xA9, 3) == 0xE0
    ensures Sbox(0xBE) == 0xAE && Mul(0xAE, 2) == 0x47 && Mul(0xAE, 3) == 0xE9
    ensures Sbox(0xDE) == 0x1D && Mul(0x1D, 2) == 0x3A && Mul(0x1D, 3) == 0x27
    ensures Sbox(0xE2) == 0x98 && Mul(0x98, 2) == 0x2B && Mul(0x98, 3) == 0xB3
    ensures Sbox(0xFD) == 0x54 && Mul(0x54, 2) == 0xA8 && Mul(0x54, 3) == 0xFC
  {
  }

  lemma LongRound9()
    ensures Holds(After(Iv(LONG, CHALLENGE), KEY, 9), 0,
                  0xAA5C08FF, 0x542FCA8C, 0x501802A8, 0xA01112F6)
  {
    hide ExpandKey, EncryptRound, Holds, Start, Iv, Sbox, Mul;
    LongRound8();
    RoundKeys();
    LongBytes9();
    var w := ExpandKey(KEY);
    Advance(After(Iv(LONG, CHALLENGE), KEY, 8), w, 9,
            0xA2A23A7F, 0xFD6831A2, 0xB7DEBEA7, 0xE261690E,
            0x14AED617, 0xF083072B, 0x89D51153, 0x5EF3C100,
            0xAA5C08FF, 0x542FCA8C, 0x501802A8, 0xA01112F6);
  }

  lemma LongBlock()
    ensures Encrypt(Iv(LONG, CHALLENGE), KEY) ==
            [0x83, 0xC3, 0xC2, 0x0D, 0xFF, 0xF8, 0x7B, 0x72, 0x05, 0x02, 0x93, 0x53, 0xE8, 0x39, 0x16, 0xF5]
  {
    hide ExpandKey, EncryptRound, Holds, AddRoundKey, Forward, Iv, Encrypt, LastColumn;
    LongRound9();
    RoundKeys();
    LongLast();
    Finish(Iv(LONG, CHALLENGE), KEY,
           0xAA5C08FF, 0x542FCA8C, 0x501802A8, 0xA01112F6, 0x2FD6B54F, 0xDF55B264, 0x5680A337, 0x08736237,
           0x83C3C20D, 0xFFF87B72, 0x05029353, 0xE83916F5);
  }

  lemma LongLast()
    ensures LastColumn(0xAA5C08FF, 0x542FCA8C, 0x501802A8, 0xA01112F6, 0x2FD6B54F) == 0x83C3C20D
    ensures LastColumn(0x542FCA8C, 0x501802A8, 0xA01112F6, 0xAA5C08FF, 0xDF55B264) == 0xFFF87B72
    ensures LastColumn(0x501802A8, 0xA01112F6, 0xAA5C08FF, 0x542FCA8C, 0x5680A337) == 0x05029353
    ensures LastColumn(0xA01112F6, 0xAA5C08FF, 0x542FCA8C, 0x501802A8, 0x08736237) == 0xE83916F5
  {
  }

  lemma LongMac()
    ensures Hmac(LONG, CHALLENGE, KEY) == [0x83, 0xC3, 0xC2, 0x0D, 0xFF, 0xF8]
  {
    hide Encrypt, Iv;
    LongBlock();
  }

  // ---- The key transfer of a captured pairing, whose transcript of one byte is padded

  /** The command byte of the key initialization, the challenge that answered it and the transferred payload, from
      tests/corpus/captures/issues/field_rs100_pairing_key_exchange_retry_success.yaml. */
  const KEY_INIT: seq<byte> := [0x31]
  const CAPTURED_CHALLENGE: seq<byte> := [0xDF, 0x1C, 0x86, 0x49, 0x5C, 0x4C]
  const CAPTURED_PAYLOAD: seq<byte> :=
    [0xDA, 0x2E, 0x23, 0x0E, 0x42, 0x7C, 0xAB, 0xFD, 0xD1, 0x98, 0x5A, 0x9E, 0xEA, 0xC0, 0xC9, 0x34]

  lemma TransferIv()
    ensures Iv(KEY_INIT, CAPTURED_CHALLENGE) ==
            [0x31, 0x55, 0x55, 0x55, 0x55, 0x55, 0x55, 0x55, 0x00, 0x62, 0xDF, 0x1C, 0x86, 0x49, 0x5C, 0x4C]
  {
    hide Step;
    var d0: seq<byte> := [];
    Snoc(d0, 0x31);
    assert d0 + [0x31] == KEY_INIT;
    TransferStep();
    HeadIs(KEY_INIT);
    assert Head(KEY_INIT) == [0x31, 0x55, 0x55, 0x55, 0x55, 0x55, 0x55, 0x55];
  }

  lemma TransferStep()
    ensures Step(0x31, Sum(0x00, 0x00)) == Sum(0x00, 0x62)
  {
  }

  lemma FirstTransferKey()
    ensures Holds(ExpandKey(TRANSFER_KEY), 0, 0x34C3466E, 0xD88F4E8E, 0x16AA4739, 0x49884373)
  {
    hide ExpandKey, Sbox, PowerOfX, Xor;
    var w := ExpandKey(TRANSFER_KEY);
    ScheduleFirstWord(TRANSFER_KEY, 1);
    assert w[..BLOCK] == TRANSFER_KEY;
    forall i | 0 <= i < BLOCK
      ensures w[i] == TRANSFER_KEY[i]
    {
      assert w[..BLOCK][i] == w[i];
    }
  }

  lemma TransferRoundKeys()
    ensures Holds(ExpandKey(TRANSFER_KEY), 0, 0x34C3466E, 0xD88F4E8E, 0x16AA4739, 0x49884373)
    ensures Holds(ExpandKey(TRANSFER_KEY), 4, 0xF1D9C955, 0x295687DB, 0x3FFCC0E2, 0x76748391)
    ensures Holds(ExpandKey(TRANSFER_KEY), 8, 0x6135486D, 0x4863CFB6, 0x779F0F54, 0x01EB8CC5)
    ensures Holds(ExpandKey(TRANSFER_KEY), 12, 0x8C51EE11, 0xC43221A7, 0xB3AD2EF3, 0xB246A236)
    ensures Holds(ExpandKey(TRANSFER_KEY), 16, 0xDE6BEB26, 0x1A59CA81, 0xA9F4E472, 0x1BB24644)
    ensures Holds(ExpandKey(TRANSFER_KEY), 20, 0xF931F089, 0xE3683A08, 0x4A9CDE7A, 0x512E983E)
    ensures Holds(ExpandKey(TRANSFER_KEY), 24, 0xE8774258, 0x0B1F7850, 0x4183A62A, 0x10AD3E14)
    ensures Holds(ExpandKey(TRANSFER_KEY), 28, 0x3DC5B892, 0x36DAC0C2, 0x775966E8, 0x67F458FC)
    ensures Holds(ExpandKey(TRANSFER_KEY), 32, 0x02AF0817, 0x3475C8D5, 0x432CAE3D, 0x24D8F6C1)
    ensures Holds(ExpandKey(TRANSFER_KEY), 36, 0x78ED7021, 0x4C98B8F4, 0x0FB416C9, 0x2B6CE008)
    ensures Holds(ExpandKey(TRANSFER_KEY), 40, 0x1E0C40D0, 0x5294F824, 0x5D20EEED, 0x764C0EE5)
  {
    hide PowerOfX, ExpandKey, Holds;
    Constants();
    FirstTransferKey();
    Extend(TRANSFER_KEY, 1, 0x34C3466E, 0xD88F4E8E, 0x16AA4739, 0x49884373, 0x01,
           0xF1D9C955, 0x295687DB, 0x3FFCC0E2, 0x76748391);
    Extend(TRANSFER_KEY, 2, 0xF1D9C955, 0x295687DB, 0x3FFCC0E2, 0x76748391, 0x02,
           0x6135486D, 0x4863CFB6, 0x779F0F54, 0x01EB8CC5);
    Extend(TRANSFER_KEY, 3, 0x6135486D, 0x4863CFB6, 0x779F0F54, 0x01EB8CC5, 0x04,
           0x8C51EE11, 0xC43221A7, 0xB3AD2EF3, 0xB246A236);
    Extend(TRANSFER_KEY, 4, 0x8C51EE11, 0xC43221A7, 0xB3AD2EF3, 0xB246A236, 0x08,
           0xDE6BEB26, 0x1A59CA81, 0xA9F4E472, 0x1BB24644);
    Extend(TRANSFER_KEY, 5, 0xDE6BEB26, 0x1A59CA81, 0xA9F4E472, 0x1BB24644, 0x10,
           0xF931F089, 0xE3683A08, 0x4A9CDE7A, 0x512E983E);
    Extend(TRANSFER_KEY, 6, 0xF931F089, 0xE3683A08, 0x4A9CDE7A, 0x512E983E, 0x20,
           0xE8774258, 0x0B1F7850, 0x4183A62A, 0x10AD3E14);
    Extend(TRANSFER_KEY, 7, 0xE8774258, 0x0B1F7850, 0x4183A62A, 0x10AD3E14, 0x40,
           0x3DC5B892, 0x36DAC0C2, 0x775966E8, 0x67F458FC);
    Extend(TRANSFER_KEY, 8, 0x3DC5B892, 0x36DAC0C2, 0x775966E8, 0x67F458FC, 0x80,
           0x02AF0817, 0x3475C8D5, 0x432CAE3D, 0x24D8F6C1);
    Extend(TRANSFER_KEY, 9, 0x02AF0817, 0x3475C8D5, 0x432CAE3D, 0x24D8F6C1, 0x1B,
           0x78ED7021, 0x4C98B8F4, 0x0FB416C9, 0x2B6CE008);
    Extend(TRANSFER_KEY, 10, 0x78ED7021, 0x4C98B8F4, 0x0FB416C9, 0x2B6CE008, 0x36,
           0x1E0C40D0, 0x5294F824, 0x5D20EEED, 0x764C0EE5);
  }

  lemma TransferStart()
    ensures Holds(Start(Iv(KEY_INIT, CAPTURED_CHALLENGE), TRANSFER_KEY), 0,
                  0x0596133B, 0x8DDA1BDB, 0x16C89825, 0xCFC11F3F)
  {
    hide ExpandKey, AddRoundKey, Iv, NextKey;
    TransferIv();
    TransferRoundKeys();
    Begin(Iv(KEY_INIT, CAPTURED_CHALLENGE), ExpandKey(TRANSFER_KEY),
          0x31555555, 0x55555555, 0x0062DF1C, 0x86495C4C, 0x34C3466E, 0xD88F4E8E, 0x16AA4739, 0x49884373);
  }

  lemma TransferRound1()
    ensures Holds(After(Iv(KEY_INIT, CAPTURED_CHALLENGE), TRANSFER_KEY, 1), 0,
                  0xEDA3E613, 0x927994CB, 0xFD75D547, 0x42109D55)
  {
    hide ExpandKey, EncryptRound, Holds, Start, Iv;
    TransferStart();
    TransferRoundKeys();
    var w := ExpandKey(TRANSFER_KEY);
    Advance(After(Iv(KEY_INIT, CAPTURED_CHALLENGE), TRANSFER_KEY, 0), w, 1,
            0x0596133B, 0x8DDA1BDB, 0x16C89825, 0xCFC11F3F,
            0xF1D9C955, 0x295687DB, 0x3FFCC0E2, 0x76748391,
            0xEDA3E613, 0x927994CB, 0xFD75D547, 0x42109D55);
  }

  lemma TransferRound2()
    ensures Holds(After(Iv(KEY_INIT, CAPTURED_CHALLENGE), TRANSFER_KEY, 2), 0,
                  0xF5EEB2C4, 0x4992265E, 0x0BD2B7D2, 0xC51515C2)
  {
    hide ExpandKey, EncryptRound, Holds, Start, Iv;
    TransferRound1();
    TransferRoundKeys();
    var w := ExpandKey(TRANSFER_KEY);
    Advance(After(Iv(KEY_INIT, CAPTURED_CHALLENGE), TRANSFER_KEY, 1), w, 2,
            0xEDA3E613, 0x927994CB, 0xFD75D547, 0x42109D55,
            0x6135486D, 0x4863CFB6, 0x779F0F54, 0x01EB8CC5,
            0xF5EEB2C4, 0x4992265E, 0x0BD2B7D2, 0xC51515C2);
  }

  lemma TransferRound3()
    ensures Holds(After(Iv(KEY_INIT, CAPTURED_CHALLENGE), TRANSFER_KEY, 3), 0,
                  0x06EC618C, 0x338F393E, 0x6135DA50, 0xDF071D69)
  {
    hide ExpandKey, EncryptRound, Holds, Start, Iv;
    TransferRound2();
    TransferRoundKeys();
    var w := ExpandKey(TRANSFER_KEY);
    Advance(After(Iv(KEY_INIT, CAPTURED_CHALLENGE), TRANSFER_KEY, 2), w, 3,
            0xF5EEB2C4, 0x4992265E, 0x0BD2B7D2, 0xC51515C2,
            0x8C51EE11, 0xC43221A7, 0xB3AD2EF3, 0xB246A236,
            0x06EC618C, 0x338F393E, 0x6135DA50, 0xDF071D69);
  }

  lemma TransferRound4()
    ensures Holds(After(Iv(KEY_INIT, CAPTURED_CHALLENGE), TRANSFER_KEY, 4), 0,
                  0x3BE2495A, 0xE63E6025, 0x6512C60D, 0x34CEC787)
  {
    hide ExpandKey, EncryptRound, Holds, Start, Iv;
    TransferRound3();
    TransferRoundKeys();
    var w := ExpandKey(TRANSFER_KEY);
    Advance(After(Iv(KEY_INIT, CAPTURED_CHALLENGE), TRANSFER_KEY, 3), w, 4,
            0x06EC618C, 0x338F393E, 0x6135DA50, 0xDF071D69,
            0xDE6BEB26, 0x1A59CA81, 0xA9F4E472, 0x1BB24644,
            0x3BE2495A, 0xE63E6025, 0x6512C60D, 0x34CEC787);
  }

  lemma TransferRound5()
    ensures Holds(After(Iv(KEY_INIT, CAPTURED_CHALLENGE), TRANSFER_KEY, 5), 0,
                  0x487CEA9C, 0xDC8033E9, 0x52AE2F63, 0xD5A1C1EB)
  {
    hide ExpandKey, EncryptRound, Holds, Start, Iv;
    TransferRound4();
    TransferRoundKeys();
    var w := ExpandKey(TRANSFER_KEY);
    Advance(After(Iv(KEY_INIT, CAPTURED_CHALLENGE), TRANSFER_KEY, 4), w, 5,
            0x3BE2495A, 0xE63E6025, 0x6512C60D, 0x34CEC787,
            0xF931F089, 0xE3683A08, 0x4A9CDE7A, 0x512E983E,
            0x487CEA9C, 0xDC8033E9, 0x52AE2F63, 0xD5A1C1EB);
  }

  lemma TransferRound6()
    ensures Holds(After(Iv(KEY_INIT, CAPTURED_CHALLENGE), TRANSFER_KEY, 6), 0,
                  0xFC72D7BF, 0x8D1C93FA, 0x8E6BA3A3, 0x1E2BA62F)
  {
    hide ExpandKey, EncryptRound, Holds, Start, Iv;
    TransferRound5();
    TransferRoundKeys();
    var w := ExpandKey(TRANSFER_KEY);
    Advance(After(Iv(KEY_INIT, CAPTURED_CHALLENGE), TRANSFER_KEY, 5), w, 6,
            0x487CEA9C, 0xDC8033E9, 0x52AE2F63, 0xD5A1C1EB,
            0xE8774258, 0x0B1F7850, 0x4183A62A, 0x10AD3E14,
            0xFC72D7BF, 0x8D1C93FA, 0x8E6BA3A3, 0x1E2BA62F);
  }

  lemma TransferRound7()
    ensures Holds(After(Iv(KEY_INIT, CAPTURED_CHALLENGE), TRANSFER_KEY, 7), 0,
                  0xE65DBFE5, 0x211DB26E, 0x6E86E566, 0x9573D7E2)
  {
    hide ExpandKey, EncryptRound, Holds, Start, Iv;
    TransferRound6();
    TransferRoundKeys();
    var w := ExpandKey(TRANSFER_KEY);
    Advance(After(Iv(KEY_INIT, CAPTURED_CHALLENGE), TRANSFER_KEY, 6), w, 7,
            0xFC72D7BF, 0x8D1C93FA, 0x8E6BA3A3, 0x1E2BA62F,
            0x3DC5B892, 0x36DAC0C2, 0x775966E8, 0x67F458FC,
            0xE65DBFE5, 0x211DB26E, 0x6E86E566, 0x9573D7E2);
  }

  lemma TransferRound8()
    ensures Holds(After(Iv(KEY_INIT, CAPTURED_CHALLENGE), TRANSFER_KEY, 8), 0,
                  0xB39A38C8, 0xCECB1D2A, 0x7B311425, 0xA000ABA2)
  {
    hide ExpandKey, EncryptRound, Holds, Start, Iv;
    TransferRound7();
    TransferRoundKeys();
    var w := ExpandKey(TRANSFER_KEY);
    Advance(After(Iv(KEY_INIT, CAPTURED_CHALLENGE), TRANSFER_KEY, 7), w, 8,
            0xE65DBFE5, 0x211DB26E, 0x6E86E566, 0x9573D7E2,
            0x02AF0817, 0x3475C8D5, 0x432CAE3D, 0x24D8F6C1,
            0xB39A38C8, 0xCECB1D2A, 0x7B311425, 0xA000ABA2);
  }

  lemma TransferRound9()
    ensures Holds(After(Iv(KEY_INIT, CAPTURED_CHALLENGE), TRANSFER_KEY, 9), 0,
                  0x4391A307, 0x99C8131C, 0x0ABF6E1F, 0xB82FAA51)
  {
    hide ExpandKey, EncryptRound, Holds, Start, Iv;
    TransferRound8();
    TransferRoundKeys();
    var w := ExpandKey(TRANSFER_KEY);
    Advance(After(Iv(KEY_INIT, CAPTURED_CHALLENGE), TRANSFER_KEY, 8), w, 9,
            0xB39A38C8, 0xCECB1D2A, 0x7B311425, 0xA000ABA2,
            0x78ED7021, 0x4C98B8F4, 0x0FB416C9, 0x2B6CE008,
            0x4391A307, 0x99C8131C, 0x0ABF6E1F, 0xB82FAA51);
  }

  lemma TransferBlock()
    ensures Encrypt(Iv(KEY_INIT, CAPTURED_CHALLENGE), TRANSFER_KEY) ==
            [0x04, 0xE4, 0xDF, 0x01, 0xBC, 0x9C, 0x54, 0xE1, 0x3A, 0x35, 0xE4, 0x71, 0x1A, 0xCD, 0x73, 0x25]
  {
    hide ExpandKey, EncryptRound, Holds, AddRoundKey, Forward, Iv, Encrypt, LastColumn;
    TransferRound9();
    TransferRoundKeys();
    TransferLast();
    Finish(Iv(KEY_INIT, CAPTURED_CHALLENGE), TRANSFER_KEY,
           0x4391A307, 0x99C8131C, 0x0ABF6E1F, 0xB82FAA51, 0x1E0C40D0, 0x5294F824, 0x5D20EEED, 0x764C0EE5,
           0x04E4DF01, 0xBC9C54E1, 0x3A35E471, 0x1ACD7325);
  }

  lemma TransferLast()
    ensures LastColumn(0x4391A307, 0x99C8131C, 0x0ABF6E1F, 0xB82FAA51, 0x1E0C40D0) == 0x04E4DF01
    ensures LastColumn(0x99C8131C, 0x0ABF6E1F, 0xB82FAA51, 0x4391A307, 0x5294F824) == 0xBC9C54E1
    ensures LastColumn(0x0ABF6E1F, 0xB82FAA51, 0x4391A307, 0x99C8131C, 0x5D20EEED) == 0x3A35E471
    ensures LastColumn(0xB82FAA51, 0x4391A307, 0x99C8131C, 0x0ABF6E1F, 0x764C0EE5) == 0x1ACD7325
  {
  }

  lemma TransferWraps()
    ensures Wrapped(KEY_INIT, CAPTURED_CHALLENGE, KEY) == CAPTURED_PAYLOAD
  {
    hide Encrypt, Iv, Xor;
    TransferBlock();
    TransferSum();
    assert Wrapped(KEY_INIT, CAPTURED_CHALLENGE, KEY) == CAPTURED_PAYLOAD;
  }

  lemma TransferSum()
    ensures Xor(0xDE, 0x04) == 0xDA && Xor(0xCA, 0xE4) == 0x2E
    ensures Xor(0xFC, 0xDF) == 0x23 && Xor(0x0F, 0x01) == 0x0E
    ensures Xor(0xFE, 0xBC) == 0x42 && Xor(0xE0, 0x9C) == 0x7C
    ensures Xor(0xFF, 0x54) == 0xAB && Xor(0x1C, 0xE1) == 0xFD
    ensures Xor(0xEB, 0x3A) == 0xD1 && Xor(0xAD, 0x35) == 0x98
    ensures Xor(0xBE, 0xE4) == 0x5A && Xor(0xEF, 0x71) == 0x9E
    ensures Xor(0xF0, 0x1A) == 0xEA && Xor(0x0D, 0xCD) == 0xC0
    ensures Xor(0xBA, 0x73) == 0xC9 && Xor(0x11, 0x25) == 0x34
  {
  }

  // ---- The frame check

  const SAMPLE: seq<byte> := [0x40, 0x20, 0x9C, 0xA3, 0x9C, 0xC0, 0xFF, 0xEE, 0x03, 0x03, 0x00, 0x00]

  lemma CrcSnoc(data: seq<byte>, x: byte)
    ensures FrameCheck.Crc(data + [x]) == FrameCheck.Absorb(FrameCheck.Crc(data), x)
  {
    hide FrameCheck.Absorb;
    assert (data + [x])[..|data|] == data;
  }

  lemma AbsorbIs(c: bv16, b: byte)
    ensures FrameCheck.Absorb(c, b) ==
            FrameCheck.Tick(FrameCheck.Tick(FrameCheck.Tick(FrameCheck.Tick(
              FrameCheck.Tick(FrameCheck.Tick(FrameCheck.Tick(FrameCheck.Tick(c ^ (b as bv16)))))))))
  {
    hide FrameCheck.Tick;
    var x := c ^ (b as bv16);
    assert FrameCheck.Ticks(x, 0) == x && FrameCheck.Ticks(x, 1) == FrameCheck.Tick(x);
    assert FrameCheck.Ticks(x, 2) == FrameCheck.Tick(FrameCheck.Tick(x));
    assert FrameCheck.Ticks(x, 4) == FrameCheck.Tick(FrameCheck.Tick(FrameCheck.Ticks(x, 2)));
    assert FrameCheck.Ticks(x, 6) == FrameCheck.Tick(FrameCheck.Tick(FrameCheck.Ticks(x, 4)));
    assert FrameCheck.Ticks(x, 8) == FrameCheck.Tick(FrameCheck.Tick(FrameCheck.Ticks(x, 6)));
  }

  lemma SampleSteps()
    ensures FrameCheck.Absorb(0x0000, 0x40) == 0x4204
    ensures FrameCheck.Absorb(0x4204, 0x20) == 0x6764
    ensures FrameCheck.Absorb(0x6764, 0x9C) == 0x7BA0
    ensures FrameCheck.Absorb(0x7BA0, 0xA3) == 0x32E0
    ensures FrameCheck.Absorb(0x32E0, 0x9C) == 0xB9D9
    ensures FrameCheck.Absorb(0xB9D9, 0xC0) == 0x8DF9
    ensures FrameCheck.Absorb(0x8DF9, 0xFF) == 0x65BB
    ensures FrameCheck.Absorb(0x65BB, 0xEE) == 0x054D
    ensures FrameCheck.Absorb(0x054D, 0x03) == 0xAB7F
    ensures FrameCheck.Absorb(0xAB7F, 0x03) == 0xB940
    ensures FrameCheck.Absorb(0xB940, 0x00) == 0x42BD
    ensures FrameCheck.Absorb(0x42BD, 0x00) == 0x6E2C
  {
    hide FrameCheck.Absorb;
    AbsorbIs(0x0000, 0x40);
    AbsorbIs(0x4204, 0x20);
    AbsorbIs(0x6764, 0x9C);
    AbsorbIs(0x7BA0, 0xA3);
    AbsorbIs(0x32E0, 0x9C);
    AbsorbIs(0xB9D9, 0xC0);
    AbsorbIs(0x8DF9, 0xFF);
    AbsorbIs(0x65BB, 0xEE);
    AbsorbIs(0x054D, 0x03);
    AbsorbIs(0xAB7F, 0x03);
    AbsorbIs(0xB940, 0x00);
    AbsorbIs(0x42BD, 0x00);
  }

  lemma SampleCrc()
    ensures FrameCheck.Crc(SAMPLE) == 0x6E2C
  {
    hide FrameCheck.Absorb;
    var d0: seq<byte> := [];
    var d1 := d0 + [0x40];
    CrcSnoc(d0, 0x40);
    var d2 := d1 + [0x20];
    CrcSnoc(d1, 0x20);
    var d3 := d2 + [0x9C];
    CrcSnoc(d2, 0x9C);
    var d4 := d3 + [0xA3];
    CrcSnoc(d3, 0xA3);
    var d5 := d4 + [0x9C];
    CrcSnoc(d4, 0x9C);
    var d6 := d5 + [0xC0];
    CrcSnoc(d5, 0xC0);
    var d7 := d6 + [0xFF];
    CrcSnoc(d6, 0xFF);
    var d8 := d7 + [0xEE];
    CrcSnoc(d7, 0xEE);
    var d9 := d8 + [0x03];
    CrcSnoc(d8, 0x03);
    var d10 := d9 + [0x03];
    CrcSnoc(d9, 0x03);
    var d11 := d10 + [0x00];
    CrcSnoc(d10, 0x00);
    var d12 := d11 + [0x00];
    CrcSnoc(d11, 0x00);
    SampleSteps();
    assert d12 == SAMPLE;
  }
}
