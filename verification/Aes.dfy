/** The AES-128 block cipher of proto_crypto.cpp (FIPS 197 sections 5.1 to 5.3): the methods work in
    place on a 16-byte state as the source does, and each is proved against a function on sequences.
    The main results are the inverse laws DecryptEncrypt and EncryptDecrypt. */
module Aes {
  import opened Bytes
  import opened Gf256

  const BLOCK: nat := 16
  const SCHEDULE: nat := 176

  // ---- The steps as functions on the 16-byte state.  Byte r + 4c is row r of column c.

  function AddRoundKey(s: seq<byte>, w: seq<byte>, round: nat): (t: seq<byte>)
    requires |s| == BLOCK && |w| == SCHEDULE && round <= 10
    ensures |t| == BLOCK
  {
    seq(BLOCK, i requires 0 <= i < BLOCK => Xor(s[i], w[16 * round + i]))
  }

  function SubBytes(s: seq<byte>): (t: seq<byte>)
    requires |s| == BLOCK
    ensures |t| == BLOCK
  {
    seq(BLOCK, i requires 0 <= i < BLOCK => Sbox(s[i]))
  }

  function InvSubBytes(s: seq<byte>): (t: seq<byte>)
    requires |s| == BLOCK
    ensures |t| == BLOCK
  {
    seq(BLOCK, i requires 0 <= i < BLOCK => InvSbox(s[i]))
  }

  /** Where byte i = r + 4c comes from when row r moves r columns to the left. */
  function LeftOf(i: nat): (k: nat)
    requires i < BLOCK
    ensures k < BLOCK
  {
    var k := i + 4 * (i % 4);
    if k < BLOCK then k else k - BLOCK
  }

  /** Where it comes from when row r moves r columns to the right. */
  function RightOf(i: nat): (k: nat)
    requires i < BLOCK
    ensures k < BLOCK
  {
    var k := i - 4 * (i % 4);
    if k >= 0 then k else k + BLOCK
  }

  function ShiftRows(s: seq<byte>): (t: seq<byte>)
    requires |s| == BLOCK
    ensures |t| == BLOCK
  {
    seq(BLOCK, i requires 0 <= i < BLOCK => s[LeftOf(i)])
  }

  function InvShiftRows(s: seq<byte>): (t: seq<byte>)
    requires |s| == BLOCK
    ensures |t| == BLOCK
  {
    seq(BLOCK, i requires 0 <= i < BLOCK => s[RightOf(i)])
  }

  /** Row k + r of the column that byte i lies in, where r is the row of byte i. */
  function Below(i: nat, k: nat): (j: nat)
    requires i < BLOCK && k < 4
    ensures j < BLOCK && j / 4 == i / 4
  {
    if i % 4 + k < 4 then i + k else i + k - 4
  }

  /** Every byte becomes `f` of its column, its own row first. */
  function ByColumns(s: seq<byte>, f: (byte, byte, byte, byte) -> byte): (t: seq<byte>)
    requires |s| == BLOCK
    ensures |t| == BLOCK
  {
    seq(BLOCK, i requires 0 <= i < BLOCK => f(s[i], s[Below(i, 1)], s[Below(i, 2)], s[Below(i, 3)]))
  }

  function MixColumns(s: seq<byte>): (t: seq<byte>)
    requires |s| == BLOCK
    ensures |t| == BLOCK
  {
    ByColumns(s, MixByte)
  }

  function InvMixColumns(s: seq<byte>): (t: seq<byte>)
    requires |s| == BLOCK
    ensures |t| == BLOCK
  {
    ByColumns(s, InvMixByte)
  }

  // ---- Each step has an inverse

  lemma AddRoundKeyInverse(s: seq<byte>, w: seq<byte>, round: nat)
    requires |s| == BLOCK && |w| == SCHEDULE && round <= 10
    ensures AddRoundKey(AddRoundKey(s, w, round), w, round) == s
  {
    hide Xor;
    var t := AddRoundKey(AddRoundKey(s, w, round), w, round);
    forall i | 0 <= i < BLOCK
      ensures t[i] == s[i]
    {
      XorCancel(s[i], w[16 * round + i]);
    }
  }

  lemma SubBytesInverse(s: seq<byte>)
    requires |s| == BLOCK
    ensures InvSubBytes(SubBytes(s)) == s
    ensures SubBytes(InvSubBytes(s)) == s
  {
    hide Sbox, InvSbox;
    forall i | 0 <= i < BLOCK
      ensures InvSubBytes(SubBytes(s))[i] == s[i] && SubBytes(InvSubBytes(s))[i] == s[i]
    {
      SboxLeftInverse(s[i]);
      SboxRightInverse(s[i]);
    }
  }

  /** Row r of the state moves r columns to the left (section 5.1.2 of FIPS 197). */
  lemma ShiftRowsMovesRows(s: seq<byte>, r: nat, c: nat)
    requires |s| == BLOCK && r < 4 && c < 4
    ensures ShiftRows(s)[r + 4 * c] == s[r + 4 * ((c + r) % 4)]
  {
    assert (r + 4 * c) % 4 == r;
  }

  lemma LeftRight(i: nat)
    requires i < BLOCK
    ensures LeftOf(RightOf(i)) == i
  {
    assert RightOf(i) % 4 == i % 4;
  }

  lemma RightLeft(i: nat)
    requires i < BLOCK
    ensures RightOf(LeftOf(i)) == i
  {
    assert LeftOf(i) % 4 == i % 4;
  }

  lemma ShiftRowsInverse(s: seq<byte>)
    requires |s| == BLOCK
    ensures InvShiftRows(ShiftRows(s)) == s
    ensures ShiftRows(InvShiftRows(s)) == s
  {
    forall i | 0 <= i < BLOCK
      ensures InvShiftRows(ShiftRows(s))[i] == s[i] && ShiftRows(InvShiftRows(s))[i] == s[i]
    {
      LeftRight(i);
      RightLeft(i);
    }
  }

  lemma BelowBelow(i: nat, k: nat, l: nat)
    requires i < BLOCK && k < 4 && l < 4
    ensures Below(Below(i, k), l) == Below(i, (k + l) % 4) && Below(i, 0) == i
  {
  }

  lemma MixColumnsLeftInverse(s: seq<byte>)
    requires |s| == BLOCK
    ensures InvMixColumns(MixColumns(s)) == s
  {
    hide MixByte, InvMixByte;
    forall i | 0 <= i < BLOCK
      ensures InvMixColumns(MixColumns(s))[i] == s[i]
    {
      hide Below;
      ColumnRows(i);
      InvMixMix(s[i], s[Below(i, 1)], s[Below(i, 2)], s[Below(i, 3)]);
    }
  }

  lemma MixColumnsRightInverse(s: seq<byte>)
    requires |s| == BLOCK
    ensures MixColumns(InvMixColumns(s)) == s
  {
    hide MixByte, InvMixByte;
    forall i | 0 <= i < BLOCK
      ensures MixColumns(InvMixColumns(s))[i] == s[i]
    {
      hide Below;
      ColumnRows(i);
      MixInvMix(s[i], s[Below(i, 1)], s[Below(i, 2)], s[Below(i, 3)]);
    }
  }

  lemma ColumnRows(i: nat)
    requires i < BLOCK
    ensures Below(Below(i, 1), 1) == Below(i, 2) && Below(Below(i, 1), 2) == Below(i, 3) && Below(Below(i, 1), 3) == i
    ensures Below(Below(i, 2), 1) == Below(i, 3) && Below(Below(i, 2), 2) == i && Below(Below(i, 2), 3) == Below(i, 1)
    ensures Below(Below(i, 3), 1) == i && Below(Below(i, 3), 2) == Below(i, 1) && Below(Below(i, 3), 3) == Below(i, 2)
  {
    hide Below;
    BelowBelow(i, 1, 1);
    BelowBelow(i, 1, 2);
    BelowBelow(i, 1, 3);
    BelowBelow(i, 2, 1);
    BelowBelow(i, 2, 2);
    BelowBelow(i, 2, 3);
    BelowBelow(i, 3, 1);
    BelowBelow(i, 3, 2);
    BelowBelow(i, 3, 3);
  }

  // ---- The key schedule

  /** AES_RCON, indexed by the round the word belongs to. */
  function Rcon(round: nat): byte
    requires 1 <= round <= 10
  {
    if round == 1 then 0x01 else if round == 2 then 0x02 else if round == 3 then 0x04
    else if round == 4 then 0x08 else if round == 5 then 0x10 else if round == 6 then 0x20
    else if round == 7 then 0x40 else if round == 8 then 0x80 else if round == 9 then 0x1B else 0x36
  }

  /** What the word at byte `g` adds to the word one round earlier, from the word just before it: at
      the start of a round that word is rotated, substituted and salted (section 5.2 of FIPS 197). */
  function NextTerm(last: seq<byte>, g: nat): (t: seq<byte>)
    requires |last| == 4 && 16 <= g < SCHEDULE
    ensures |t| == 4
  {
    if g % 16 == 0 then [Xor(Sbox(last[1]), Rcon(g / 16)), Sbox(last[2]), Sbox(last[3]), Sbox(last[0])]
    else last
  }

  function ScheduleTerm(w: seq<byte>, i: nat): byte
    requires 16 <= i < SCHEDULE && i <= |w|
  {
    var g := i - i % 4;
    NextTerm(w[g - 4..g], g)[i % 4]
  }

  /** The first `n` bytes of a schedule for `key`: each later byte follows the recurrence. */
  ghost predicate IsSchedule(key: seq<byte>, w: seq<byte>)
    requires |key| == BLOCK
  {
    && BLOCK <= |w| <= SCHEDULE
    && w[..BLOCK] == key
    && forall i :: BLOCK <= i < |w| ==> w[i] == Xor(w[i - 16], ScheduleTerm(w, i))
  }

  /** The term looks at the previous word only. */
  lemma ScheduleTermLocal(v: seq<byte>, w: seq<byte>, i: nat)
    requires 16 <= i < SCHEDULE && i <= |v| && i <= |w| && v[..i - i % 4] == w[..i - i % 4]
    ensures ScheduleTerm(v, i) == ScheduleTerm(w, i)
  {
    hide NextTerm;
    var g := i - i % 4;
    assert v[g - 4..g] == v[..g][g - 4..] == w[..g][g - 4..] == w[g - 4..g];
  }

  /** The recurrence determines the schedule. */
  lemma {:induction false} ScheduleUnique(key: seq<byte>, v: seq<byte>, w: seq<byte>, n: nat)
    requires |key| == BLOCK && IsSchedule(key, v) && IsSchedule(key, w)
    requires n <= |v| && n <= |w|
    ensures v[..n] == w[..n]
    decreases n
  {
    hide Xor, ScheduleTerm;
    if n <= BLOCK {
      assert v[..n] == key[..n] && w[..n] == key[..n];
    } else {
      var i := n - 1;
      ScheduleUnique(key, v, w, i);
      assert v[..i - i % 4] == v[..i][..i - i % 4] == w[..i][..i - i % 4] == w[..i - i % 4];
      ScheduleTermLocal(v, w, i);
      assert v[i - 16] == v[..i][i - 16] == w[..i][i - 16] == w[i - 16];
      assert v[..n] == v[..i] + [v[i]] && w[..n] == w[..i] + [w[i]];
    }
  }

  /** The first `n` bytes of the expanded key. */
  function ExpandTo(key: seq<byte>, n: nat): (w: seq<byte>)
    requires |key| == BLOCK && BLOCK <= n <= SCHEDULE
    ensures |w| == n
    decreases n
  {
    if n == BLOCK then key
    else
      var p := ExpandTo(key, n - 1);
      p + [Xor(p[n - 17], ScheduleTerm(p, n - 1))]
  }

  function ExpandKey(key: seq<byte>): (w: seq<byte>)
    requires |key| == BLOCK
    ensures |w| == SCHEDULE
  {
    ExpandTo(key, SCHEDULE)
  }

  lemma {:induction false} ExpandToIsSchedule(key: seq<byte>, n: nat)
    requires |key| == BLOCK && BLOCK <= n <= SCHEDULE
    ensures IsSchedule(key, ExpandTo(key, n))
    decreases n
  {
    hide Xor, ScheduleTerm;
    if n > BLOCK {
      ExpandToIsSchedule(key, n - 1);
      var p := ExpandTo(key, n - 1);
      assert ExpandTo(key, n)[..n - 1] == p;
      ScheduleTermLocal(p, ExpandTo(key, n), n - 1);
      ExtendSchedule(key, ExpandTo(key, n - 1), ExpandTo(key, n));
    }
  }

  lemma StartSchedule(key: seq<byte>)
    requires |key| == BLOCK
    ensures IsSchedule(key, key)
  {
    assert key[..BLOCK] == key;
  }

  /** Bytes that follow the recurrence keep a schedule a schedule. */
  lemma ExtendSchedule(key: seq<byte>, v: seq<byte>, w: seq<byte>)
    requires |key| == BLOCK && IsSchedule(key, v) && |v| <= |w| <= SCHEDULE
    requires w[..|v|] == v
    requires forall k :: |v| <= k < |w| ==> w[k] == Xor(w[k - 16], ScheduleTerm(w, k))
    ensures IsSchedule(key, w)
  {
    hide Xor, ScheduleTerm;
    assert w[..BLOCK] == v[..BLOCK];
    forall i | BLOCK <= i < |v|
      ensures w[i] == Xor(w[i - 16], ScheduleTerm(w, i))
    {
      assert w[i] == v[i] && w[i - 16] == v[i - 16];
      assert w[..i - i % 4] == v[..i - i % 4];
      ScheduleTermLocal(v, w, i);
    }
  }

  /** The word the expansion loop appends follows the recurrence. */
  lemma NextWord(key: seq<byte>, v: seq<byte>, w: seq<byte>, temp: seq<byte>)
    requires |key| == BLOCK && IsSchedule(key, v) && |v| % 4 == 0 && |v| + 4 == |w| <= SCHEDULE
    requires w[..|v|] == v && temp == NextTerm(v[|v| - 4..], |v|)
    requires forall k :: 0 <= k < 4 ==> w[|v| + k] == Xor(v[|v| + k - 16], temp[k])
    ensures IsSchedule(key, w)
  {
    hide Xor, NextTerm;
    var g := |v|;
    assert w[g - 4..g] == v[g - 4..];
    forall k | g <= k < |w|
      ensures w[k] == Xor(w[k - 16], ScheduleTerm(w, k))
    {
      assert k - k % 4 == g && k % 4 == k - g;
      assert w[g + (k - g)] == Xor(v[k - 16], temp[k - g]);
      assert w[k - 16] == v[k - 16];
    }
    ExtendSchedule(key, v, w);
  }

  /** Writes the word at byte `g`: the word one round earlier plus `temp`. */
  method AppendWord(roundKeys: array<byte>, g: nat, temp: seq<byte>)
    requires 16 <= g && g + 4 <= roundKeys.Length && |temp| == 4
    modifies roundKeys
    ensures roundKeys[..g] == old(roundKeys[..g])
    ensures forall k :: 0 <= k < 4 ==> roundKeys[g + k] == Xor(old(roundKeys[g + k - 16]), temp[k])
  {
    hide Xor;
    for j := 0 to 4
      invariant roundKeys[..g] == old(roundKeys[..g])
      invariant forall k :: 0 <= k < g ==> roundKeys[k] == old(roundKeys[k])
      invariant forall k :: 0 <= k < j ==> roundKeys[g + k] == Xor(old(roundKeys[g + k - 16]), temp[k])
    {
      roundKeys[g + j] := Xor(roundKeys[g + j - 16], temp[j]);
    }
  }

  /** The word that is added next: every fourth is rotated, substituted and given the round constant. */
  method NextWordTerm(last: seq<byte>, generated: nat, rcon: nat) returns (temp: seq<byte>)
    requires |last| == 4 && 16 <= generated < SCHEDULE
    requires generated % 16 == 0 ==> rcon == generated / 16
    ensures temp == NextTerm(last, generated)
  {
    hide Xor, Sbox, Rcon;
    temp := last;
    if generated % 16 == 0 {
      temp := [Xor(Sbox(temp[1]), Rcon(rcon)), Sbox(temp[2]), Sbox(temp[3]), Sbox(temp[0])];
    }
  }

  method ExpandKeyInto(key: seq<byte>, roundKeys: array<byte>)
    requires |key| == BLOCK && roundKeys.Length == SCHEDULE
    modifies roundKeys
    ensures roundKeys[..] == ExpandKey(key)
  {
    hide Xor, Sbox, ExpandTo, Rcon, ScheduleTerm, IsSchedule, NextTerm;
    CopyInto(roundKeys, 0, key);
    assert roundKeys[..BLOCK] == key;
    StartSchedule(key);
    var generated := BLOCK;
    var rcon := 1;
    while generated < SCHEDULE
      invariant BLOCK <= generated <= SCHEDULE && generated % 4 == 0
      invariant rcon == (generated + 15) / 16
      invariant IsSchedule(key, roundKeys[..generated])
    {
      ghost var v := roundKeys[..generated];
      var temp := NextWordTerm(roundKeys[generated - 4..generated], generated, rcon);
      if generated % 16 == 0 {
        rcon := rcon + 1;
      }
      assert v[generated - 4..] == roundKeys[generated - 4..generated];
      AppendWord(roundKeys, generated, temp);
      ghost var w := roundKeys[..generated + 4];
      NextWord(key, v, w, temp);
      generated := generated + 4;
    }
    assert roundKeys[..generated] == roundKeys[..];
    ExpandToIsSchedule(key, SCHEDULE);
    ScheduleUnique(key, roundKeys[..], ExpandKey(key), SCHEDULE);
  }

  /** The powers of the polynomial x (section 4.2.1 of FIPS 197). */
  function PowerOfX(n: nat): byte {
    if n == 0 then 1 else Product(PowerOfX(n - 1), 2)
  }

  /** The table of round constants holds the powers of x in order (section 5.2 of FIPS 197). */
  lemma RconIsPower(round: nat)
    requires 1 <= round <= 10
    ensures Rcon(round) == PowerOfX(round - 1)
  {
    if round > 1 {
      RconIsPower(round - 1);
      RconDoubles(round - 1);
    }
  }

  lemma RconDoubles(round: nat)
    requires 1 <= round < 10
    ensures Rcon(round + 1) == Product(Rcon(round), 2)
  {
    ProductSmall(Rcon(round));
    assert Double(0x01) == 0x02 && Double(0x02) == 0x04 && Double(0x04) == 0x08 && Double(0x08) == 0x10
           && Double(0x10) == 0x20 && Double(0x20) == 0x40 && Double(0x40) == 0x80 && Double(0x80) == 0x1B
           && Double(0x1B) == 0x36;
  }

  /** One byte of the word at byte `g`. */
  lemma ScheduleByte(key: seq<byte>, w: seq<byte>, g: nat, j: nat)
    requires |key| == BLOCK && IsSchedule(key, w) && |w| == SCHEDULE
    requires BLOCK <= g < SCHEDULE && g % 4 == 0 && j < 4
    ensures w[g + j] == Xor(w[g + j - 16], NextTerm(w[g - 4..g], g)[j])
  {
    hide Xor, NextTerm;
    assert (g + j) - (g + j) % 4 == g && (g + j) % 4 == j;
  }

  /** The expanded key begins with the key, and the first word of each round is the word sixteen bytes back
      plus the rotated and substituted word just before it and a power of x (section 5.2 of FIPS 197). */
  lemma ScheduleFirstWord(key: seq<byte>, round: nat)
    requires |key| == BLOCK && 1 <= round <= 10
    ensures var w, g := ExpandKey(key), 16 * round;
            && w[..BLOCK] == key
            && w[g] == Xor(w[g - 16], Xor(Sbox(w[g - 3]), PowerOfX(round - 1)))
            && w[g + 1] == Xor(w[g - 15], Sbox(w[g - 2]))
            && w[g + 2] == Xor(w[g - 14], Sbox(w[g - 1]))
            && w[g + 3] == Xor(w[g - 13], Sbox(w[g - 4]))
  {
    hide Xor, Sbox, ExpandKey, Rcon, PowerOfX, ScheduleTerm;
    var w, g := ExpandKey(key), 16 * round;
    ExpandedIsSchedule(key);
    RconIsPower(round);
    ScheduleByte(key, w, g, 0);
    ScheduleByte(key, w, g, 1);
    ScheduleByte(key, w, g, 2);
    ScheduleByte(key, w, g, 3);
    NextTermFirst(w[g - 4..g], round);
  }

  lemma NextTermFirst(last: seq<byte>, round: nat)
    requires |last| == 4 && 1 <= round <= 10
    ensures NextTerm(last, 16 * round) ==
            [Xor(Sbox(last[1]), Rcon(round)), Sbox(last[2]), Sbox(last[3]), Sbox(last[0])]
  {
    hide Xor, Sbox, Rcon;
  }

  /** Every other word is the word sixteen bytes back plus the word just before it. */
  lemma ScheduleOtherWords(key: seq<byte>, i: nat)
    requires |key| == BLOCK && BLOCK <= i < SCHEDULE && i % 16 >= 4
    ensures var w := ExpandKey(key); w[i] == Xor(w[i - 16], w[i - 4])
  {
    hide Xor, Sbox, ExpandKey, Rcon, ScheduleTerm;
    var w, g := ExpandKey(key), i - i % 4;
    ExpandedIsSchedule(key);
    ScheduleByte(key, w, g, i % 4);
    assert w[g - 4..g][i % 4] == w[i - 4];
  }

  lemma ExpandedIsSchedule(key: seq<byte>)
    requires |key| == BLOCK
    ensures IsSchedule(key, ExpandKey(key))
  {
    hide IsSchedule, ExpandTo;
    ExpandToIsSchedule(key, SCHEDULE);
  }

  // ---- The cipher

  /** Round `round` of encryption, and the inverse round of decryption. */
  function EncryptRound(s: seq<byte>, w: seq<byte>, round: nat): (t: seq<byte>)
    requires |s| == BLOCK && |w| == SCHEDULE && round <= 10
    ensures |t| == BLOCK
  {
    AddRoundKey(MixColumns(ShiftRows(SubBytes(s))), w, round)
  }

  function DecryptRound(s: seq<byte>, w: seq<byte>, round: nat): (t: seq<byte>)
    requires |s| == BLOCK && |w| == SCHEDULE && round <= 10
    ensures |t| == BLOCK
  {
    InvMixColumns(AddRoundKey(InvSubBytes(InvShiftRows(s)), w, round))
  }

  /** The state after rounds 1 to n of encryption. */
  function Forward(s: seq<byte>, w: seq<byte>, n: nat): (t: seq<byte>)
    requires |s| == BLOCK && |w| == SCHEDULE && n <= 10
    ensures |t| == BLOCK
  {
    if n == 0 then s else EncryptRound(Forward(s, w, n - 1), w, n)
  }

  /** The state after inverse rounds n down to 1 of decryption. */
  function Backward(s: seq<byte>, w: seq<byte>, n: nat): (t: seq<byte>)
    requires |s| == BLOCK && |w| == SCHEDULE && n <= 10
    ensures |t| == BLOCK
    decreases n
  {
    if n == 0 then s else Backward(DecryptRound(s, w, n), w, n - 1)
  }

  function Encrypt(block: seq<byte>, key: seq<byte>): (c: seq<byte>)
    requires |block| == BLOCK && |key| == BLOCK
    ensures |c| == BLOCK
  {
    var w := ExpandKey(key);
    AddRoundKey(ShiftRows(SubBytes(Forward(AddRoundKey(block, w, 0), w, 9))), w, 10)
  }

  function Decrypt(block: seq<byte>, key: seq<byte>): (p: seq<byte>)
    requires |block| == BLOCK && |key| == BLOCK
    ensures |p| == BLOCK
  {
    var w := ExpandKey(key);
    AddRoundKey(InvSubBytes(InvShiftRows(Backward(AddRoundKey(block, w, 10), w, 9))), w, 0)
  }

  /** The inverse rounds peel off the rounds, leaving the first half of the round they stop at. */
  lemma {:induction false} BackwardForward(s: seq<byte>, w: seq<byte>, n: nat)
    requires |s| == BLOCK && |w| == SCHEDULE && n <= 10
    ensures Backward(ShiftRows(SubBytes(Forward(s, w, n))), w, n) == ShiftRows(SubBytes(s))
  {
    hide AddRoundKey, SubBytes, InvSubBytes, ShiftRows, InvShiftRows, MixColumns, InvMixColumns;
    if n > 0 {
      var p := Forward(s, w, n - 1);
      var m := ShiftRows(SubBytes(p));
      var q := Forward(s, w, n);
      assert q == AddRoundKey(MixColumns(m), w, n);
      ShiftRowsInverse(SubBytes(q));
      SubBytesInverse(q);
      AddRoundKeyInverse(MixColumns(m), w, n);
      MixColumnsLeftInverse(m);
      assert DecryptRound(ShiftRows(SubBytes(q)), w, n) == m;
      BackwardForward(s, w, n - 1);
    }
  }

  /** The rounds rebuild what the inverse rounds took apart. */
  lemma {:induction false} ForwardBackward(s: seq<byte>, w: seq<byte>, n: nat)
    requires |s| == BLOCK && |w| == SCHEDULE && n <= 10
    ensures Forward(InvSubBytes(InvShiftRows(Backward(s, w, n))), w, n) == InvSubBytes(InvShiftRows(s))
    decreases n
  {
    hide AddRoundKey, SubBytes, InvSubBytes, ShiftRows, InvShiftRows, MixColumns, InvMixColumns;
    if n > 0 {
      var m := AddRoundKey(InvSubBytes(InvShiftRows(s)), w, n);
      var q := DecryptRound(s, w, n);
      ForwardBackward(q, w, n - 1);
      assert Forward(InvSubBytes(InvShiftRows(Backward(s, w, n))), w, n - 1) == InvSubBytes(InvShiftRows(q));
      SubBytesInverse(InvShiftRows(q));
      ShiftRowsInverse(q);
      MixColumnsRightInverse(m);
      AddRoundKeyInverse(InvSubBytes(InvShiftRows(s)), w, n);
    }
  }

  /** Decryption undoes encryption for every block and every key. */
  lemma DecryptEncrypt(block: seq<byte>, key: seq<byte>)
    requires |block| == BLOCK && |key| == BLOCK
    ensures Decrypt(Encrypt(block, key), key) == block
  {
    hide AddRoundKey, SubBytes, InvSubBytes, ShiftRows, InvShiftRows, Forward, Backward, ExpandKey;
    var w := ExpandKey(key);
    var start := AddRoundKey(block, w, 0);
    var last := Forward(start, w, 9);
    AddRoundKeyInverse(ShiftRows(SubBytes(last)), w, 10);
    BackwardForward(start, w, 9);
    ShiftRowsInverse(SubBytes(start));
    SubBytesInverse(start);
    AddRoundKeyInverse(block, w, 0);
  }

  /** Encryption undoes decryption, so a key selects a permutation of the blocks. */
  lemma EncryptDecrypt(block: seq<byte>, key: seq<byte>)
    requires |block| == BLOCK && |key| == BLOCK
    ensures Encrypt(Decrypt(block, key), key) == block
  {
    hide AddRoundKey, SubBytes, InvSubBytes, ShiftRows, InvShiftRows, Forward, Backward, ExpandKey;
    var w := ExpandKey(key);
    var start := AddRoundKey(block, w, 10);
    var last := InvSubBytes(InvShiftRows(Backward(start, w, 9)));
    AddRoundKeyInverse(last, w, 0);
    ForwardBackward(start, w, 9);
    SubBytesInverse(InvShiftRows(start));
    ShiftRowsInverse(start);
    AddRoundKeyInverse(block, w, 10);
  }

  /** Distinct blocks have distinct ciphertexts under one key. */
  lemma EncryptInjective(a: seq<byte>, b: seq<byte>, key: seq<byte>)
    requires |a| == BLOCK && |b| == BLOCK && |key| == BLOCK
    requires Encrypt(a, key) == Encrypt(b, key)
    ensures a == b
  {
    hide Encrypt, Decrypt;
    DecryptEncrypt(a, key);
    DecryptEncrypt(b, key);
  }

  // ---- The same steps in place

  method AddRoundKeyInPlace(state: array<byte>, roundKeys: array<byte>, round: nat)
    requires state.Length == BLOCK && roundKeys.Length == SCHEDULE && state != roundKeys && round <= 10
    modifies state
    ensures state[..] == AddRoundKey(old(state[..]), roundKeys[..], round)
  {
    for i := 0 to BLOCK
      invariant forall k :: 0 <= k < i ==> state[k] == Xor(old(state[k]), roundKeys[16 * round + k])
      invariant forall k :: i <= k < BLOCK ==> state[k] == old(state[k])
    {
      hide Xor;
      state[i] := Xor(state[i], roundKeys[16 * round + i]);
    }
  }

  method SubBytesInPlace(state: array<byte>)
    requires state.Length == BLOCK
    modifies state
    ensures state[..] == SubBytes(old(state[..]))
  {
    hide Sbox;
    for i := 0 to BLOCK
      invariant forall k :: 0 <= k < i ==> state[k] == Sbox(old(state[k]))
      invariant forall k :: i <= k < BLOCK ==> state[k] == old(state[k])
    {
      state[i] := Sbox(state[i]);
    }
  }

  method InvSubBytesInPlace(state: array<byte>)
    requires state.Length == BLOCK
    modifies state
    ensures state[..] == InvSubBytes(old(state[..]))
  {
    hide InvSbox;
    for i := 0 to BLOCK
      invariant forall k :: 0 <= k < i ==> state[k] == InvSbox(old(state[k]))
      invariant forall k :: i <= k < BLOCK ==> state[k] == old(state[k])
    {
      state[i] := InvSbox(state[i]);
    }
  }

  /** Writes the four bytes of row r. */
  method SetRow(state: array<byte>, r: nat, a: byte, b: byte, c: byte, d: byte)
    requires state.Length == BLOCK && r < 4
    modifies state
    ensures state[r] == a && state[r + 4] == b && state[r + 8] == c && state[r + 12] == d
    ensures forall k :: 0 <= k < BLOCK && k % 4 != r ==> state[k] == old(state[k])
  {
    state[r], state[r + 4], state[r + 8], state[r + 12] := a, b, c, d;
  }

  method ShiftRowsInPlace(state: array<byte>)
    requires state.Length == BLOCK
    modifies state
    ensures state[..] == ShiftRows(old(state[..]))
  {
    var tmp := state[..];
    SetRow(state, 0, tmp[0], tmp[4], tmp[8], tmp[12]);
    SetRow(state, 1, tmp[5], tmp[9], tmp[13], tmp[1]);
    SetRow(state, 2, tmp[10], tmp[14], tmp[2], tmp[6]);
    SetRow(state, 3, tmp[15], tmp[3], tmp[7], tmp[11]);
  }

  method InvShiftRowsInPlace(state: array<byte>)
    requires state.Length == BLOCK
    modifies state
    ensures state[..] == InvShiftRows(old(state[..]))
  {
    var tmp := state[..];
    SetRow(state, 0, tmp[0], tmp[4], tmp[8], tmp[12]);
    SetRow(state, 1, tmp[13], tmp[1], tmp[5], tmp[9]);
    SetRow(state, 2, tmp[10], tmp[14], tmp[2], tmp[6]);
    SetRow(state, 3, tmp[7], tmp[11], tmp[15], tmp[3]);
  }

  /** One column; each sum is in the order the source writes it. */
  method MixColumn(a0: byte, a1: byte, a2: byte, a3: byte) returns (b0: byte, b1: byte, b2: byte, b3: byte)
    ensures b0 == MixByte(a0, a1, a2, a3) && b1 == MixByte(a1, a2, a3, a0)
    ensures b2 == MixByte(a2, a3, a0, a1) && b3 == MixByte(a3, a0, a1, a2)
  {
    hide Mul, Xor, Xor4, SumOfFour, MixByte;
    var d0 := AesMul(a0, 2);
    var t1 := AesMul(a1, 3);
    b0 := SumOfFour(d0, t1, a2, a3);
    var d1 := AesMul(a1, 2);
    var t2 := AesMul(a2, 3);
    b1 := SumOfFour(a0, d1, t2, a3);
    var d2 := AesMul(a2, 2);
    var t3 := AesMul(a3, 3);
    b2 := SumOfFour(a0, a1, d2, t3);
    var t0 := AesMul(a0, 3);
    var d3 := AesMul(a3, 2);
    b3 := SumOfFour(t0, a1, a2, d3);
    MixColumnSums(a0, a1, a2, a3);
  }

  /** The four sums of the source are the four bytes of the mixed column. */
  lemma MixColumnSums(a0: byte, a1: byte, a2: byte, a3: byte)
    ensures SumOfFour(Mul(a0, 2), Mul(a1, 3), a2, a3) == MixByte(a0, a1, a2, a3)
    ensures SumOfFour(a0, Mul(a1, 2), Mul(a2, 3), a3) == MixByte(a1, a2, a3, a0)
    ensures SumOfFour(a0, a1, Mul(a2, 2), Mul(a3, 3)) == MixByte(a2, a3, a0, a1)
    ensures SumOfFour(Mul(a0, 3), a1, a2, Mul(a3, 2)) == MixByte(a3, a0, a1, a2)
  {
    hide Mul, Xor, Xor4, SumOfFour;
    SumOfFourIsXor4(Mul(a0, 2), Mul(a1, 3), a2, a3);
    SumOfFourRotated(a0, Mul(a1, 2), Mul(a2, 3), a3);
    SumOfFourRotated(a0, a1, Mul(a2, 2), Mul(a3, 3));
    SumOfFourRotated(Mul(a0, 3), a1, a2, Mul(a3, 2));
  }

  lemma SumOfFourRotated(a: byte, b: byte, c: byte, d: byte)
    ensures SumOfFour(a, b, c, d) == Xor4(b, c, d, a) == Xor4(c, d, a, b) == Xor4(d, a, b, c)
  {
    hide Xor, Xor4, SumOfFour;
    SumOfFourIsXor4(a, b, c, d);
    Xor4Rotate(a, b, c, d);
  }

  /** The dot product of a column with four factors, in the order the source writes it. */
  method InvMixRow(a0: byte, f0: nat, a1: byte, f1: nat, a2: byte, f2: nat, a3: byte, f3: nat) returns (b: byte)
    ensures b == Xor4(Mul(a0, f0), Mul(a1, f1), Mul(a2, f2), Mul(a3, f3))
  {
    hide Mul, Xor, Xor4, SumOfFour;
    var p0 := AesMul(a0, f0);
    var p1 := AesMul(a1, f1);
    var p2 := AesMul(a2, f2);
    var p3 := AesMul(a3, f3);
    b := SumOfFour(p0, p1, p2, p3);
    SumOfFourIsXor4(p0, p1, p2, p3);
  }

  method InvMixColumn(a0: byte, a1: byte, a2: byte, a3: byte) returns (b0: byte, b1: byte, b2: byte, b3: byte)
    ensures b0 == InvMixByte(a0, a1, a2, a3) && b1 == InvMixByte(a1, a2, a3, a0)
    ensures b2 == InvMixByte(a2, a3, a0, a1) && b3 == InvMixByte(a3, a0, a1, a2)
  {
    hide Mul, Xor, Xor4;
    b0 := InvMixRow(a0, 0x0E, a1, 0x0B, a2, 0x0D, a3, 0x09);
    b1 := InvMixRow(a0, 0x09, a1, 0x0E, a2, 0x0B, a3, 0x0D);
    Xor4Rotate(Mul(a1, 0x0E), Mul(a2, 0x0B), Mul(a3, 0x0D), Mul(a0, 0x09));
    b2 := InvMixRow(a0, 0x0D, a1, 0x09, a2, 0x0E, a3, 0x0B);
    Xor4Rotate(Mul(a2, 0x0E), Mul(a3, 0x0B), Mul(a0, 0x0D), Mul(a1, 0x09));
    b3 := InvMixRow(a0, 0x0B, a1, 0x0D, a2, 0x09, a3, 0x0E);
    Xor4Rotate(Mul(a3, 0x0E), Mul(a0, 0x0B), Mul(a1, 0x0D), Mul(a2, 0x09));
  }

  lemma ColumnIndices(c: nat)
    requires c < BLOCK && c % 4 == 0
    ensures Below(c, 1) == c + 1 && Below(c, 2) == c + 2 && Below(c, 3) == c + 3
    ensures Below(c + 1, 1) == c + 2 && Below(c + 1, 2) == c + 3 && Below(c + 1, 3) == c
    ensures Below(c + 2, 1) == c + 3 && Below(c + 2, 2) == c && Below(c + 2, 3) == c + 1
    ensures Below(c + 3, 1) == c && Below(c + 3, 2) == c + 1 && Below(c + 3, 3) == c + 2
  {
  }

  lemma MixColumnAt(s: seq<byte>, c: nat)
    requires |s| == BLOCK && c < BLOCK && c % 4 == 0
    ensures MixColumns(s)[c] == MixByte(s[c], s[c + 1], s[c + 2], s[c + 3])
    ensures MixColumns(s)[c + 1] == MixByte(s[c + 1], s[c + 2], s[c + 3], s[c])
    ensures MixColumns(s)[c + 2] == MixByte(s[c + 2], s[c + 3], s[c], s[c + 1])
    ensures MixColumns(s)[c + 3] == MixByte(s[c + 3], s[c], s[c + 1], s[c + 2])
  {
    hide MixByte;
    ColumnIndices(c);
  }

  lemma InvMixColumnAt(s: seq<byte>, c: nat)
    requires |s| == BLOCK && c < BLOCK && c % 4 == 0
    ensures InvMixColumns(s)[c] == InvMixByte(s[c], s[c + 1], s[c + 2], s[c + 3])
    ensures InvMixColumns(s)[c + 1] == InvMixByte(s[c + 1], s[c + 2], s[c + 3], s[c])
    ensures InvMixColumns(s)[c + 2] == InvMixByte(s[c + 2], s[c + 3], s[c], s[c + 1])
    ensures InvMixColumns(s)[c + 3] == InvMixByte(s[c + 3], s[c], s[c + 1], s[c + 2])
  {
    hide InvMixByte;
    ColumnIndices(c);
  }

  method SetColumn(state: array<byte>, c: nat, a0: byte, a1: byte, a2: byte, a3: byte)
    requires state.Length == BLOCK && c < BLOCK && c % 4 == 0
    modifies state
    ensures state[c] == a0 && state[c + 1] == a1 && state[c + 2] == a2 && state[c + 3] == a3
    ensures forall k :: 0 <= k < BLOCK && !(c <= k < c + 4) ==> state[k] == old(state[k])
  {
    state[c], state[c + 1], state[c + 2], state[c + 3] := a0, a1, a2, a3;
  }

  method MixColumnsInPlace(state: array<byte>)
    requires state.Length == BLOCK
    modifies state
    ensures state[..] == MixColumns(old(state[..]))
  {
    hide MixByte, MixColumns;
    for column := 0 to 4
      invariant forall k :: 0 <= k < 4 * column ==> state[k] == MixColumns(old(state[..]))[k]
      invariant forall k :: 4 * column <= k < BLOCK ==> state[k] == old(state[k])
    {
      var c := 4 * column;
      MixColumnAt(old(state[..]), c);
      var b0, b1, b2, b3 := MixColumn(state[c], state[c + 1], state[c + 2], state[c + 3]);
      SetColumn(state, c, b0, b1, b2, b3);
    }
  }

  method InvMixColumnsInPlace(state: array<byte>)
    requires state.Length == BLOCK
    modifies state
    ensures state[..] == InvMixColumns(old(state[..]))
  {
    hide InvMixByte, InvMixColumns;
    for column := 0 to 4
      invariant forall k :: 0 <= k < 4 * column ==> state[k] == InvMixColumns(old(state[..]))[k]
      invariant forall k :: 4 * column <= k < BLOCK ==> state[k] == old(state[k])
    {
      var c := 4 * column;
      InvMixColumnAt(old(state[..]), c);
      var b0, b1, b2, b3 := InvMixColumn(state[c], state[c + 1], state[c + 2], state[c + 3]);
      SetColumn(state, c, b0, b1, b2, b3);
    }
  }

  method EncryptBlock(block: seq<byte>, key: seq<byte>, out: array<byte>)
    requires |block| == BLOCK && |key| == BLOCK && out.Length == BLOCK
    modifies out
    ensures out[..] == Encrypt(block, key)
  {
    hide AddRoundKey, SubBytes, ShiftRows, MixColumns, ExpandKey;
    var state := new byte[BLOCK];
    var roundKeys := new byte[SCHEDULE];
    CopyInto(state, 0, block);
    assert state[..] == block;
    ExpandKeyInto(key, roundKeys);
    ghost var w := ExpandKey(key);
    AddRoundKeyInPlace(state, roundKeys, 0);
    ghost var start := state[..];
    for round := 1 to 10
      invariant roundKeys[..] == w
      invariant state[..] == Forward(start, w, round - 1)
    {
      SubBytesInPlace(state);
      ShiftRowsInPlace(state);
      MixColumnsInPlace(state);
      AddRoundKeyInPlace(state, roundKeys, round);
    }
    SubBytesInPlace(state);
    ShiftRowsInPlace(state);
    AddRoundKeyInPlace(state, roundKeys, 10);
    CopyInto(out, 0, state[..]);
    assert out[..] == state[..];
  }

  method DecryptBlock(block: seq<byte>, key: seq<byte>, out: array<byte>)
    requires |block| == BLOCK && |key| == BLOCK && out.Length == BLOCK
    modifies out
    ensures out[..] == Decrypt(block, key)
  {
    hide AddRoundKey, InvSubBytes, InvShiftRows, InvMixColumns, ExpandKey;
    var state := new byte[BLOCK];
    var roundKeys := new byte[SCHEDULE];
    CopyInto(state, 0, block);
    assert state[..] == block;
    ExpandKeyInto(key, roundKeys);
    ghost var w := ExpandKey(key);
    AddRoundKeyInPlace(state, roundKeys, 10);
    ghost var start := state[..];
    var round := 9;
    while round >= 1
      invariant 0 <= round <= 9
      invariant roundKeys[..] == w
      invariant Backward(state[..], w, round) == Backward(start, w, 9)
    {
      InvShiftRowsInPlace(state);
      InvSubBytesInPlace(state);
      AddRoundKeyInPlace(state, roundKeys, round);
      InvMixColumnsInPlace(state);
      round := round - 1;
    }
    InvShiftRowsInPlace(state);
    InvSubBytesInPlace(state);
    AddRoundKeyInPlace(state, roundKeys, 0);
    CopyInto(out, 0, state[..]);
    assert out[..] == state[..];
  }
}
