/** Authentication and key wrapping as proto_crypto.cpp builds them from the block cipher and the
    checksum: the 16-byte initialization vector, the 6-byte MAC and its check, and crypt_key. */
module Crypto {
  import opened Bytes
  import opened Checksum
  import Aes

  const HMAC_SIZE: nat := 6
  const IV_SIZE: nat := 16
  const IV_PADDING: byte := 0x55

  /** TRANSFER_KEY, known to every device. */
  const TRANSFER_KEY: seq<byte> :=
    [0x34, 0xC3, 0x46, 0x6E, 0xD8, 0x8F, 0x4E, 0x8E, 0x16, 0xAA, 0x47, 0x39, 0x49, 0x88, 0x43, 0x73]

  // ---- Specification

  /** The first eight bytes of the transcript, padded with 0x55. */
  function Head(data: seq<byte>): (h: seq<byte>)
    ensures |h| == 8
  {
    seq(8, i requires 0 <= i < 8 => if i < |data| then data[i] else IV_PADDING)
  }

  function Iv(data: seq<byte>, challenge: seq<byte>): (iv: seq<byte>)
    requires |challenge| == HMAC_SIZE
    ensures |iv| == IV_SIZE
  {
    var s := Run(ZERO, data);
    Head(data) + [s.c1, s.c2] + challenge
  }

  function Hmac(data: seq<byte>, challenge: seq<byte>, key: seq<byte>): (mac: seq<byte>)
    requires |challenge| == HMAC_SIZE && |key| == Aes.BLOCK
    ensures |mac| == HMAC_SIZE
  {
    Aes.Encrypt(Iv(data, challenge), key)[..HMAC_SIZE]
  }

  /** The key with the encrypted vector added to it. */
  function Wrapped(data: seq<byte>, challenge: seq<byte>, key: seq<byte>): (out: seq<byte>)
    requires |challenge| == HMAC_SIZE && |key| == Aes.BLOCK
    ensures |out| == Aes.BLOCK
  {
    XorSeq(key, Aes.Encrypt(Iv(data, challenge), TRANSFER_KEY))
  }

  // ---- The methods

  method ConstructIv(data: seq<byte>, challenge: seq<byte>, iv: array<byte>)
    requires |data| < 256 && |challenge| == HMAC_SIZE && iv.Length == IV_SIZE
    modifies iv
    ensures iv[..] == Iv(data, challenge)
  {
    hide Step;
    var c1, c2 := 0 as byte, 0 as byte;
    for i := 0 to |data|
      invariant Sum(c1, c2) == Run(ZERO, data[..i])
      invariant forall k :: 0 <= k < i && k < 8 ==> iv[k] == data[k]
    {
      c1, c2 := ComputeChecksum(data[i], c1, c2);
      assert data[..i + 1][..i] == data[..i];
      if i < 8 {
        iv[i] := data[i];
      }
    }
    assert data[..|data|] == data;
    var i := |data|;
    while i < 8
      invariant |data| <= i
      invariant forall k :: 0 <= k < i && k < 8 ==> iv[k] == Head(data)[k]
    {
      iv[i] := IV_PADDING;
      i := i + 1;
    }
    iv[8] := c1;
    iv[9] := c2;
    assert iv[..8] == Head(data);
    CopyInto(iv, 10, challenge);
    assert iv[..10] == Head(data) + [c1, c2];
    assert iv[..] == iv[..10] + iv[10..];
  }

  method CreateHmac(data: seq<byte>, challenge: seq<byte>, key: seq<byte>, hmac: array<byte>)
    requires |data| < 256 && |challenge| == HMAC_SIZE && |key| == Aes.BLOCK && hmac.Length == HMAC_SIZE
    modifies hmac
    ensures hmac[..] == Hmac(data, challenge, key)
  {
    hide Iv, Aes.Encrypt;
    var iv := new byte[IV_SIZE];
    ConstructIv(data, challenge, iv);
    var encrypted := new byte[Aes.BLOCK];
    Aes.EncryptBlock(iv[..], key, encrypted);
    CopyInto(hmac, 0, encrypted[..HMAC_SIZE]);
    assert hmac[..] == encrypted[..HMAC_SIZE];
  }

  lemma OrOfDifference(d: byte, x: byte, y: byte)
    ensures d | (x ^ y) == 0 <==> d == 0 && x == y
  {
  }

  /** The check accumulates the differences of all six bytes and accepts exactly the right value. */
  method VerifyHmac(data: seq<byte>, hmac: seq<byte>, challenge: seq<byte>, key: seq<byte>) returns (ok: bool)
    requires |data| < 256 && |hmac| == HMAC_SIZE && |challenge| == HMAC_SIZE && |key| == Aes.BLOCK
    ensures ok <==> hmac == Hmac(data, challenge, key)
  {
    hide Hmac;
    var expected := new byte[HMAC_SIZE];
    CreateHmac(data, challenge, key, expected);
    var diff: byte := 0;
    for i := 0 to HMAC_SIZE
      invariant expected[..] == Hmac(data, challenge, key)
      invariant diff == 0 <==> hmac[..i] == expected[..i]
    {
      OrOfDifference(diff, hmac[i], expected[i]);
      assert hmac[..i + 1] == hmac[..i] + [hmac[i]];
      assert expected[..i + 1] == expected[..i] + [expected[i]];
      diff := diff | (hmac[i] ^ expected[i]);
    }
    assert hmac[..HMAC_SIZE] == hmac && expected[..HMAC_SIZE] == expected[..];
    ok := diff == 0;
  }

  method CryptKey(data: seq<byte>, challenge: seq<byte>, key: seq<byte>, out: array<byte>)
    requires |data| < 256 && |challenge| == HMAC_SIZE && |key| == Aes.BLOCK && out.Length == Aes.BLOCK
    modifies out
    ensures out[..] == Wrapped(data, challenge, key)
  {
    hide Iv, Xor, Aes.Encrypt;
    var iv := new byte[IV_SIZE];
    ConstructIv(data, challenge, iv);
    var encrypted := new byte[Aes.BLOCK];
    Aes.EncryptBlock(iv[..], TRANSFER_KEY, encrypted);
    for i := 0 to Aes.BLOCK
      invariant forall k :: 0 <= k < i ==> out[k] == Xor(key[k], encrypted[k])
      invariant encrypted[..] == Aes.Encrypt(Iv(data, challenge), TRANSFER_KEY)
    {
      out[i] := Xor(key[i], encrypted[i]);
    }
  }

  // ---- What the constructions promise

  /** crypt_key undoes itself: unwrapping with the same transcript and challenge recovers the key. */
  lemma UnwrapWrap(data: seq<byte>, challenge: seq<byte>, key: seq<byte>)
    requires |challenge| == HMAC_SIZE && |key| == Aes.BLOCK
    ensures Wrapped(data, challenge, Wrapped(data, challenge, key)) == key
  {
    hide Iv, Xor, Aes.Encrypt;
    var stream := Aes.Encrypt(Iv(data, challenge), TRANSFER_KEY);
    var out := XorSeq(XorSeq(key, stream), stream);
    forall i | 0 <= i < Aes.BLOCK
      ensures out[i] == key[i]
    {
      XorCancel(key[i], stream[i]);
    }
  }

  /** Wrapping leaks no collisions: distinct keys have distinct wrapped forms. */
  lemma WrapInjective(data: seq<byte>, challenge: seq<byte>, k1: seq<byte>, k2: seq<byte>)
    requires |challenge| == HMAC_SIZE && |k1| == Aes.BLOCK && |k2| == Aes.BLOCK
    requires Wrapped(data, challenge, k1) == Wrapped(data, challenge, k2)
    ensures k1 == k2
  {
    hide Wrapped;
    UnwrapWrap(data, challenge, k1);
    UnwrapWrap(data, challenge, k2);
  }

  /** Under another challenge a key has another wrapped form, and unwrapping with it misses the key. */
  lemma OtherChallengeOtherWrap(data: seq<byte>, c1: seq<byte>, c2: seq<byte>, key: seq<byte>)
    requires |c1| == HMAC_SIZE && |c2| == HMAC_SIZE && c1 != c2 && |key| == Aes.BLOCK
    ensures Wrapped(data, c1, key) != Wrapped(data, c2, key)
    ensures Wrapped(data, c2, Wrapped(data, c1, key)) != key
  {
    hide Iv, Xor, Aes.Encrypt;
    var s1, s2 := Aes.Encrypt(Iv(data, c1), TRANSFER_KEY), Aes.Encrypt(Iv(data, c2), TRANSFER_KEY);
    ChallengeChangesBlock(data, c1, data, c2, TRANSFER_KEY);
    if Wrapped(data, c1, key) == Wrapped(data, c2, key) {
      SameSumSameStream(key, s1, s2);
    }
    UnwrapWrap(data, c2, Wrapped(data, c1, key));
  }

  lemma SameSumSameStream(key: seq<byte>, s1: seq<byte>, s2: seq<byte>)
    requires |key| == |s1| == |s2| && XorSeq(key, s1) == XorSeq(key, s2)
    ensures s1 == s2
  {
    hide Xor;
    forall i | 0 <= i < |key|
      ensures s1[i] == s2[i]
    {
      assert XorSeq(key, s1)[i] == XorSeq(key, s2)[i];
      XorLeftEqual(key[i], s1[i], s2[i]);
    }
  }

  lemma XorLeftEqual(k: byte, x: byte, y: byte)
    requires Xor(k, x) == Xor(k, y)
    ensures x == y
  {
    XorComm(k, x);
    XorComm(k, y);
    XorCancel(x, k);
    XorCancel(y, k);
  }

  /** The vector determines the challenge, the checksum and the head of the transcript. */
  lemma IvParts(d1: seq<byte>, c1: seq<byte>, d2: seq<byte>, c2: seq<byte>)
    requires |c1| == HMAC_SIZE && |c2| == HMAC_SIZE
    ensures Iv(d1, c1) == Iv(d2, c2) <==> Head(d1) == Head(d2) && Run(ZERO, d1) == Run(ZERO, d2) && c1 == c2
  {
    hide Head, Run;
    var v1, v2 := Iv(d1, c1), Iv(d2, c2);
    assert v1[..8] == Head(d1) && v2[..8] == Head(d2);
    assert v1[8] == Run(ZERO, d1).c1 && v1[9] == Run(ZERO, d1).c2;
    assert v2[8] == Run(ZERO, d2).c1 && v2[9] == Run(ZERO, d2).c2;
    assert v1[10..] == c1 && v2[10..] == c2;
  }

  /** Another challenge gives another block under every key, whatever the transcripts. */
  lemma ChallengeChangesBlock(d1: seq<byte>, c1: seq<byte>, d2: seq<byte>, c2: seq<byte>, key: seq<byte>)
    requires |c1| == HMAC_SIZE && |c2| == HMAC_SIZE && c1 != c2 && |key| == Aes.BLOCK
    ensures Aes.Encrypt(Iv(d1, c1), key) != Aes.Encrypt(Iv(d2, c2), key)
  {
    hide Iv, Aes.Encrypt;
    IvParts(d1, c1, d2, c2);
    if Aes.Encrypt(Iv(d1, c1), key) == Aes.Encrypt(Iv(d2, c2), key) {
      Aes.EncryptInjective(Iv(d1, c1), Iv(d2, c2), key);
    }
  }

  /** So does a change of one byte of the transcript at any position, also past the eighth. */
  lemma OneByteChangesBlock(pre: seq<byte>, a: byte, b: byte, post: seq<byte>, challenge: seq<byte>, key: seq<byte>)
    requires a != b && |challenge| == HMAC_SIZE && |key| == Aes.BLOCK
    ensures Iv(pre + [a] + post, challenge) != Iv(pre + [b] + post, challenge)
    ensures Aes.Encrypt(Iv(pre + [a] + post, challenge), key) != Aes.Encrypt(Iv(pre + [b] + post, challenge), key)
  {
    hide Iv, Aes.Encrypt, Run;
    var x, y := pre + [a] + post, pre + [b] + post;
    OneByteChangesChecksum(pre, a, b, post);
    IvParts(x, challenge, y, challenge);
    if Aes.Encrypt(Iv(x, challenge), key) == Aes.Encrypt(Iv(y, challenge), key) {
      Aes.EncryptInjective(Iv(x, challenge), Iv(y, challenge), key);
    }
  }

  /** Two adjacent changed bytes past the eighth leave the vector alone exactly when the second
      change is the first one doubled without loss. */
  lemma TwoByteChangesIv(pre: seq<byte>, a: byte, a': byte, b: byte, b': byte, post: seq<byte>, challenge: seq<byte>)
    requires 8 <= |pre| && |challenge| == HMAC_SIZE
    ensures Iv(pre + [a, b] + post, challenge) == Iv(pre + [a', b'] + post, challenge)
       <==> !Top(Xor(a, a')) && Xor(b, b') == Shl(Xor(a, a'))
  {
    hide Iv, Run, Xor, Shl, Top;
    var x, y := pre + [a, b] + post, pre + [a', b'] + post;
    TwoByteChangesChecksum(pre, a, a', b, b', post);
    IvParts(x, challenge, y, challenge);
    assert forall i :: 0 <= i < 8 ==> x[i] == pre[i] && y[i] == pre[i];
    assert Head(x) == Head(y);
  }
}
