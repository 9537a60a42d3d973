/** The frames of proto_commands.cpp that the exchange and pairing engines put on the air. */
module CommandFrames {
  import opened Bytes
  import opened Commands
  import opened Frame
  import Aes
  import Crypto

  const NODE_ID_SIZE: nat := 3
  const SET_CONFIG1_STATUS_BROADCAST_PAYLOAD: seq<byte> := [0xE0, 0x10, 0x0A, 0x08, 0x00]

  type NodeId = s: seq<byte> | |s| == NODE_ID_SIZE witness [0, 0, 0]
  type Key = s: seq<byte> | |s| == Aes.BLOCK witness Zeros(Aes.BLOCK)
  type Challenge = s: seq<byte> | |s| == Crypto.HMAC_SIZE witness Zeros(Crypto.HMAC_SIZE)

  /** A two-way frame with its addresses, as the builders start it. */
  function Addressed(start: bool, end: bool, lowPower: bool, dst: NodeId, src: NodeId): IoFrame {
    ZERO_FRAME.(ctrl0 := Flags(true, start, end), ctrl1 := if lowPower then CTRL1_LOW_POWER else 0,
                dst := dst, src := src)
  }

  method StartFrame(start: bool, end: bool, lowPower: bool, dst: NodeId, src: NodeId) returns (f: IoFrame)
    ensures f == Addressed(start, end, lowPower, dst, src)
  {
    f := InitFrame(true, start, end, lowPower);
    f := f.(dst := dst);
    f := f.(src := src);
  }

  /** What the authentication code covers: the request's command byte and payload. */
  function Transcript(origin: IoFrame): (t: seq<byte>)
    requires origin.dataLen <= FRAME_MAX_DATA_SIZE
    ensures |t| == origin.dataLen + 1
  {
    [origin.cmd] + origin.data[..origin.dataLen]
  }

  // ---- Specification of the frames

  function KeyInit(own: NodeId, dst: NodeId): IoFrame {
    WithCmd(Addressed(true, false, true, dst, own), CMD_KEY_INIT, [])
  }

  function KeyTransfer(old_: IoFrame, dst: NodeId, src: NodeId, key: Key, challenge: Challenge): IoFrame {
    WithCmd(Addressed(false, false, true, dst, src), CMD_KEY_TRANSFER, Crypto.Wrapped([old_.cmd], challenge, key))
  }

  function ChallengeRequest(dst: NodeId, src: NodeId, challenge: Challenge): IoFrame {
    WithCmd(Addressed(true, false, true, dst, src), CMD_CHALLENGE_REQ, challenge)
  }

  function ChallengeResponse(dst: NodeId, src: NodeId, challenge: Challenge, origin: IoFrame, key: Key): IoFrame
    requires origin.dataLen <= FRAME_MAX_DATA_SIZE
  {
    WithCmd(Addressed(false, false, true, dst, src), CMD_CHALLENGE_RESP,
            Crypto.Hmac(Transcript(origin), challenge, key))
  }

  function SetConfig1(own: NodeId, dst: NodeId): IoFrame {
    WithCmd(Addressed(true, false, true, dst, own), CMD_SET_CONFIG1, SET_CONFIG1_STATUS_BROADCAST_PAYLOAD)
  }

  // ---- Builders

  method CreateKeyInit(own: NodeId, dst: NodeId) returns (ok: bool, f: IoFrame)
    ensures ok && f == KeyInit(own, dst)
  {
    f := StartFrame(true, false, true, dst, own);
    ok, f := SetCmd(f, CMD_KEY_INIT, []);
  }

  method CreateKeyTransfer(old_: IoFrame, dst: NodeId, src: NodeId, key: Key, challenge: Challenge)
    returns (ok: bool, f: IoFrame)
    ensures ok && f == KeyTransfer(old_, dst, src, key, challenge)
  {
    f := StartFrame(false, false, true, dst, src);
    var wrapped := new byte[Aes.BLOCK];
    Crypto.CryptKey([old_.cmd], challenge, key, wrapped);
    ok, f := SetCmd(f, CMD_KEY_TRANSFER, wrapped[..]);
  }

  /** The random challenge is a parameter. */
  method CreateChallengeRequest(dst: NodeId, src: NodeId, challenge: Challenge) returns (ok: bool, f: IoFrame)
    ensures ok && f == ChallengeRequest(dst, src, challenge)
  {
    f := StartFrame(true, false, true, dst, src);
    ok, f := SetCmd(f, CMD_CHALLENGE_REQ, challenge);
  }

  method CreateChallengeResponse(dst: NodeId, src: NodeId, challenge: Challenge, origin: IoFrame, key: Key)
    returns (ok: bool, f: IoFrame)
    requires origin.dataLen <= FRAME_MAX_DATA_SIZE
    ensures ok && f == ChallengeResponse(dst, src, challenge, origin, key)
  {
    f := StartFrame(false, false, true, dst, src);
    var hmac := new byte[Crypto.HMAC_SIZE];
    Crypto.CreateHmac(Transcript(origin), challenge, key, hmac);
    ok, f := SetCmd(f, CMD_CHALLENGE_RESP, hmac[..]);
  }

  method CreateSetConfig1(own: NodeId, dst: NodeId) returns (ok: bool, f: IoFrame)
    ensures ok && f == SetConfig1(own, dst)
  {
    f := StartFrame(true, false, true, dst, own);
    ok, f := SetCmd(f, CMD_SET_CONFIG1, SET_CONFIG1_STATUS_BROADCAST_PAYLOAD);
  }

  /** The discovery request with its payload: none for 0x28, an optional byte for 0x2E, and for 0x2A a
      nonce and a code over the command and the nonce, keyed with the nonce as the challenge. */
  function DiscoveryPayload(command: byte, payload: seq<byte>, nonce: Challenge, key: Key): (p: seq<byte>)
    requires |payload| <= 1
    ensures |p| <= 12
  {
    if command == CMD_DISCOVER_SPE_REQ then nonce + Crypto.Hmac([command] + nonce, nonce, key)
    else if command == CMD_DISCOVER_ALT_REQ then payload
    else []
  }

  function DiscoveryRequest(own: NodeId, command: byte, dst: NodeId, lowPower: bool, payload: seq<byte>,
                            nonce: Challenge, key: Key): IoFrame
    requires |payload| <= 1
  {
    WithCmd(Addressed(true, true, lowPower, dst, own), command, DiscoveryPayload(command, payload, nonce, key))
  }

  predicate IsDiscoveryCommand(command: byte) {
    command == CMD_DISCOVER_REQ || command == CMD_DISCOVER_SPE_REQ || command == CMD_DISCOVER_ALT_REQ
  }

  /** `payload` is the configured byte, or empty when it is disabled; the nonce is a parameter. */
  method CreateDiscoveryRequest(own: NodeId, command: byte, dst: NodeId, lowPower: bool, payload: seq<byte>,
                                nonce: Challenge, key: Key) returns (ok: bool, f: IoFrame)
    requires |payload| <= 1
    ensures ok <==> IsDiscoveryCommand(command)
    ensures ok ==> f == DiscoveryRequest(own, command, dst, lowPower, payload, nonce, key)
  {
    f := StartFrame(true, true, lowPower, dst, own);
    if command == CMD_DISCOVER_REQ {
      ok, f := SetCmd(f, CMD_DISCOVER_REQ, []);
    } else if command == CMD_DISCOVER_SPE_REQ {
      var hmac := new byte[Crypto.HMAC_SIZE];
      Crypto.CreateHmac([command] + nonce, nonce, key, hmac);
      ok, f := SetCmd(f, CMD_DISCOVER_SPE_REQ, nonce + hmac[..]);
    } else if command == CMD_DISCOVER_ALT_REQ {
      ok, f := SetCmd(f, CMD_DISCOVER_ALT_REQ, payload);
    } else {
      ok := false;
    }
  }

  /** Everything set_cmd completes serializes, and keeps the start flag it was given. */
  lemma BuiltSerializes(f: IoFrame, cmd: byte, params: seq<byte>)
    requires |params| <= FRAME_MAX_DATA_SIZE
    ensures var g := WithCmd(f, cmd, params);
            Serializable(g) && g.dataLen == |params| && (IsStart(g) <==> IsStart(f))
  {
    WithLengthReads(f.ctrl0, FRAME_MIN_SIZE + |params|);
  }

  // ---- On the air

  /** The bytes of a frame as the builders complete it: the addressee comes before the sender. */
  lemma WireOf(start: bool, end: bool, lowPower: bool, dst: NodeId, src: NodeId, cmd: byte, payload: seq<byte>)
    requires |payload| <= FRAME_MAX_DATA_SIZE
    ensures var f := WithCmd(Addressed(start, end, lowPower, dst, src), cmd, payload);
            && f.dataLen == |payload|
            && Wire(f) == [f.ctrl0, if lowPower then 0x20 else 0x00] + dst + src + [cmd] + payload
  {
    assert WithCmd(Addressed(start, end, lowPower, dst, src), cmd, payload).data[..|payload|] == payload;
  }

  lemma OnAir(own: NodeId, dst: NodeId, key: Key, challenge: Challenge, origin: IoFrame)
    requires origin.dataLen <= FRAME_MAX_DATA_SIZE
    ensures Wire(KeyInit(own, dst)) == [0x48, 0x20] + dst + own + [0x31]
    ensures Wire(KeyTransfer(origin, dst, own, key, challenge)) ==
            [0x18, 0x20] + dst + own + [0x32] + Crypto.Wrapped([origin.cmd], challenge, key)
    ensures Wire(ChallengeRequest(dst, own, challenge)) == [0x4E, 0x20] + dst + own + [0x3C] + challenge
    ensures Wire(ChallengeResponse(dst, own, challenge, origin, key)) ==
            [0x0E, 0x20] + dst + own + [0x3D]
            + Crypto.Hmac([origin.cmd] + origin.data[..origin.dataLen], challenge, key)
    ensures Wire(SetConfig1(own, dst)) == [0x4D, 0x20] + dst + own + [0x6F] + [0xE0, 0x10, 0x0A, 0x08, 0x00]
  {
    hide Crypto.Wrapped, Crypto.Hmac, Wire;
    WireOf(true, false, true, dst, own, CMD_KEY_INIT, []);
    assert [0x48, 0x20] + dst + own + [0x31] + [] == [0x48, 0x20] + dst + own + [0x31];
    WireOf(false, false, true, dst, own, CMD_KEY_TRANSFER, Crypto.Wrapped([origin.cmd], challenge, key));
    WireOf(true, false, true, dst, own, CMD_CHALLENGE_REQ, challenge);
    WireOf(false, false, true, dst, own, CMD_CHALLENGE_RESP, Crypto.Hmac(Transcript(origin), challenge, key));
    WireOf(true, false, true, dst, own, CMD_SET_CONFIG1, SET_CONFIG1_STATUS_BROADCAST_PAYLOAD);
  }

  // ---- What the authentication code covers

  /** Two requests are authenticated alike exactly when they have the same command and the same payload. */
  lemma TranscriptDetermines(f: IoFrame, g: IoFrame)
    requires f.dataLen <= FRAME_MAX_DATA_SIZE && g.dataLen <= FRAME_MAX_DATA_SIZE
    ensures Transcript(f) == Transcript(g) <==>
            f.cmd == g.cmd && f.dataLen == g.dataLen && f.data[..f.dataLen] == g.data[..g.dataLen]
  {
    if Transcript(f) == Transcript(g) {
      assert f.cmd == Transcript(f)[0] && f.data[..f.dataLen] == Transcript(f)[1..];
      assert g.cmd == Transcript(g)[0] && g.data[..g.dataLen] == Transcript(g)[1..];
    }
  }

  /** The vector behind the answer to a challenge: the command, up to seven bytes of the payload in order,
      padding where the payload is shorter, and at the end the challenge. */
  lemma VectorOfRequest(f: IoFrame, challenge: Challenge)
    requires f.dataLen <= FRAME_MAX_DATA_SIZE
    ensures var iv := Crypto.Iv(Transcript(f), challenge);
            && iv[0] == f.cmd
            && (forall i :: 0 <= i < 7 ==> iv[1 + i] == if i < f.dataLen then f.data[i] else 0x55)
            && iv[10..] == challenge
  {
    var t := Transcript(f);
    var iv := Crypto.Iv(t, challenge);
    forall i | 0 <= i < 7
      ensures iv[1 + i] == if i < f.dataLen then f.data[i] else 0x55
    {
      assert iv[1 + i] == Crypto.Head(t)[1 + i];
    }
  }

  /** A request with one payload byte changed, anywhere, has another block behind its code, */
  lemma ChangedByteChangesBlock(f: IoFrame, i: nat, b: byte, challenge: Challenge, key: Key)
    requires i < f.dataLen <= FRAME_MAX_DATA_SIZE && b != f.data[i]
    ensures var g := f.(data := f.data[i := b]);
            Aes.Encrypt(Crypto.Iv(Transcript(f), challenge), key)
            != Aes.Encrypt(Crypto.Iv(Transcript(g), challenge), key)
  {
    hide Crypto.Iv, Aes.Encrypt;
    var g := f.(data := f.data[i := b]);
    var pre, post := [f.cmd] + f.data[..i], f.data[i + 1..f.dataLen];
    assert Transcript(f) == pre + [f.data[i]] + post;
    assert Transcript(g) == pre + [b] + post;
    Crypto.OneByteChangesBlock(pre, f.data[i], b, post, challenge, key);
  }

  /** and so has a request with another command. */
  lemma ChangedCommandChangesBlock(f: IoFrame, cmd: byte, challenge: Challenge, key: Key)
    requires f.dataLen <= FRAME_MAX_DATA_SIZE && cmd != f.cmd
    ensures Aes.Encrypt(Crypto.Iv(Transcript(f), challenge), key)
            != Aes.Encrypt(Crypto.Iv(Transcript(f.(cmd := cmd)), challenge), key)
  {
    hide Crypto.Iv, Aes.Encrypt;
    var post := f.data[..f.dataLen];
    assert Transcript(f) == [] + [f.cmd] + post && Transcript(f.(cmd := cmd)) == [] + [cmd] + post;
    Crypto.OneByteChangesBlock([], f.cmd, cmd, post, challenge, key);
  }

  // ---- What the receiver makes of them

  /** The check a node makes on the answer to its challenge: any 0x3D whose first six payload bytes
      authenticate the request. */
  ghost predicate Authentic(packet: seq<byte>, origin: IoFrame, challenge: Challenge, key: Key)
    requires origin.dataLen <= FRAME_MAX_DATA_SIZE
  {
    && Parse(packet).Accepted?
    && Parse(packet).frame.cmd == CMD_CHALLENGE_RESP
    && Parse(packet).frame.data[..Crypto.HMAC_SIZE] == Crypto.Hmac(Transcript(origin), challenge, key)
  }

  /** A challenge response, once sent and parsed again, passes that check, and comes from `src`. */
  lemma ResponseIsAuthentic(dst: NodeId, src: NodeId, challenge: Challenge, origin: IoFrame, key: Key)
    requires origin.dataLen <= FRAME_MAX_DATA_SIZE
    ensures var f := ChallengeResponse(dst, src, challenge, origin, key);
            && Serializable(f) && Authentic(Wire(f), origin, challenge, key)
            && Parse(Wire(f)).frame.src == src && Parse(Wire(f)).frame.dst == dst
  {
    hide Crypto.Hmac, Parse, Wire, Serializable;
    var base := Addressed(false, false, true, dst, src);
    var mac := Crypto.Hmac(Transcript(origin), challenge, key);
    SetCmdSerializes(base, CMD_CHALLENGE_RESP, mac);
    assert Padded(WithCmd(base, CMD_CHALLENGE_RESP, mac)).cmd == CMD_CHALLENGE_RESP;
  }

  /** The device unwraps the transferred key with the command byte 0x31 and its own challenge. */
  lemma TransferredKeyUnwraps(own: NodeId, dst: NodeId, key: Key, challenge: Challenge)
    ensures var f := KeyTransfer(KeyInit(own, dst), dst, own, key, challenge);
            && Serializable(f) && Parse(Wire(f)).Accepted?
            && var g := Parse(Wire(f)).frame;
            && g.src == own && g.dst == dst && g.cmd == CMD_KEY_TRANSFER && g.dataLen == Aes.BLOCK
            && Crypto.Wrapped([CMD_KEY_INIT], challenge, g.data[..Aes.BLOCK]) == key
  {
    hide Crypto.Wrapped, Parse, Wire, Serializable;
    var base := Addressed(false, false, true, dst, own);
    var wrapped := Crypto.Wrapped([CMD_KEY_INIT], challenge, key);
    SetCmdSerializes(base, CMD_KEY_TRANSFER, wrapped);
    Crypto.UnwrapWrap([CMD_KEY_INIT], challenge, key);
  }
}
