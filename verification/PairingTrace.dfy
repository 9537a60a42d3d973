/** What a pairing run may put on the air: an observer of the whole trace, from the first discovery
    request to the final configuration, and what holds of every trace it accepts. */
module PairingTrace {
  import opened Bytes
  import opened Commands
  import opened Frame
  import opened Decisions
  import opened CommandFrames
  import opened Radio
  import opened ExchangeTrace
  import Crypto

  const PAIRING_DISCOVERY_MAX_ATTEMPTS: nat := 3
  const KEY_INIT_RETRIGGERS: nat := 2
  const BROADCAST_DISCOVER: NodeId := [0x00, 0x00, 0x3B]
  const BROADCAST_DISCOVER_ALT: NodeId := [0x00, 0x00, 0x3F]

  /** The pairing part of the tuning configuration. */
  datatype Tuning = Tuning(commands: seq<byte>, destination: NodeId, destinationAuto: bool, payload: byte,
                           payloadEnabled: bool, lowPower: bool, waitMs: nat, initialDwellMs: nat,
                           keyExchangeRetries: nat)

  /** resolve_discovery_destination. */
  function Destination(t: Tuning, command: byte): NodeId {
    if !t.destinationAuto then t.destination
    else if command == CMD_DISCOVER_ALT_REQ then BROADCAST_DISCOVER_ALT
    else BROADCAST_DISCOVER
  }

  function PayloadOf(t: Tuning): (p: seq<byte>)
    ensures |p| <= 1
  {
    if t.payloadEnabled then [t.payload] else []
  }

  /** The controller, its configuration, and the radio's manner of answering. */
  datatype Pairer = Pairer(node: NodeId, key: Key, tuning: Tuning, fast: bool, responsePreamble: nat)

  datatype Stage =
    /** `sends` requests made with the command at `index`. */
    | Searching(index: nat, sends: nat)
    /** Nothing may be sent any more. */
    | Halted
    /** A device is known; key attempt number `attempt` may begin. */
    | Ready(device: NodeId, attempt: nat)
    | AwaitChallenge(device: NodeId, attempt: nat)
    /** Sending the key on a radio that is slow to listen again. */
    | Transferring(device: NodeId, attempt: nat, challenge: Challenge, transfers: nat, retriggers: nat, refused: bool)
    /** Sending the key as an ordinary exchange. */
    | Exchanging(device: NodeId, attempt: nat, challenge: Challenge, exchange: Seen)
    | Confirmed(device: NodeId, attempt: nat)
    | Configuring(device: NodeId, attempt: nat, exchange: Seen)
    | Broken

  const SEARCH := Searching(0, 0)

  // ---- The packets

  ghost predicate IsDiscovery(p: Pairer, index: nat, data: seq<byte>) {
    && index < |p.tuning.commands| && IsDiscoveryCommand(p.tuning.commands[index])
    && exists nonce: Challenge :: data == Wire(DiscoveryFrame(p, p.tuning.commands[index], nonce))
  }

  lemma IsDiscoveryWire(p: Pairer, index: nat, nonce: Challenge)
    requires index < |p.tuning.commands| && IsDiscoveryCommand(p.tuning.commands[index])
    ensures IsDiscovery(p, index, Wire(DiscoveryFrame(p, p.tuning.commands[index], nonce)))
  {
    hide DiscoveryFrame, Wire;
  }

  /** A discovery request on the air: a frame that starts and ends, with the configured power flag, to the
      configured address or to the broadcast address of its command, from this node; 0x28 carries nothing, 0x2E
      the configured byte if there is one, and 0x2A a nonce and its code. */
  lemma DiscoveryOnAir(p: Pairer, index: nat, data: seq<byte>)
    requires IsDiscovery(p, index, data)
    ensures var t, command := p.tuning, p.tuning.commands[index];
            && |data| >= 9 && data[0] & 0xC0 == 0xC0 && data[1] == (if t.lowPower then 0x20 else 0x00)
            && data[2..5] == (if !t.destinationAuto then t.destination
                              else if command == 0x2E then [0x00, 0x00, 0x3F] else [0x00, 0x00, 0x3B])
            && data[5..8] == p.node && data[8] == command
            && (command == 0x28 ==> data[9..] == [])
            && (command == 0x2E ==> data[9..] == if t.payloadEnabled then [t.payload] else [])
            && (command == 0x2A ==> |data| == 21 && data[15..] == Crypto.Hmac([0x2A] + data[9..15], data[9..15], p.key))
  {
    hide Crypto.Hmac, Wire;
    var t, command := p.tuning, p.tuning.commands[index];
    var nonce: Challenge :| data == Wire(DiscoveryFrame(p, command, nonce));
    var payload := DiscoveryPayload(command, PayloadOf(t), nonce, p.key);
    var dst := Destination(t, command);
    WireOf(true, true, t.lowPower, dst, p.node, command, payload);
    DiscoveryFlags(p, command, nonce);
    WireParts(data, DiscoveryFrame(p, command, nonce).ctrl0, if t.lowPower then 0x20 else 0x00, dst, p.node, command,
              payload);
    if command == 0x2A {
      NonceParts(data, nonce, Crypto.Hmac([command] + nonce, nonce, p.key));
    }
  }

  lemma WireParts(w: seq<byte>, ctrl0: byte, ctrl1: byte, dst: NodeId, src: NodeId, cmd: byte, payload: seq<byte>)
    requires w == [ctrl0, ctrl1] + dst + src + [cmd] + payload
    ensures |w| == 9 + |payload| && w[0] == ctrl0 && w[1] == ctrl1 && w[8] == cmd
    ensures w[2..5] == dst && w[5..8] == src && w[9..] == payload
  {
  }

  lemma NonceParts(w: seq<byte>, nonce: Challenge, mac: seq<byte>)
    requires |w| >= 9 && w[9..] == nonce + mac
    ensures |w| == 15 + |mac| && w[9..15] == nonce && w[15..] == mac
  {
    assert w[9..15] == w[9..][..6] && w[15..] == w[9..][6..];
  }

  lemma DiscoveryFlags(p: Pairer, command: byte, nonce: Challenge)
    ensures DiscoveryFrame(p, command, nonce).ctrl0 & 0xC0 == 0xC0
  {
    var f := Addressed(true, true, p.tuning.lowPower, Destination(p.tuning, command), p.node);
    WithLengthReads(f.ctrl0, FRAME_MIN_SIZE + |DiscoveryPayload(command, PayloadOf(p.tuning), nonce, p.key)|);
  }

  function DiscoveryFrame(p: Pairer, command: byte, nonce: Challenge): (f: IoFrame)
    ensures f.dataLen <= FRAME_MAX_DATA_SIZE
  {
    DiscoveryRequest(p.node, command, Destination(p.tuning, command), p.tuning.lowPower, PayloadOf(p.tuning), nonce,
                     p.key)
  }

  function KeyInitFrame(p: Pairer, device: NodeId): (f: IoFrame)
    ensures f.dataLen <= FRAME_MAX_DATA_SIZE && f.cmd == CMD_KEY_INIT
  {
    KeyInit(p.node, device)
  }

  /** The system key, wrapped under the device's challenge and the command byte of the key-init. */
  function TransferFrame(p: Pairer, device: NodeId, challenge: Challenge): (f: IoFrame)
    ensures f.dataLen <= FRAME_MAX_DATA_SIZE && f.cmd == CMD_KEY_TRANSFER && f.dst == device && f.src == p.node
  {
    KeyTransfer(KeyInit(p.node, device), device, p.node, p.key, challenge)
  }

  function TransferSession(p: Pairer, device: NodeId, challenge: Challenge): Session {
    Session(TransferFrame(p, device, challenge), p.node, p.key, FREQ_CH2, p.responsePreamble, p.responsePreamble)
  }

  function ConfigSession(p: Pairer, device: NodeId): Session {
    Session(SetConfig1(p.node, device), p.node, p.key, FREQ_CH2, LONG_PREAMBLE, p.responsePreamble)
  }

  // ---- The observer

  /** A key-init that opens an attempt. */
  function Begin(p: Pairer, device: NodeId, attempt: nat, e: Event): Stage
    requires e.Tx?
  {
    if attempt < p.tuning.keyExchangeRetries && IsInit(p, device, e) then
      if e.ok then AwaitChallenge(device, attempt) else Ready(device, attempt + 1)
    else Broken
  }

  predicate IsInit(p: Pairer, device: NodeId, e: Event)
    requires e.Tx?
  {
    e.sent == Wire(KeyInitFrame(p, device)) && e.freq == FREQ_CH2 && e.preamble == LONG_PREAMBLE
  }

  predicate IsTransfer(p: Pairer, device: NodeId, challenge: Challenge, e: Event)
    requires e.Tx?
  {
    e.sent == Wire(TransferFrame(p, device, challenge)) && e.freq == FREQ_CH2 && e.preamble == p.responsePreamble
  }

  function Configure(p: Pairer, device: NodeId, attempt: nat, x: Seen, e: Event): Stage {
    var x' := Next(ConfigSession(p, device), x, e);
    if x'.stage == Violated then Broken else Configuring(device, attempt, x')
  }

  /** An exchange of the key either takes the event as its own or is over. */
  function Continue(p: Pairer, st: Stage, e: Event): Stage
    requires st.Exchanging?
  {
    var x' := Next(TransferSession(p, st.device, st.challenge), st.exchange, e);
    if x'.stage != Violated then Exchanging(st.device, st.attempt, st.challenge, x')
    else if e.Rx? then Broken
    else if st.exchange.stage.Finished? && st.exchange.stage.frame.cmd == CMD_KEY_CONFIRM then
      Configure(p, st.device, st.attempt, NOTHING, e)
    else if st.exchange.stage.Finished? || st.exchange.requests == EXCHANGE_RETRY_COUNT then
      Begin(p, st.device, st.attempt + 1, e)
    else Broken
  }

  function SendTransfer(p: Pairer, st: Stage, e: Event): Stage
    requires st.Transferring? && e.Tx?
  {
    if st.retriggers == 0 && st.transfers < EXCHANGE_RETRY_COUNT && !st.refused
      && IsTransfer(p, st.device, st.challenge, e)
      then st.(transfers := st.transfers + 1)
    else if !st.refused && st.transfers < EXCHANGE_RETRY_COUNT then Broken
    else if st.retriggers < KEY_INIT_RETRIGGERS && IsInit(p, st.device, e) then st.(retriggers := st.retriggers + 1)
    else if st.retriggers == KEY_INIT_RETRIGGERS then Begin(p, st.device, st.attempt + 1, e)
    else Broken
  }

  ghost function Search(p: Pairer, st: Stage, e: Event): Stage
    requires st.Searching? && e.Tx?
  {
    if e.freq != FREQ_CH2 || e.preamble != LONG_PREAMBLE then Broken
    else if st.sends < PAIRING_DISCOVERY_MAX_ATTEMPTS && IsDiscovery(p, st.index, e.sent) then
      if e.ok then Searching(st.index, st.sends + 1) else Halted
    else if st.sends == PAIRING_DISCOVERY_MAX_ATTEMPTS && IsDiscovery(p, st.index + 1, e.sent) then
      if e.ok then Searching(st.index + 1, 1) else Halted
    else Broken
  }

  ghost function Send(p: Pairer, st: Stage, e: Event): Stage
    requires e.Tx?
  {
    match st
    case Searching(_, _) => Search(p, st, e)
    case Ready(device, attempt) => Begin(p, device, attempt, e)
    case AwaitChallenge(device, attempt) => Begin(p, device, attempt + 1, e)
    case Transferring(_, _, _, _, _, _) => SendTransfer(p, st, e)
    case Exchanging(_, _, _, _) => Continue(p, st, e)
    case Confirmed(device, attempt) => Configure(p, device, attempt, NOTHING, e)
    case Configuring(device, attempt, x) => Configure(p, device, attempt, x, e)
    case _ => Broken
  }

  /** An alternate response ends the run; a standard one names the device. */
  function Discovered(f: IoFrame): Stage {
    if f.cmd == CMD_DISCOVER_ALT_RESP then Halted else Ready(f.src, 0)
  }

  function HearFrame(p: Pairer, st: Stage, f: IoFrame): Stage
    requires st.Searching? || st.AwaitChallenge? || st.Transferring?
  {
    match st
    case Searching(_, _) =>
      if IsDiscoveryResponse(f) then Discovered(f) else st
    case AwaitChallenge(device, attempt) =>
      if IsKeyConfirm(f, device, p.node) then Confirmed(device, attempt)
      else if !IsKeyChallenge(f, device, p.node) then st
      else if p.fast then Exchanging(device, attempt, f.data[..6], NOTHING)
      else Transferring(device, attempt, f.data[..6], 0, 0, false)
    case Transferring(device, attempt, challenge, transfers, retriggers, refused) =>
      if IsKeyConfirm(f, device, p.node) then Confirmed(device, attempt)
      else if retriggers == 0 && MatchesNodes(f, device, p.node) then st.(refused := true)
      else st
  }

  ghost function Step(p: Pairer, st: Stage, e: Event): Stage {
    match e
    case Tx(_, _, _, _) => Send(p, st, e)
    case Rx(packet) =>
      match st
      case Exchanging(_, _, _, _) => Continue(p, st, e)
      case Configuring(device, attempt, x) => Configure(p, device, attempt, x, e)
      case Searching(_, sends) =>
        if sends == 0 then Broken else if Parse(packet).Accepted? then HearFrame(p, st, Parse(packet).frame) else st
      case AwaitChallenge(_, _) => if Parse(packet).Accepted? then HearFrame(p, st, Parse(packet).frame) else st
      case Transferring(_, _, _, _, _, _) =>
        if Parse(packet).Accepted? then HearFrame(p, st, Parse(packet).frame) else st
      case _ => Broken
  }

  ghost function Watch(p: Pairer, trace: seq<Event>): Stage {
    if trace == [] then SEARCH else Step(p, Watch(p, trace[..|trace| - 1]), trace[|trace| - 1])
  }

  /** The trace from index `base` of a log, after one more event. */
  lemma WatchNext(p: Pairer, log: seq<Event>, base: nat, e: Event)
    requires base <= |log|
    ensures Watch(p, (log + [e])[base..]) == Step(p, Watch(p, log[base..]), e)
  {
    var t := (log + [e])[base..];
    assert t[..|t| - 1] == log[base..] && t[|t| - 1] == e;
  }

  /** A packet heard while the observer listens: one that does not parse changes nothing. */
  lemma WatchHeard(p: Pairer, log: seq<Event>, base: nat, packet: seq<byte>)
    requires base <= |log|
    requires var st := Watch(p, log[base..]); (st.Searching? && st.sends > 0) || st.AwaitChallenge? || st.Transferring?
    ensures var st := Watch(p, log[base..]);
            Watch(p, (log + [Rx(packet)])[base..]) ==
            if Parse(packet).Accepted? then HearFrame(p, st, Parse(packet).frame) else st
  {
    WatchNext(p, log, base, Rx(packet));
  }

  // ---- Handing over between the phases

  /** The next key-init opens key attempt number `attempt`. */
  ghost predicate MayBegin(st: Stage, device: NodeId, attempt: nat) {
    match st
    case Ready(d, a) => d == device && a == attempt
    case AwaitChallenge(d, a) => d == device && a + 1 == attempt
    case Transferring(d, a, _, transfers, retriggers, refused) =>
      && d == device && a + 1 == attempt && retriggers == KEY_INIT_RETRIGGERS
      && (refused || transfers == EXCHANGE_RETRY_COUNT)
    case Exchanging(d, a, _, x) =>
      && d == device && a + 1 == attempt
      && (if x.stage.Finished? then x.stage.frame.cmd != CMD_KEY_CONFIRM
          else Listening(x) && x.requests == EXCHANGE_RETRY_COUNT)
    case _ => false
  }

  lemma SendsTransfer(p: Pairer, st: Stage, e: Event)
    requires st.Transferring? && st.transfers < EXCHANGE_RETRY_COUNT && st.retriggers == 0 && !st.refused
    requires e.Tx? && IsTransfer(p, st.device, st.challenge, e)
    ensures Step(p, st, e) == st.(transfers := st.transfers + 1)
  {
    hide IsTransfer, IsInit;
  }

  lemma BeginsAttempt(p: Pairer, st: Stage, device: NodeId, attempt: nat, e: Event)
    requires MayBegin(st, device, attempt) && e.Tx?
    requires st.AwaitChallenge? || st.Ready? || st.Exchanging? || st.Transferring?
    ensures Step(p, st, e) == Begin(p, device, attempt, e)
  {
    hide Begin, IsTransfer, IsInit, Wire, TransferSession;
  }

  /** The key is confirmed: the configuration may be sent. */
  ghost predicate KeyConfirmed(st: Stage, device: NodeId) {
    match st
    case Confirmed(d, _) => d == device
    case Exchanging(d, _, _, x) => d == device && x.stage.Finished? && x.stage.frame.cmd == CMD_KEY_CONFIRM
    case _ => false
  }

  /** What the observer of the key exchange sees is what the observer of the pairing sees. */
  lemma {:induction false} WatchExchange(p: Pairer, log: seq<Event>, base: nat, mid: nat, device: NodeId, attempt: nat,
                                         challenge: Challenge)
    requires base <= mid <= |log|
    requires Watch(p, log[base..mid]) == Exchanging(device, attempt, challenge, NOTHING)
    requires Orderly(TransferSession(p, device, challenge), log[mid..])
    ensures Watch(p, log[base..]) ==
            Exchanging(device, attempt, challenge, Observe(TransferSession(p, device, challenge), log[mid..]))
    decreases |log|
  {
    hide TransferSession, Next, Watch, Observe, IsStart, KeyConfirmed, MayBegin, HearFrame;
    var s := TransferSession(p, device, challenge);
    if mid == |log| {
      assert log[base..] == log[base..mid] && log[mid..] == [];
      ObserveNothing(s);
    } else {
      var n := |log| - 1;
      OrderlyPrefix(s, log[mid..], n - mid);
      assert log[mid..][..n - mid] == log[..n][mid..];
      assert log[..n][base..mid] == log[base..mid];
      WatchExchange(p, log[..n], base, mid, device, attempt, challenge);
      assert log == log[..n] + [log[n]];
      WatchNext(p, log[..n], base, log[n]);
      ObserveNext(s, log[..n], mid, log[n]);
    }
  }

  lemma ConfigurationBegins(p: Pairer, st: Stage, device: NodeId, e: Event)
    requires KeyConfirmed(st, device) && Next(ConfigSession(p, device), NOTHING, e).stage != Violated
    ensures var st' := Step(p, st, e);
            st'.Configuring? && st'.device == device && st'.exchange == Next(ConfigSession(p, device), NOTHING, e)
  {
    hide ConfigSession, TransferSession, Hear, RequestWire, ResponseWire;
  }

  lemma {:induction false} WatchConfiguration(p: Pairer, log: seq<Event>, base: nat, mid: nat, device: NodeId)
    requires base <= mid < |log|
    requires KeyConfirmed(Watch(p, log[base..mid]), device)
    requires Orderly(ConfigSession(p, device), log[mid..])
    ensures var st := Watch(p, log[base..]);
            st.Configuring? && st.device == device && st.exchange == Observe(ConfigSession(p, device), log[mid..])
    decreases |log|
  {
    hide ConfigSession, Next, KeyConfirmed, Watch, Observe;
    var s := ConfigSession(p, device);
    ObserveNothing(s);
    var n := |log| - 1;
    OrderlyPrefix(s, log[mid..], n - mid);
    assert log[mid..][..n - mid] == log[..n][mid..];
    assert log[..n][base..mid] == log[base..mid];
    assert log == log[..n] + [log[n]];
    WatchNext(p, log[..n], base, log[n]);
    ObserveNext(s, log[..n], mid, log[n]);
    if mid == n {
      assert log[..n][base..] == log[base..mid];
      assert log[..n][mid..] == [];
      ConfigurationBegins(p, Watch(p, log[base..mid]), device, log[n]);
    } else {
      WatchConfiguration(p, log[..n], base, mid, device);
    }
  }
}
