/** Where an accepted pairing run has come from: which discovery response found the device, which
    key-init opened the attempt, which challenge the key is wrapped under, and which confirmation ended
    it.  Every position is an index of the trace, so the order is part of each result. */
module PairingOrigins {
  import opened Bytes
  import opened Commands
  import opened Frame
  import opened Decisions
  import opened CommandFrames
  import opened Radio
  import opened PairingTrace
  import opened PairingRuns
  import X = ExchangeTrace
  import Aes
  import Crypto

  // ---- The packets of a run

  /** The frame a packet parses to satisfies what a key challenge must. */
  ghost predicate IsChallenge(p: Pairer, e: Event, device: NodeId) {
    && e.Rx? && Parse(e.heard).Accepted?
    && var f := Parse(e.heard).frame;
    f.cmd == 0x3C && f.dataLen == 6 && f.src == device && f.dst == p.node
  }

  ghost predicate IsConfirm(p: Pairer, e: Event, device: NodeId) {
    && e.Rx? && Parse(e.heard).Accepted?
    && var f := Parse(e.heard).frame;
    f.cmd == 0x33 && f.src == device && f.dst == p.node
  }

  /** The packet at `j` is the device's six-byte challenge to this controller. */
  ghost predicate ChallengeAt(p: Pairer, trace: seq<Event>, j: nat, device: NodeId, challenge: Challenge) {
    && j < |trace| && IsChallenge(p, trace[j], device)
    && Parse(trace[j].heard).frame.data[..6] == challenge
  }

  predicate SendsInit(e: Event) {
    e.Tx? && Command(e.sent) == CMD_KEY_INIT
  }

  predicate SendsTransfer(e: Event) {
    e.Tx? && Command(e.sent) == CMD_KEY_TRANSFER
  }

  // ---- The discovery response

  predicate HasDevice(st: Stage) {
    !st.Searching? && !st.Halted? && !st.Broken?
  }

  /** The packet at `d` is the discovery response that ended the search. */
  ghost predicate EndsSearch(p: Pairer, trace: seq<Event>, d: nat, f: IoFrame) {
    && d < |trace| && trace[d].Rx? && Parse(trace[d].heard) == Accepted(f) && IsDiscoveryResponse(f)
    && Watch(p, trace[..d]).Searching?
  }

  lemma EndsSearchGrows(p: Pairer, trace: seq<Event>, n: nat, d: nat, f: IoFrame)
    requires n <= |trace| && EndsSearch(p, trace[..n], d, f)
    ensures EndsSearch(p, trace, d, f)
  {
    hide Watch, Parse;
    assert trace[..n][..d] == trace[..d];
  }

  /** A device is found by a standard response heard while searching, and stays the device. */
  lemma DeviceStep(p: Pairer, st: Stage, e: Event)
    requires HasDevice(Step(p, st, e))
    ensures if HasDevice(st) then Step(p, st, e).device == st.device
            else
              && st.Searching? && e.Rx? && Parse(e.heard).Accepted?
              && var f := Parse(e.heard).frame;
              && IsDiscoveryResponse(f) && f.cmd != CMD_DISCOVER_ALT_RESP && f.src == Step(p, st, e).device
  {
    hide Command, IsInit, IsTransfer, X.Next, Parse, IsKeyConfirm, IsKeyChallenge, TransferSession, ConfigSession,
         IsDiscovery, MatchesNodes;
  }

  /** The device a run deals with was found by the standard response that ended its search. */
  lemma {:induction false} DeviceOrigin(p: Pairer, trace: seq<Event>) returns (d: nat, f: IoFrame)
    requires HasDevice(Watch(p, trace))
    ensures EndsSearch(p, trace, d, f) && f.cmd == CMD_DISCOVER_RESP && f.src == Watch(p, trace).device
    decreases |trace|
  {
    hide Step, Parse;
    var n := |trace| - 1;
    var before := Watch(p, trace[..n]);
    DeviceStep(p, before, trace[n]);
    if HasDevice(before) {
      d, f := DeviceOrigin(p, trace[..n]);
      EndsSearchGrows(p, trace, n, d, f);
    } else {
      d, f := n, Parse(trace[n].heard).frame;
    }
  }

  lemma EndsSearchStep(p: Pairer, st: Stage, e: Event)
    requires st.Searching? && e.Rx? && Parse(e.heard).Accepted? && IsDiscoveryResponse(Parse(e.heard).frame)
    ensures !Step(p, st, e).Searching?
  {
  }

  /** A run has one such response. */
  lemma SearchEndsOnce(p: Pairer, trace: seq<Event>, d1: nat, f1: IoFrame, d2: nat, f2: IoFrame)
    requires EndsSearch(p, trace, d1, f1) && EndsSearch(p, trace, d2, f2)
    ensures d1 == d2 && f1 == f2
  {
    hide Step, Parse, IsDiscoveryResponse;
    if d1 < d2 {
      NotBefore(p, trace, d1, f1, d2);
    } else if d2 < d1 {
      NotBefore(p, trace, d2, f2, d1);
    }
  }

  /** After the response the search is over. */
  lemma NotBefore(p: Pairer, trace: seq<Event>, d: nat, f: IoFrame, n: nat)
    requires EndsSearch(p, trace, d, f) && d < n <= |trace|
    ensures !Watch(p, trace[..n]).Searching?
  {
    hide Step, Parse, IsDiscoveryResponse;
    assert trace[..d + 1][..d] == trace[..d];
    EndsSearchStep(p, Watch(p, trace[..d]), trace[d]);
    assert trace[..n][..d + 1] == trace[..d + 1];
    SearchIsOver(p, trace[..n], d + 1);
  }

  // ---- The key-init

  /** A key-init was sent to the device and its answer is awaited or used. */
  predicate KeyStage(st: Stage) {
    st.AwaitChallenge? || st.Transferring? || st.Exchanging?
  }

  /** The send at `k` is the last key-init of the run and goes to the device. */
  ghost predicate LastInit(p: Pairer, trace: seq<Event>, k: nat, device: NodeId) {
    && k < |trace| && trace[k].Tx? && IsInit(p, device, trace[k])
    && forall m :: k < m < |trace| ==> !SendsInit(trace[m])
  }

  lemma InitStep(p: Pairer, st: Stage, e: Event)
    requires KeyStage(Step(p, st, e))
    ensures || (e.Tx? && IsInit(p, Step(p, st, e).device, e))
            || (KeyStage(st) && Step(p, st, e).device == st.device && !SendsInit(e))
  {
    hide Command, IsInit, X.Next, TransferSession, ConfigSession, IsDiscovery, IsKeyConfirm, IsKeyChallenge, Parse,
         MatchesNodes, IsTransfer;
    if st.Exchanging? && e.Tx? {
      var s := TransferSession(p, st.device, st.challenge);
      SessionCommands(p, st.device, st.challenge);
      if X.Next(s, st.exchange, e).stage != X.Violated {
        ExchangeCarries(s, st.exchange, e);
      }
    }
    if st.Transferring? && e.Tx? && IsTransfer(p, st.device, st.challenge, e) {
      TransferCarries(p, st.device, st.challenge, e);
    }
  }

  lemma {:induction false} InitOrigin(p: Pairer, trace: seq<Event>) returns (k: nat)
    requires KeyStage(Watch(p, trace))
    ensures LastInit(p, trace, k, Watch(p, trace).device)
    decreases |trace|
  {
    hide Step, IsInit, Command;
    var n := |trace| - 1;
    var before := Watch(p, trace[..n]);
    InitStep(p, before, trace[n]);
    if trace[n].Tx? && IsInit(p, Watch(p, trace).device, trace[n]) {
      k := n;
    } else {
      k := InitOrigin(p, trace[..n]);
    }
  }

  /** A key-init goes out only after the response that ended the search. */
  lemma InitAfterSearch(p: Pairer, trace: seq<Event>, k: nat, device: NodeId, d: nat, f: IoFrame)
    requires Orderly(p, trace) && k < |trace| && trace[k].Tx? && IsInit(p, device, trace[k])
    requires EndsSearch(p, trace, d, f)
    ensures d < k
  {
    hide Step, Command, Parse, IsInit, IsDiscoveryResponse;
    OrderlyPrefix(p, trace, k + 1);
    assert trace[..k + 1][..k] == trace[..k];
    InitCarries(p, device, trace[k]);
    SendCarries(p, Watch(p, trace[..k]), trace[k]);
    if k < d {
      assert trace[..d][..k] == trace[..k];
      SearchIsOver(p, trace[..d], k);
    }
  }

  // ---- The challenge

  /** From `from` up to `to` the device sent neither a challenge nor a confirmation. */
  ghost predicate Unanswered(p: Pairer, trace: seq<Event>, from: nat, to: nat, device: NodeId)
    requires to <= |trace|
  {
    forall m :: from <= m < to ==> !IsChallenge(p, trace[m], device) && !IsConfirm(p, trace[m], device)
  }

  lemma AwaitStep(p: Pairer, st: Stage, e: Event)
    requires Step(p, st, e).AwaitChallenge?
    ensures || (e.Tx? && IsInit(p, Step(p, st, e).device, e))
            || (e.Rx? && st.AwaitChallenge? && Step(p, st, e).device == st.device
                && !IsChallenge(p, e, st.device) && !IsConfirm(p, e, st.device))
  {
    hide Command, IsInit, X.Next, TransferSession, ConfigSession, IsDiscovery, Parse, IsTransfer;
  }

  /** While the challenge is awaited, the device has not answered the last key-init. */
  lemma {:induction false} AwaitUnanswered(p: Pairer, trace: seq<Event>, k: nat)
    requires Watch(p, trace).AwaitChallenge? && LastInit(p, trace, k, Watch(p, trace).device)
    ensures Unanswered(p, trace, k + 1, |trace|, Watch(p, trace).device)
    decreases |trace|
  {
    hide Step, IsInit, Command, IsChallenge, IsConfirm;
    var n := |trace| - 1;
    var device := Watch(p, trace).device;
    AwaitStep(p, Watch(p, trace[..n]), trace[n]);
    if trace[n].Tx? {
      InitCarries(p, device, trace[n]);
    } else {
      AwaitUnanswered(p, trace[..n], k);
    }
  }

  /** The key is being sent. */
  ghost predicate Wrapping(st: Stage) {
    st.Exchanging? || (st.Transferring? && st.retriggers == 0)
  }

  /** The key is sent under the first challenge after the last key-init; on a slow radio that has not been
      answered otherwise, under the only one. */
  ghost predicate Origin(p: Pairer, trace: seq<Event>, k: nat, j: nat, st: Stage)
    requires st.Exchanging? || st.Transferring?
  {
    && LastInit(p, trace, k, st.device) && k < j && ChallengeAt(p, trace, j, st.device, st.challenge)
    && Unanswered(p, trace, k + 1, j, st.device)
    && (st.Transferring? && !st.refused ==> Unanswered(p, trace, j + 1, |trace|, st.device))
  }

  lemma WrapStep(p: Pairer, st: Stage, e: Event)
    requires Wrapping(Step(p, st, e))
    ensures var st' := Step(p, st, e);
            if Wrapping(st) then
              && st'.device == st.device && st'.challenge == st.challenge && st'.Exchanging? == st.Exchanging?
              && !SendsInit(e)
              && (st'.Transferring? && !st'.refused ==>
                    !st.refused && !IsChallenge(p, e, st.device) && !IsConfirm(p, e, st.device))
            else
              && st.AwaitChallenge? && st'.device == st.device && IsChallenge(p, e, st.device)
              && Parse(e.heard).frame.data[..6] == st'.challenge
              && st'.Exchanging? == p.fast
  {
    hide Command, IsInit, X.Next, TransferSession, ConfigSession, IsDiscovery, Parse, IsTransfer;
    if st.Exchanging? && e.Tx? {
      var s := TransferSession(p, st.device, st.challenge);
      SessionCommands(p, st.device, st.challenge);
      if X.Next(s, st.exchange, e).stage != X.Violated {
        ExchangeCarries(s, st.exchange, e);
      }
    }
    if st.Transferring? && e.Tx? && IsTransfer(p, st.device, st.challenge, e) {
      TransferCarries(p, st.device, st.challenge, e);
    }
  }

  lemma {:induction false} ChallengeOrigin(p: Pairer, trace: seq<Event>) returns (k: nat, j: nat)
    requires Wrapping(Watch(p, trace))
    ensures Origin(p, trace, k, j, Watch(p, trace))
    ensures Watch(p, trace).Exchanging? == p.fast
    decreases |trace|
  {
    hide Step, IsInit, Command, IsChallenge, IsConfirm, Parse;
    var n := |trace| - 1;
    var before := Watch(p, trace[..n]);
    WrapStep(p, before, trace[n]);
    if Wrapping(before) {
      k, j := ChallengeOrigin(p, trace[..n]);
      OriginGrows(p, trace, k, j, before, Watch(p, trace));
    } else {
      k := InitOrigin(p, trace[..n]);
      AwaitUnanswered(p, trace[..n], k);
      j := n;
      OriginBegins(p, trace, k, before, Watch(p, trace));
    }
  }

  lemma OriginBegins(p: Pairer, trace: seq<Event>, k: nat, st: Stage, st': Stage)
    requires trace != [] && st.AwaitChallenge? && (st'.Exchanging? || st'.Transferring?) && st'.device == st.device
    requires var n := |trace| - 1;
             && LastInit(p, trace[..n], k, st.device) && Unanswered(p, trace[..n], k + 1, n, st.device)
             && ChallengeAt(p, trace, n, st.device, st'.challenge)
    ensures Origin(p, trace, k, |trace| - 1, st')
  {
    hide IsInit, Command, IsConfirm, Parse;
  }

  lemma OriginGrows(p: Pairer, trace: seq<Event>, k: nat, j: nat, st: Stage, st': Stage)
    requires trace != [] && (st.Exchanging? || st.Transferring?) && (st'.Exchanging? || st'.Transferring?)
    requires st'.device == st.device && st'.challenge == st.challenge && st'.Exchanging? == st.Exchanging?
    requires Origin(p, trace[..|trace| - 1], k, j, st) && !SendsInit(trace[|trace| - 1])
    requires var e := trace[|trace| - 1];
             st'.Transferring? && !st'.refused ==>
               !st.refused && !IsChallenge(p, e, st.device) && !IsConfirm(p, e, st.device)
    ensures Origin(p, trace, k, j, st')
  {
    hide IsInit, Command, IsChallenge, IsConfirm, Parse;
    var n := |trace| - 1;
    assert forall m :: 0 <= m < n ==> trace[..n][m] == trace[m];
  }

  // ---- What a key transfer wraps

  /** A send and everything it rests on: the response `f` at `d` found the device, the key-init at `k` is
      the last one before the send, and the challenge at `j` is the first packet with which the device
      answered it. */
  ghost predicate Rests(p: Pairer, trace: seq<Event>, i: nat, d: nat, f: IoFrame, k: nat, j: nat,
                        challenge: Challenge) {
    && d < k < j < i < |trace|
    && EndsSearch(p, trace, d, f) && f.cmd == CMD_DISCOVER_RESP
    && trace[k].Tx? && IsInit(p, f.src, trace[k])
    && (forall m :: k < m < i ==> !SendsInit(trace[m]))
    && Unanswered(p, trace, k + 1, j, f.src)
    && ChallengeAt(p, trace, j, f.src, challenge)
  }

  /** Every key transfer goes to the device whose response ended the search and wraps the system key under
      the challenge with which that device first answered the last key-init.  Unwrapped with the command
      byte of the key-init and that challenge it is exactly the system key.  On a radio that is slow to
      listen again no other challenge of the device has been heard since. */
  lemma TransferWrapsKey(p: Pairer, trace: seq<Event>, i: nat)
    returns (d: nat, f: IoFrame, k: nat, j: nat, challenge: Challenge)
    requires Orderly(p, trace) && i < |trace| && SendsTransfer(trace[i])
    ensures Rests(p, trace, i, d, f, k, j, challenge)
    ensures trace[i].sent == Wire(TransferFrame(p, f.src, challenge))
    ensures Parse(trace[i].sent).Accepted?
            && Crypto.Wrapped([CMD_KEY_INIT], challenge, Parse(trace[i].sent).frame.data[..Aes.BLOCK]) == p.key
    ensures !p.fast ==> Unanswered(p, trace, j + 1, i, f.src)
  {
    hide Step, IsChallenge, IsConfirm, Command, IsInit, Crypto.Wrapped, Parse, Wire, TransferFrame, IsDiscoveryResponse;
    OrderlyPrefix(p, trace, i + 1);
    assert trace[..i + 1][..i] == trace[..i];
    var st := Watch(p, trace[..i]);
    TransferStage(p, st, trace[i]);
    challenge := st.challenge;
    d, f := DeviceOrigin(p, trace[..i]);
    k, j := ChallengeOrigin(p, trace[..i]);
    InitAfterSearch(p, trace[..i], k, st.device, d, f);
    EndsSearchGrows(p, trace, i, d, f);
    OriginIn(p, trace, i, k, j, st);
    TransferFrameUnwraps(p, st.device, challenge);
  }

  lemma OriginIn(p: Pairer, trace: seq<Event>, i: nat, k: nat, j: nat, st: Stage)
    requires i <= |trace| && (st.Exchanging? || st.Transferring?) && Origin(p, trace[..i], k, j, st)
    ensures k < j < i && trace[k].Tx? && IsInit(p, st.device, trace[k])
    ensures forall m :: k < m < i ==> !SendsInit(trace[m])
    ensures Unanswered(p, trace, k + 1, j, st.device) && ChallengeAt(p, trace, j, st.device, st.challenge)
    ensures st.Transferring? && !st.refused ==> Unanswered(p, trace, j + 1, i, st.device)
  {
    hide IsInit, Command, IsChallenge, IsConfirm, Parse;
    assert forall m :: 0 <= m < i ==> trace[..i][m] == trace[m];
  }

  lemma TransferFrameUnwraps(p: Pairer, device: NodeId, challenge: Challenge)
    ensures var w := Wire(TransferFrame(p, device, challenge));
            Parse(w).Accepted?
            && Crypto.Wrapped([CMD_KEY_INIT], challenge, Parse(w).frame.data[..Aes.BLOCK]) == p.key
  {
    hide Crypto.Wrapped, Parse, Wire;
    TransferredKeyUnwraps(p.node, device, p.key, challenge);
  }

  /** A key transfer in order is made while the key is being sent, and is the one for the challenge. */
  lemma TransferStage(p: Pairer, st: Stage, e: Event)
    requires e.Tx? && !Step(p, st, e).Broken? && Command(e.sent) == CMD_KEY_TRANSFER
    ensures Wrapping(st) && (st.Transferring? ==> !st.refused)
    ensures e.sent == Wire(TransferFrame(p, st.device, st.challenge))
  {
    hide Command, X.ResponseWire, ConfigSession, IsDiscovery, Wire, TransferFrame, KeyInitFrame;
    match st
    case Searching(_, _) => SearchCarries(p, st, e);
    case Ready(device, _) => InitCarries(p, device, e);
    case AwaitChallenge(device, _) => InitCarries(p, device, e);
    case Transferring(_, _, _, _, _, _) =>
      if !IsTransfer(p, st.device, st.challenge, e) || !Wrapping(st) || st.refused {
        InitCarries(p, st.device, e);
      }
    case Exchanging(_, _, _, _) => ExchangedTransfer(p, st, e);
    case Confirmed(device, attempt) => ConfigureCarries(p, device, attempt, X.NOTHING, e);
    case Configuring(device, attempt, x) => ConfigureCarries(p, device, attempt, x, e);
    case _ => NothingFollows(p, st, e);
  }

  lemma ExchangedTransfer(p: Pairer, st: Stage, e: Event)
    requires st.Exchanging? && e.Tx? && !Step(p, st, e).Broken? && Command(e.sent) == CMD_KEY_TRANSFER
    ensures e.sent == Wire(TransferFrame(p, st.device, st.challenge))
  {
    hide Command, ConfigSession, Wire, TransferFrame, KeyInitFrame, IsInit, Configure;
    var s := TransferSession(p, st.device, st.challenge);
    SessionCommands(p, st.device, st.challenge);
    if X.Next(s, st.exchange, e).stage != X.Violated {
      ExchangeCarries(s, st.exchange, e);
    } else if st.exchange.stage.Finished? && st.exchange.stage.frame.cmd == CMD_KEY_CONFIRM {
      ConfigureCarries(p, st.device, st.attempt, X.NOTHING, e);
    } else {
      InitCarries(p, st.device, e);
    }
  }

  // ---- Is it the device's latest challenge?

  /** The send at `i` wraps the key under the latest challenge of the device that was found. */
  ghost predicate WrapsLatestAt(p: Pairer, trace: seq<Event>, i: nat, d: nat, f: IoFrame, j: nat,
                                challenge: Challenge) {
    && j < i < |trace| && EndsSearch(p, trace, d, f) && ChallengeAt(p, trace, j, f.src, challenge)
    && (forall m :: j < m < i ==> !IsChallenge(p, trace[m], f.src))
    && trace[i].Tx? && trace[i].sent == Wire(TransferFrame(p, f.src, challenge))
  }

  ghost predicate WrapsLatest(p: Pairer, trace: seq<Event>) {
    forall i :: 0 <= i < |trace| && SendsTransfer(trace[i]) ==>
      exists d, f, j, challenge :: WrapsLatestAt(p, trace, i, d, f, j, challenge)
  }

  /** A run can get as far as a key transfer. */
  predicate CanTransfer(p: Pairer) {
    && 0 < |p.tuning.commands| && IsDiscoveryCommand(p.tuning.commands[0]) && 0 < p.tuning.keyExchangeRetries
  }

  /** On a slow radio every transfer does: another challenge of the device ends the sending. */
  lemma SlowWrapsLatest(p: Pairer, trace: seq<Event>)
    requires !p.fast && Orderly(p, trace)
    ensures WrapsLatest(p, trace)
  {
    hide Watch, IsChallenge, IsConfirm, Command, Wire, TransferFrame, Parse;
    forall i | 0 <= i < |trace| && SendsTransfer(trace[i])
      ensures exists d, f, j, challenge :: WrapsLatestAt(p, trace, i, d, f, j, challenge)
    {
      var d, f, k, j, challenge := TransferWrapsKey(p, trace, i);
      assert WrapsLatestAt(p, trace, i, d, f, j, challenge);
    }
  }

  /** The search gets beyond its start only with a first command that can be sent. */
  lemma {:induction false} SearchBegins(p: Pairer, trace: seq<Event>)
    requires Orderly(p, trace) && trace != []
    ensures 0 < |p.tuning.commands| && IsDiscoveryCommand(p.tuning.commands[0])
    decreases |trace|
  {
    hide Step;
    var n := |trace| - 1;
    OrderlyPrefix(p, trace, n);
    if n == 0 {
      assert trace[..0] == [];
      FirstStep(p, trace[0]);
    } else {
      SearchBegins(p, trace[..n]);
    }
  }

  lemma FirstStep(p: Pairer, e: Event)
    requires !Step(p, SEARCH, e).Broken?
    ensures 0 < |p.tuning.commands| && IsDiscoveryCommand(p.tuning.commands[0])
  {
    hide Wire, DiscoveryFrame;
  }

  /** A run that sends the key belongs to a pairer that can. */
  lemma TransferNeedsAttempt(p: Pairer, trace: seq<Event>, i: nat)
    requires Orderly(p, trace) && i < |trace| && SendsTransfer(trace[i])
    ensures CanTransfer(p)
  {
    hide Step, Command, Wire, TransferFrame;
    SearchBegins(p, trace);
    OrderlyPrefix(p, trace, i + 1);
    assert trace[..i + 1][..i] == trace[..i];
    TransferStage(p, Watch(p, trace[..i]), trace[i]);
    RoundBounds(p, trace[..i]);
  }

  // ---- The run that sends an outdated challenge

  lemma WatchMore(p: Pairer, trace: seq<Event>, e: Event)
    ensures Watch(p, trace + [e]) == Step(p, Watch(p, trace), e)
  {
    assert (trace + [e])[..|trace|] == trace;
  }

  /** A standard discovery response of the device. */
  function Response(device: NodeId): IoFrame {
    WithCmd(Addressed(true, true, true, device, device), CMD_DISCOVER_RESP, [])
  }

  function ChallengePacket(p: Pairer, device: NodeId, challenge: Challenge): seq<byte>
  {
    Wire(WithCmd(Addressed(true, false, true, p.node, device), CMD_CHALLENGE_REQ, challenge))
  }

  function ResponsePacket(device: NodeId): seq<byte> {
    Wire(Response(device))
  }

  lemma ChallengePacketIs(p: Pairer, device: NodeId, challenge: Challenge)
    ensures var e := Rx(ChallengePacket(p, device, challenge));
            && IsChallenge(p, e, device) && Parse(e.heard).frame.data[..6] == challenge
  {
    hide Parse, Wire, Serializable;
    var base := Addressed(true, false, true, p.node, device);
    SetCmdSerializes(base, CMD_CHALLENGE_REQ, challenge);
  }

  lemma ResponsePacketIs(device: NodeId)
    ensures var q := Parse(ResponsePacket(device));
            q.Accepted? && q.frame.src == device && q.frame.cmd == CMD_DISCOVER_RESP
  {
    hide Parse, Wire, Serializable;
    SetCmdSerializes(Addressed(true, true, true, device, device), CMD_DISCOVER_RESP, []);
  }

  /** The eight events: search, response, key-init, first challenge, transfer, second challenge, its answer,
      and the transfer again. */
  function Outdated(p: Pairer, device: NodeId, c1: Challenge, c2: Challenge): (trace: seq<Event>)
    requires CanTransfer(p)
    ensures |trace| == 8
  {
    var nonce: Challenge := [0, 0, 0, 0, 0, 0];
    var transfer := Tx(Wire(TransferFrame(p, device, c1)), FREQ_CH2, p.responsePreamble, true);
    [Tx(Wire(DiscoveryFrame(p, p.tuning.commands[0], nonce)), FREQ_CH2, LONG_PREAMBLE, true),
     Rx(ResponsePacket(device)),
     Tx(Wire(KeyInitFrame(p, device)), FREQ_CH2, LONG_PREAMBLE, true),
     Rx(ChallengePacket(p, device, c1)),
     transfer,
     Rx(ChallengePacket(p, device, c2)),
     Tx(X.ResponseWire(TransferSession(p, device, c1), c2), FREQ_CH2, p.responsePreamble, true),
     transfer]
  }

  lemma OutdatedSearch(p: Pairer, device: NodeId, e0: Event, e1: Event, e2: Event)
    requires CanTransfer(p)
    requires e0.Tx? && IsDiscovery(p, 0, e0.sent) && e0.freq == FREQ_CH2 && e0.preamble == LONG_PREAMBLE && e0.ok
    requires e1 == Rx(ResponsePacket(device)) && e2.Tx? && IsInit(p, device, e2) && e2.ok
    ensures Watch(p, [e0]).Searching?
    ensures Watch(p, [e0, e1, e2]) == AwaitChallenge(device, 0)
  {
    hide Watch, IsDiscovery, Parse, IsInit, ResponsePacket;
    WatchStart(p);
    ResponsePacketIs(device);
    WatchMore(p, [], e0);
    WatchMore(p, [e0], e1);
    WatchMore(p, [e0, e1], e2);
    assert [] + [e0] == [e0] && [e0] + [e1] == [e0, e1] && [e0, e1] + [e2] == [e0, e1, e2];
  }

  lemma WatchStart(p: Pairer)
    ensures Watch(p, []) == SEARCH
  {
  }

  /** From the challenge on, as the engine's second attempt of one exchange. */
  lemma OutdatedExchange(p: Pairer, device: NodeId, c1: Challenge, c2: Challenge, t: seq<Event>, trace: seq<Event>)
    requires p.fast && CanTransfer(p) && |t| == 3 && Watch(p, t) == AwaitChallenge(device, 0)
    requires trace == t + Outdated(p, device, c1, c2)[3..]
    ensures Watch(p, trace).Exchanging?
  {
    hide Watch, Parse, ChallengePacket, TransferFrame, Wire, X.ResponseWire, TransferSession;
    var o := Outdated(p, device, c1, c2);
    var s := TransferSession(p, device, c1);
    WatchMore(p, t, o[3]);
    WatchMore(p, t + [o[3]], o[4]);
    WatchMore(p, t + [o[3], o[4]], o[5]);
    WatchMore(p, t + [o[3], o[4], o[5]], o[6]);
    WatchMore(p, t + [o[3], o[4], o[5], o[6]], o[7]);
    assert t + [o[3]] + [o[4]] == t + [o[3], o[4]];
    assert t + [o[3], o[4]] + [o[5]] == t + [o[3], o[4], o[5]];
    assert t + [o[3], o[4], o[5]] + [o[6]] == t + [o[3], o[4], o[5], o[6]];
    assert t + [o[3], o[4], o[5], o[6]] + [o[7]] == trace;
    ChallengeBegins(p, device, c1, o[3]);
    ExchangeSteps(p, device, c1, c2, o[4], o[5], o[6], o[7]);
  }

  lemma ChallengeBegins(p: Pairer, device: NodeId, c1: Challenge, e: Event)
    requires p.fast && e == Rx(ChallengePacket(p, device, c1))
    ensures Step(p, AwaitChallenge(device, 0), e) == Exchanging(device, 0, c1, X.NOTHING)
  {
    hide Parse, ChallengePacket;
    ChallengePacketIs(p, device, c1);
  }

  lemma ExchangeSteps(p: Pairer, device: NodeId, c1: Challenge, c2: Challenge, e4: Event, e5: Event, e6: Event,
                      e7: Event)
    requires e4 == Tx(Wire(TransferFrame(p, device, c1)), FREQ_CH2, p.responsePreamble, true) && e7 == e4
    requires e5 == Rx(ChallengePacket(p, device, c2))
    requires e6 == Tx(X.ResponseWire(TransferSession(p, device, c1), c2), FREQ_CH2, p.responsePreamble, true)
    ensures var st4 := Step(p, Exchanging(device, 0, c1, X.NOTHING), e4);
            Step(p, Step(p, Step(p, st4, e5), e6), e7).Exchanging?
  {
    hide Parse, ChallengePacket, TransferFrame, Wire, X.ResponseWire, Step;
    var s := TransferSession(p, device, c1);
    ChallengePacketIs(p, device, c2);
    var x4 := X.Seen(1, 0, 0, X.AwaitFirst);
    var x5 := X.Seen(1, 1, 0, X.Challenged(c2));
    var x6 := X.Seen(1, 1, 1, X.AwaitFinal);
    assert X.RequestWire(s) == Wire(TransferFrame(p, device, c1));
    assert X.Next(s, X.NOTHING, e4) == x4;
    assert X.Next(s, x4, e5) == x5;
    assert X.Next(s, x5, e6) == x6;
    assert X.Next(s, x6, e7) == X.Seen(2, 1, 1, X.AwaitFirst);
    StaysExchanging(p, device, c1, X.NOTHING, e4);
    StaysExchanging(p, device, c1, x4, e5);
    StaysExchanging(p, device, c1, x5, e6);
    StaysExchanging(p, device, c1, x6, e7);
  }

  lemma StaysExchanging(p: Pairer, device: NodeId, challenge: Challenge, x: X.Seen, e: Event)
    requires X.Next(TransferSession(p, device, challenge), x, e).stage != X.Violated
    ensures Step(p, Exchanging(device, 0, challenge, x), e) ==
            Exchanging(device, 0, challenge, X.Next(TransferSession(p, device, challenge), x, e))
  {
    hide X.Next, TransferSession;
  }

  /** A key wrapped under one challenge is not recovered with another. */
  lemma OtherChallengeOtherKey(c1: Challenge, c2: Challenge, key: Key)
    requires c1 != c2
    ensures Crypto.Wrapped([CMD_KEY_INIT], c1, key) != Crypto.Wrapped([CMD_KEY_INIT], c2, key)
    ensures Crypto.Wrapped([CMD_KEY_INIT], c2, Crypto.Wrapped([CMD_KEY_INIT], c1, key)) != key
  {
    Crypto.OtherChallengeOtherWrap([CMD_KEY_INIT], c1, c2, key);
  }

  /** The payload of a transfer is the wrapped key. */
  lemma WireIsWrapped(p: Pairer, device: NodeId, challenge: Challenge)
    ensures var w := Wire(TransferFrame(p, device, challenge));
            Parse(w).Accepted?
            && Parse(w).frame.data[..Aes.BLOCK] == Crypto.Wrapped([CMD_KEY_INIT], challenge, p.key)
  {
    hide Crypto.Wrapped, Parse, Wire, TransferFrame;
    TransferFrameUnwraps(p, device, challenge);
    Crypto.UnwrapWrap([CMD_KEY_INIT], challenge,
                      Parse(Wire(TransferFrame(p, device, challenge))).frame.data[..Aes.BLOCK]);
  }

  /** Two transfers to one device are the same packet only under the same challenge. */
  lemma TransferNamesChallenge(p: Pairer, device: NodeId, c1: Challenge, c2: Challenge)
    requires Wire(TransferFrame(p, device, c1)) == Wire(TransferFrame(p, device, c2))
    ensures c1 == c2
  {
    hide Crypto.Wrapped, Parse, Wire, TransferFrame;
    WireIsWrapped(p, device, c1);
    WireIsWrapped(p, device, c2);
    if c1 != c2 {
      OtherChallengeOtherKey(c1, c2, p.key);
    }
  }

  lemma OutdatedIsNotLatest(p: Pairer, device: NodeId, c1: Challenge, c2: Challenge)
    requires CanTransfer(p) && c1 != c2
    requires var trace := Outdated(p, device, c1, c2);
             Watch(p, trace[..1]).Searching? && SendsTransfer(trace[7])
    ensures !WrapsLatest(p, Outdated(p, device, c1, c2))
  {
    hide Watch, Parse, ChallengePacket, ResponsePacket, TransferFrame, Wire, X.ResponseWire, TransferSession, Command,
         IsDiscovery, KeyInitFrame, DiscoveryFrame, IsKeyChallenge;
    var trace := Outdated(p, device, c1, c2);
    ResponsePacketIs(device);
    ChallengePacketIs(p, device, c2);
    assert IsChallenge(p, trace[5], device);
    if WrapsLatest(p, trace) {
      var d, f, j, challenge :| WrapsLatestAt(p, trace, 7, d, f, j, challenge);
      SearchEndsOnce(p, trace, 1, Parse(ResponsePacket(device)).frame, d, f);
      TransferNamesChallenge(p, device, c1, challenge);
    }
  }

  /** On a fast radio a second challenge of the device during the exchange is answered, but the repeated
      transfer still wraps the key under the first (pairing_engine.cpp:433-435, exchange_engine.cpp:202-249): the
      run is in order, and a device that unwraps with its latest challenge gets another key. */
  lemma OutdatedTransfer(p: Pairer, device: NodeId, c1: Challenge, c2: Challenge)
    requires p.fast && CanTransfer(p) && c1 != c2
    ensures var trace := Outdated(p, device, c1, c2);
            && Orderly(p, trace) && SendsTransfer(trace[7]) && ChallengeAt(p, trace, 5, device, c2)
            && Parse(trace[7].sent).Accepted?
            && Crypto.Wrapped([CMD_KEY_INIT], c2, Parse(trace[7].sent).frame.data[..Aes.BLOCK]) != p.key
            && !WrapsLatest(p, trace)
  {
    hide Watch, Parse, ChallengePacket, ResponsePacket, TransferFrame, Wire, X.ResponseWire, TransferSession, Command,
         Crypto.Wrapped, IsDiscovery, KeyInitFrame, DiscoveryFrame, WrapsLatest, IsChallenge;
    var trace := Outdated(p, device, c1, c2);
    IsDiscoveryWire(p, 0, [0, 0, 0, 0, 0, 0]);
    OutdatedSearch(p, device, trace[0], trace[1], trace[2]);
    assert trace == trace[..3] + trace[3..] && trace[..3] == [trace[0], trace[1], trace[2]];
    assert trace[..1] == [trace[0]];
    OutdatedExchange(p, device, c1, c2, trace[..3], trace);
    CommandOfWire(TransferFrame(p, device, c1));
    ChallengePacketIs(p, device, c2);
    TransferFrameUnwraps(p, device, c1);
    WireIsWrapped(p, device, c1);
    OtherChallengeOtherKey(c1, c2, p.key);
    OutdatedIsNotLatest(p, device, c1, c2);
  }

  /** Exactly the pairers on a slow radio, and those that never get as far as a transfer, send the key only
      under the latest challenge of the device in every run. */
  lemma LatestExactly(p: Pairer)
    ensures (forall trace :: Orderly(p, trace) ==> WrapsLatest(p, trace)) <==> !(p.fast && CanTransfer(p))
  {
    hide Orderly, WrapsLatest, SendsTransfer;
    if p.fast && CanTransfer(p) {
      var device: NodeId, c1: Challenge, c2: Challenge := [0, 0, 0], [0, 0, 0, 0, 0, 0], [0, 0, 0, 0, 0, 1];
      OutdatedTransfer(p, device, c1, c2);
      assert Orderly(p, Outdated(p, device, c1, c2));
    } else {
      forall trace | Orderly(p, trace)
        ensures WrapsLatest(p, trace)
      {
        if p.fast {
          NothingToWrap(p, trace);
        } else {
          SlowWrapsLatest(p, trace);
        }
      }
    }
  }

  lemma NothingToWrap(p: Pairer, trace: seq<Event>)
    requires !CanTransfer(p) && Orderly(p, trace)
    ensures WrapsLatest(p, trace)
  {
    hide Orderly, SendsTransfer, WrapsLatestAt;
    forall i | 0 <= i < |trace|
      ensures !SendsTransfer(trace[i])
    {
      if SendsTransfer(trace[i]) {
        TransferNeedsAttempt(p, trace, i);
      }
    }
  }

  // ---- What must have been heard

  /** The last packet is the frame a key exchange finished with. */
  ghost predicate FinishHeard(p: Pairer, st: Stage, e: Event) {
    st.Exchanging? && st.exchange.stage.Finished? ==>
      e.Rx? && Parse(e.heard) == Accepted(st.exchange.stage.frame)
      && MatchesNodes(st.exchange.stage.frame, st.device, p.node)
  }

  lemma FinishNext(s: X.Session, x: X.Seen, e: Event)
    requires X.Next(s, x, e).stage.Finished?
    ensures var f := X.Next(s, x, e).stage.frame;
            e.Rx? && Parse(e.heard) == Accepted(f) && MatchesNodes(f, s.request.dst, s.request.src)
  {
    hide Parse;
  }

  /** An exchange of the key is at its beginning, or one event further. */
  lemma ExchangingFrom(p: Pairer, st: Stage, e: Event)
    requires Step(p, st, e).Exchanging?
    ensures var st' := Step(p, st, e);
            || st'.exchange == X.NOTHING
            || (st.Exchanging? && st'.device == st.device && st'.challenge == st.challenge
                && st'.exchange == X.Next(TransferSession(p, st.device, st.challenge), st.exchange, e))
  {
    hide IsInit, ConfigSession, TransferSession, IsDiscovery, Parse, Wire, IsKeyConfirm, IsKeyChallenge, KeyInitFrame,
         X.Next, MatchesNodes;
  }

  lemma FinishStep(p: Pairer, st: Stage, e: Event)
    ensures FinishHeard(p, Step(p, st, e), e)
  {
    hide Step, TransferFrame, Parse, X.Next, MatchesNodes;
    if Step(p, st, e).Exchanging? {
      ExchangingFrom(p, st, e);
      if st.Exchanging? {
        var s := TransferSession(p, st.device, st.challenge);
        if X.Next(s, st.exchange, e).stage.Finished? {
          FinishNext(s, st.exchange, e);
        }
      }
    }
  }

  ghost predicate Confirms(st: Stage, device: NodeId) {
    match st
    case Confirmed(d, _) => d == device
    case Configuring(d, _, _) => d == device
    case Exchanging(d, _, _, x) => d == device && x.stage.Finished? && x.stage.frame.cmd == CMD_KEY_CONFIRM
    case _ => false
  }

  /** A device found at `d`, the last key-init at `k` sent to it, and its confirmation at `c`, in this order. */
  ghost predicate ConfirmedAt(p: Pairer, trace: seq<Event>, d: nat, f: IoFrame, k: nat, c: nat) {
    && d < k < c < |trace|
    && EndsSearch(p, trace, d, f) && f.cmd == CMD_DISCOVER_RESP
    && LastInit(p, trace, k, f.src) && IsConfirm(p, trace[c], f.src)
  }

  lemma ConfirmStep(p: Pairer, st: Stage, e: Event, device: NodeId)
    requires Confirms(Step(p, st, e), device)
    ensures if Confirms(st, device) then !SendsInit(e)
            else KeyStage(st) && st.device == device && e.Rx? && IsConfirm(p, e, device)
  {
    hide Command, IsInit, ConfigSession, IsDiscovery, Parse, Wire, IsKeyChallenge, KeyInitFrame, TransferSession,
         X.Next, IsTransfer, Configure;
    if st.Exchanging? {
      ConfirmExchangeStep(p, st, e, device);
    } else if st.Confirmed? && e.Tx? {
      ConfigureCarries(p, st.device, st.attempt, X.NOTHING, e);
      ConfigureStays(p, st.device, st.attempt, X.NOTHING, e);
    } else if st.Configuring? {
      ConfigureStays(p, st.device, st.attempt, st.exchange, e);
      if e.Tx? {
        ConfigureCarries(p, st.device, st.attempt, st.exchange, e);
      }
    }
  }

  lemma ConfirmExchangeStep(p: Pairer, st: Stage, e: Event, device: NodeId)
    requires st.Exchanging? && Confirms(Step(p, st, e), device)
    ensures if Confirms(st, device) then !SendsInit(e) else st.device == device && IsConfirm(p, e, device)
  {
    hide Command, IsInit, ConfigSession, Parse, Wire, KeyInitFrame, TransferFrame, X.Hear, X.RequestWire,
         X.ResponseWire, Configure;
    FinishStep(p, st, e);
    if st.exchange.stage.Finished? && st.exchange.stage.frame.cmd == CMD_KEY_CONFIRM && e.Tx? {
      ConfigureCarries(p, st.device, st.attempt, X.NOTHING, e);
      ConfigureStays(p, st.device, st.attempt, X.NOTHING, e);
    }
  }

  /** A device counts as confirmed, is configured and is registered only after its 0x33 to this controller
      answered the last key-init, which went to it after its response had ended the search. */
  lemma {:induction false} ConfirmationHeard(p: Pairer, trace: seq<Event>, device: NodeId)
    returns (d: nat, f: IoFrame, k: nat, c: nat)
    requires Confirms(Watch(p, trace), device)
    ensures ConfirmedAt(p, trace, d, f, k, c) && f.src == device
    decreases |trace|
  {
    hide Step, IsConfirm, IsInit, Command, Parse, IsDiscoveryResponse;
    var n := |trace| - 1;
    var before := Watch(p, trace[..n]);
    ConfirmStep(p, before, trace[n], device);
    if Confirms(before, device) {
      d, f, k, c := ConfirmationHeard(p, trace[..n], device);
    } else {
      d, f := DeviceOrigin(p, trace[..n]);
      k := InitOrigin(p, trace[..n]);
      c := n;
      InitAfterSearch(p, trace[..n], k, device, d, f);
    }
    EndsSearchGrows(p, trace, n, d, f);
  }
}
