/** What holds of every pairing run the observer accepts: how often each request goes out and in which
    order. */
module PairingRuns {
  import opened Bytes
  import opened Commands
  import opened Frame
  import opened Decisions
  import opened CommandFrames
  import opened Radio
  import opened PairingTrace
  import X = ExchangeTrace
  import Crypto

  ghost predicate Orderly(p: Pairer, trace: seq<Event>) {
    !Watch(p, trace).Broken?
  }

  lemma {:induction false} OrderlyPrefix(p: Pairer, trace: seq<Event>, n: nat)
    requires n <= |trace| && Orderly(p, trace)
    ensures Orderly(p, trace[..n])
    decreases |trace|
  {
    hide Continue, Configure, HearFrame;
    if n < |trace| {
      OrderlyPrefix(p, trace[..|trace| - 1], n);
      assert trace[..|trace| - 1][..n] == trace[..n];
    } else {
      assert trace[..n] == trace;
    }
  }

  // ---- Which command a send carries

  function Command(data: seq<byte>): byte {
    if |data| > 8 then data[8] else 0
  }

  lemma CommandOfWire(f: IoFrame)
    requires f.dataLen <= FRAME_MAX_DATA_SIZE
    ensures Command(Wire(f)) == f.cmd
  {
  }

  lemma SearchCarries(p: Pairer, st: Stage, e: Event)
    requires st.Searching? && e.Tx? && !Search(p, st, e).Broken?
    ensures IsDiscoveryCommand(Command(e.sent))
  {
    hide Wire, DiscoveryPayload, Destination;
    var index := if IsDiscovery(p, st.index, e.sent) then st.index else st.index + 1;
    var nonce: Challenge :| e.sent == Wire(DiscoveryFrame(p, p.tuning.commands[index], nonce));
    CommandOfWire(DiscoveryFrame(p, p.tuning.commands[index], nonce));
  }

  lemma InitCarries(p: Pairer, device: NodeId, e: Event)
    requires e.Tx? && IsInit(p, device, e)
    ensures Command(e.sent) == CMD_KEY_INIT
  {
    CommandOfWire(KeyInitFrame(p, device));
  }

  /** An exchange sends its request or an answer to a challenge. */
  lemma ExchangeCarries(s: X.Session, x: X.Seen, e: Event)
    requires s.request.dataLen <= FRAME_MAX_DATA_SIZE && e.Tx? && X.Next(s, x, e).stage != X.Violated
    ensures if x.stage.Challenged? then Command(e.sent) == CMD_CHALLENGE_RESP && X.Next(s, x, e).requests == x.requests
            else
              && Command(e.sent) == s.request.cmd
              && X.Next(s, x, e).requests == x.requests + 1 <= X.EXCHANGE_RETRY_COUNT
  {
    hide Wire, Command, Crypto.Hmac;
    if x.stage.Challenged? {
      CommandOfWire(ChallengeResponse(s.request.dst, s.node, x.stage.challenge, s.request, s.key));
    } else {
      CommandOfWire(s.request);
    }
  }

  lemma SessionCommands(p: Pairer, device: NodeId, challenge: Challenge)
    ensures TransferSession(p, device, challenge).request.cmd == CMD_KEY_TRANSFER
    ensures ConfigSession(p, device).request.cmd == CMD_SET_CONFIG1
    ensures ConfigSession(p, device).request.dataLen <= FRAME_MAX_DATA_SIZE
    ensures TransferSession(p, device, challenge).request.dataLen <= FRAME_MAX_DATA_SIZE
  {
  }

  // ---- Rounds

  /** A round is the requests for one discovery command, or one key attempt; they are numbered in the
      order in which they are made. */
  function Round(p: Pairer, st: Stage): int {
    var n := |p.tuning.commands|;
    match st
    case Searching(index, _) => index
    case Ready(_, attempt) => n + attempt - 1
    case AwaitChallenge(_, attempt) => n + attempt
    case Transferring(_, attempt, _, _, _, _) => n + attempt
    case Exchanging(_, attempt, _, _) => n + attempt
    case Confirmed(_, attempt) => n + attempt
    case Configuring(_, attempt, _) => n + attempt
    case _ => n + p.tuning.keyExchangeRetries
  }

  /** How many sends with one of these commands the current round has made. */
  ghost function InRound(p: Pairer, trace: seq<Event>, commands: set<byte>): nat {
    if trace == [] then 0
    else
      var n := |trace| - 1;
      var before := trace[..n];
      (if Round(p, Watch(p, before)) == Round(p, Watch(p, trace)) then InRound(p, before, commands) else 0)
      + (if trace[n].Tx? && Command(trace[n].sent) in commands then 1 else 0)
  }

  const DISCOVERY: set<byte> := {CMD_DISCOVER_REQ, CMD_DISCOVER_SPE_REQ, CMD_DISCOVER_ALT_REQ}
  const INIT: set<byte> := {CMD_KEY_INIT}
  const TRANSFER: set<byte> := {CMD_KEY_TRANSFER}

  /** What the stage says about the sends of its round. */
  ghost predicate Counted(p: Pairer, st: Stage, discoveries: nat, inits: nat, transfers: nat) {
    && discoveries <= 3 && inits <= 3 && transfers <= 3
    && match st
       case Searching(index, sends) =>
         discoveries == sends && inits == 0 && transfers == 0 && (index < |p.tuning.commands| || st == SEARCH)
       case Ready(_, attempt) => attempt <= p.tuning.keyExchangeRetries
       case AwaitChallenge(_, attempt) => inits == 1 && transfers == 0 && attempt < p.tuning.keyExchangeRetries
       case Transferring(_, attempt, _, t, r, _) =>
         inits == 1 + r && transfers == t && attempt < p.tuning.keyExchangeRetries
       case Exchanging(_, attempt, _, x) =>
         inits == 1 && transfers == x.requests && attempt < p.tuning.keyExchangeRetries
       case Confirmed(_, attempt) => attempt < p.tuning.keyExchangeRetries
       case Configuring(_, attempt, _) => attempt < p.tuning.keyExchangeRetries
       case _ => true
  }

  /** The count after one more event. */
  function Recount(p: Pairer, st: Stage, st': Stage, count: nat, e: Event, commands: set<byte>): nat {
    (if Round(p, st) == Round(p, st') then count else 0) + (if e.Tx? && Command(e.sent) in commands then 1 else 0)
  }

  ghost predicate CountsOn(p: Pairer, st: Stage, st': Stage, e: Event, d: nat, i: nat, t: nat) {
    && Counted(p, st', Recount(p, st, st', d, e, DISCOVERY), Recount(p, st, st', i, e, INIT),
               Recount(p, st, st', t, e, TRANSFER))
    && Round(p, st) <= Round(p, st')
  }

  lemma SearchCounts(p: Pairer, st: Stage, e: Event, d: nat, i: nat, t: nat)
    requires st.Searching? && e.Tx? && !Step(p, st, e).Broken? && Counted(p, st, d, i, t)
    ensures CountsOn(p, st, Step(p, st, e), e, d, i, t)
  {
    hide IsDiscovery, Command;
    SearchCarries(p, st, e);
    assert IsDiscovery(p, st.index, e.sent) ==> st.index < |p.tuning.commands| by { IndexOf(p, st.index, e.sent); }
    assert IsDiscovery(p, st.index + 1, e.sent) ==> st.index + 1 < |p.tuning.commands| by {
      IndexOf(p, st.index + 1, e.sent);
    }
  }

  lemma IndexOf(p: Pairer, index: nat, data: seq<byte>)
    ensures IsDiscovery(p, index, data) ==> index < |p.tuning.commands|
  {
  }

  lemma BeginCounts(p: Pairer, st: Stage, e: Event, d: nat, i: nat, t: nat)
    requires st.Ready? || st.AwaitChallenge?
    requires e.Tx? && !Step(p, st, e).Broken? && Counted(p, st, d, i, t)
    ensures CountsOn(p, st, Step(p, st, e), e, d, i, t)
  {
    hide IsInit, Command;
    InitCarries(p, st.device, e);
  }

  lemma TransferCounts(p: Pairer, st: Stage, e: Event, d: nat, i: nat, t: nat)
    requires st.Transferring? && e.Tx? && !Step(p, st, e).Broken? && Counted(p, st, d, i, t)
    ensures CountsOn(p, st, Step(p, st, e), e, d, i, t)
  {
    hide IsInit, IsTransfer, Command;
    if IsInit(p, st.device, e) {
      InitCarries(p, st.device, e);
    }
    if IsTransfer(p, st.device, st.challenge, e) {
      TransferCarries(p, st.device, st.challenge, e);
    }
  }

  lemma TransferCarries(p: Pairer, device: NodeId, challenge: Challenge, e: Event)
    requires e.Tx? && IsTransfer(p, device, challenge, e)
    ensures Command(e.sent) == CMD_KEY_TRANSFER
  {
    CommandOfWire(TransferFrame(p, device, challenge));
  }

  lemma ConfigureCarries(p: Pairer, device: NodeId, attempt: nat, x: X.Seen, e: Event)
    requires e.Tx? && !Configure(p, device, attempt, x, e).Broken?
    ensures Command(e.sent) == CMD_SET_CONFIG1 || Command(e.sent) == CMD_CHALLENGE_RESP
  {
    hide X.Next, Command, ConfigSession;
    SessionCommands(p, device, [0, 0, 0, 0, 0, 0]);
    ExchangeCarries(ConfigSession(p, device), x, e);
  }

  lemma ExchangeCounts(p: Pairer, st: Stage, e: Event, d: nat, i: nat, t: nat)
    requires st.Exchanging? && e.Tx? && !Step(p, st, e).Broken? && Counted(p, st, d, i, t)
    ensures CountsOn(p, st, Step(p, st, e), e, d, i, t)
  {
    hide X.Next, Command, ConfigSession, TransferSession, IsInit, Configure;
    SessionCommands(p, st.device, st.challenge);
    var s := TransferSession(p, st.device, st.challenge);
    if X.Next(s, st.exchange, e).stage != X.Violated {
      ExchangeCarries(s, st.exchange, e);
    } else if st.exchange.stage.Finished? && st.exchange.stage.frame.cmd == CMD_KEY_CONFIRM {
      ConfigureCarries(p, st.device, st.attempt, X.NOTHING, e);
      ConfigureStays(p, st.device, st.attempt, X.NOTHING, e);
    } else {
      InitCarries(p, st.device, e);
    }
  }

  lemma ConfigureStays(p: Pairer, device: NodeId, attempt: nat, x: X.Seen, e: Event)
    requires !Configure(p, device, attempt, x, e).Broken?
    ensures var st := Configure(p, device, attempt, x, e);
            st.Configuring? && st.device == device && st.attempt == attempt
  {
  }

  lemma ConfigureCounts(p: Pairer, st: Stage, e: Event, d: nat, i: nat, t: nat)
    requires (st.Confirmed? || st.Configuring?) && e.Tx? && !Step(p, st, e).Broken? && Counted(p, st, d, i, t)
    ensures CountsOn(p, st, Step(p, st, e), e, d, i, t)
  {
    hide Command, Configure;
    var x := if st.Confirmed? then X.NOTHING else st.exchange;
    ConfigureCarries(p, st.device, st.attempt, x, e);
    ConfigureStays(p, st.device, st.attempt, x, e);
  }

  lemma HearingCounts(p: Pairer, st: Stage, e: Event, d: nat, i: nat, t: nat)
    requires e.Rx? && !Step(p, st, e).Broken? && Counted(p, st, d, i, t)
    ensures CountsOn(p, st, Step(p, st, e), e, d, i, t)
  {
    hide Command, Configure, X.Next, Parse, IsKeyConfirm, IsKeyChallenge, MatchesNodes, IsDiscoveryResponse,
         TransferSession;
    if st.Exchanging? {
      HearingSendsNothing(TransferSession(p, st.device, st.challenge), st.exchange, e);
    }
    if st.Configuring? {
      ConfigureStays(p, st.device, st.attempt, st.exchange, e);
    }
  }

  lemma HearingSendsNothing(s: X.Session, x: X.Seen, e: Event)
    requires e.Rx?
    ensures X.Next(s, x, e).requests == x.requests
  {
  }

  lemma StepCounts(p: Pairer, st: Stage, e: Event, d: nat, i: nat, t: nat)
    requires !Step(p, st, e).Broken? && Counted(p, st, d, i, t)
    ensures CountsOn(p, st, Step(p, st, e), e, d, i, t)
  {
    hide Step, CountsOn;
    if e.Rx? {
      HearingCounts(p, st, e, d, i, t);
    } else {
      match st
      case Searching(_, _) => SearchCounts(p, st, e, d, i, t);
      case Ready(_, _) => BeginCounts(p, st, e, d, i, t);
      case AwaitChallenge(_, _) => BeginCounts(p, st, e, d, i, t);
      case Transferring(_, _, _, _, _, _) => TransferCounts(p, st, e, d, i, t);
      case Exchanging(_, _, _, _) => ExchangeCounts(p, st, e, d, i, t);
      case Confirmed(_, _) => ConfigureCounts(p, st, e, d, i, t);
      case Configuring(_, _, _) => ConfigureCounts(p, st, e, d, i, t);
      case _ => NothingFollows(p, st, e);
    }
  }

  lemma NothingFollows(p: Pairer, st: Stage, e: Event)
    requires st.Halted? || st.Broken?
    ensures Step(p, st, e).Broken?
  {
  }

  /** In every round at most three discovery requests, three key-inits and three key transfers go out. */
  lemma {:induction false} RoundBounds(p: Pairer, trace: seq<Event>)
    requires Orderly(p, trace)
    ensures Counted(p, Watch(p, trace), InRound(p, trace, DISCOVERY), InRound(p, trace, INIT),
                    InRound(p, trace, TRANSFER))
    decreases |trace|
  {
    hide Step, Recount;
    if trace != [] {
      var n := |trace| - 1;
      OrderlyPrefix(p, trace, n);
      RoundBounds(p, trace[..n]);
      StepCounts(p, Watch(p, trace[..n]), trace[n], InRound(p, trace[..n], DISCOVERY), InRound(p, trace[..n], INIT),
                 InRound(p, trace[..n], TRANSFER));
      InRoundNext(p, trace, DISCOVERY);
      InRoundNext(p, trace, INIT);
      InRoundNext(p, trace, TRANSFER);
    }
  }

  lemma InRoundNext(p: Pairer, trace: seq<Event>, commands: set<byte>)
    requires trace != []
    ensures var n := |trace| - 1;
            InRound(p, trace, commands) ==
            Recount(p, Watch(p, trace[..n]), Watch(p, trace), InRound(p, trace[..n], commands), trace[n], commands)
  {
    hide Watch;
  }

  /** Rounds are never returned to. */
  lemma {:induction false} RoundsAdvance(p: Pairer, trace: seq<Event>, n: nat)
    requires n <= |trace| && Orderly(p, trace)
    ensures Round(p, Watch(p, trace[..n])) <= Round(p, Watch(p, trace))
    decreases |trace|
  {
    hide Step, Counted, Recount;
    if n == |trace| {
      assert trace[..n] == trace;
    } else {
      var m := |trace| - 1;
      OrderlyPrefix(p, trace, m);
      RoundsAdvance(p, trace[..m], n);
      assert trace[..m][..n] == trace[..n];
      RoundBounds(p, trace[..m]);
      StepCounts(p, Watch(p, trace[..m]), trace[m], InRound(p, trace[..m], DISCOVERY), InRound(p, trace[..m], INIT),
                 InRound(p, trace[..m], TRANSFER));
    }
  }

  // ---- Order and ends

  /** An alternate discovery response is the last event of its run. */
  lemma AlternateEndsRun(p: Pairer, trace: seq<Event>, i: nat)
    requires Orderly(p, trace) && i < |trace| && trace[i].Rx? && Watch(p, trace[..i]).Searching?
    requires Parse(trace[i].heard).Accepted? && Parse(trace[i].heard).frame.cmd == CMD_DISCOVER_ALT_RESP
    ensures |trace| == i + 1
  {
    hide Step;
    OrderlyPrefix(p, trace, i + 1);
    assert trace[..i + 1][..i] == trace[..i];
    HearsAlternate(p, Watch(p, trace[..i]), trace[i]);
    if i + 1 < |trace| {
      OrderlyPrefix(p, trace, i + 2);
      assert trace[..i + 2][..i + 1] == trace[..i + 1];
      NothingFollows(p, Watch(p, trace[..i + 1]), trace[i + 1]);
    }
  }

  lemma HearsAlternate(p: Pairer, st: Stage, e: Event)
    requires st.Searching? && e.Rx? && !Step(p, st, e).Broken?
    requires Parse(e.heard).Accepted? && Parse(e.heard).frame.cmd == CMD_DISCOVER_ALT_RESP
    ensures Step(p, st, e) == Halted
  {
  }

  /** Once the search is over it stays over. */
  lemma {:induction false} SearchIsOver(p: Pairer, trace: seq<Event>, n: nat)
    requires n <= |trace| && !Watch(p, trace[..n]).Searching?
    ensures !Watch(p, trace).Searching?
    decreases |trace|
  {
    hide Step;
    if n == |trace| {
      assert trace[..n] == trace;
    } else {
      var m := |trace| - 1;
      assert trace[..m][..n] == trace[..n];
      SearchIsOver(p, trace[..m], n);
      SearchStep(p, Watch(p, trace[..m]), trace[m]);
    }
  }

  lemma SearchStep(p: Pairer, st: Stage, e: Event)
    requires !st.Searching?
    ensures !Step(p, st, e).Searching?
  {
    hide Command, IsInit, IsTransfer, X.Next, Parse, IsKeyConfirm, IsKeyChallenge, TransferSession, ConfigSession;
  }

  /** No discovery request follows a send of any other kind. */
  lemma DiscoveryComesFirst(p: Pairer, trace: seq<Event>, i: nat, j: nat)
    requires Orderly(p, trace) && i < j < |trace| && trace[i].Tx? && trace[j].Tx?
    requires Command(trace[j].sent) in DISCOVERY
    ensures Command(trace[i].sent) in DISCOVERY
  {
    hide Step, Command;
    OrderlyPrefix(p, trace, i + 1);
    OrderlyPrefix(p, trace, j + 1);
    assert trace[..i + 1][..i] == trace[..i];
    assert trace[..j + 1][..j] == trace[..j];
    SendCarries(p, Watch(p, trace[..i]), trace[i]);
    SendCarries(p, Watch(p, trace[..j]), trace[j]);
    if !Watch(p, trace[..i]).Searching? {
      assert trace[..j][..i] == trace[..i];
      SearchIsOver(p, trace[..j], i);
    }
  }

  lemma SendCarries(p: Pairer, st: Stage, e: Event)
    requires e.Tx? && !Step(p, st, e).Broken?
    ensures Command(e.sent) in DISCOVERY <==> st.Searching?
  {
    hide Command, X.Next, ConfigSession, TransferSession, IsInit, IsTransfer, Configure, IsDiscovery;
    match st
    case Searching(_, _) => SearchCarries(p, st, e);
    case Ready(device, _) => InitCarries(p, device, e);
    case AwaitChallenge(device, _) => InitCarries(p, device, e);
    case Transferring(_, _, _, _, _, _) =>
      if IsTransfer(p, st.device, st.challenge, e) {
        TransferCarries(p, st.device, st.challenge, e);
      } else {
        InitCarries(p, st.device, e);
      }
    case Exchanging(_, _, _, _) => ContinueCarries(p, st, e);
    case Confirmed(device, attempt) => ConfigureCarries(p, device, attempt, X.NOTHING, e);
    case Configuring(device, attempt, x) => ConfigureCarries(p, device, attempt, x, e);
    case _ => NothingFollows(p, st, e);
  }

  lemma ContinueCarries(p: Pairer, st: Stage, e: Event)
    requires st.Exchanging? && e.Tx? && !Step(p, st, e).Broken?
    ensures Command(e.sent) !in DISCOVERY
  {
    hide Command, X.Next, ConfigSession, TransferSession, IsInit, Configure;
    var s := TransferSession(p, st.device, st.challenge);
    SessionCommands(p, st.device, st.challenge);
    if X.Next(s, st.exchange, e).stage != X.Violated {
      ExchangeCarries(s, st.exchange, e);
    } else if st.exchange.stage.Finished? && st.exchange.stage.frame.cmd == CMD_KEY_CONFIRM {
      ConfigureCarries(p, st.device, st.attempt, X.NOTHING, e);
    } else {
      InitCarries(p, st.device, e);
    }
  }
}
