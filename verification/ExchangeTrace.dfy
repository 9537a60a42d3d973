/** What an authenticated exchange may put on the air: an observer that reads the trace of packets and
    knows at each point which sends are in order.  The engine is proved against the observer, and what
    the protocol promises is proved about every trace the observer accepts. */
module ExchangeTrace {
  import opened Bytes
  import opened Commands
  import opened Frame
  import opened Decisions
  import opened CommandFrames
  import opened Radio

  const EXCHANGE_RETRY_COUNT: nat := 3

  /** One exchange: the request, the identity and key of the node that makes it, and the radio settings. */
  datatype Session = Session(request: IoFrame, node: NodeId, key: Key, freq: nat, requestPreamble: nat,
                             responsePreamble: nat)

  datatype Stage =
    | Idle
    | AwaitFirst
    | Challenged(challenge: Challenge)
    | AwaitFinal
    | Finished(frame: IoFrame)
    | Violated

  /** What the observer has seen: sends of the request, challenges taken up, answers sent. */
  datatype Seen = Seen(requests: nat, challenges: nat, responses: nat, stage: Stage)

  /** Between attempts, when the request may be sent again. */
  predicate Listening(o: Seen) {
    o.stage == Idle || o.stage == AwaitFirst || o.stage == AwaitFinal
  }

  const NOTHING := Seen(0, 0, 0, Idle)

  function RequestWire(s: Session): seq<byte> {
    if s.request.dataLen <= FRAME_MAX_DATA_SIZE then Wire(s.request) else []
  }

  /** The answer to a challenge. */
  function ResponseWire(s: Session, challenge: Challenge): seq<byte> {
    if s.request.dataLen <= FRAME_MAX_DATA_SIZE then
      Wire(ChallengeResponse(s.request.dst, s.node, challenge, s.request, s.key))
    else []
  }

  /** A packet heard while a first or a final response is awaited. */
  function Hear(s: Session, o: Seen, packet: seq<byte>): Seen {
    if Parse(packet).Rejected? || !MatchesExchange(s.request, Parse(packet).frame) then o
    else
      var f := Parse(packet).frame;
      if o.stage == AwaitFirst && f.cmd == CMD_CHALLENGE_REQ then
        o.(challenges := o.challenges + 1, stage := Challenged(f.data[..6]))
      else o.(stage := Finished(f))
  }

  function Next(s: Session, o: Seen, e: Event): Seen {
    match e
    case Rx(packet) =>
      if o.stage == AwaitFirst || o.stage == AwaitFinal then Hear(s, o, packet) else o.(stage := Violated)
    case Tx(data, freq, preamble, ok) =>
      if o.stage.Challenged? then
        if data == ResponseWire(s, o.stage.challenge) && freq == s.freq && preamble == s.responsePreamble
        then o.(responses := o.responses + 1, stage := if ok then AwaitFinal else Idle)
        else o.(stage := Violated)
      else if Listening(o) && o.requests < EXCHANGE_RETRY_COUNT
        && data == RequestWire(s) && freq == s.freq && preamble == s.requestPreamble
        then o.(requests := o.requests + 1, stage := if ok then AwaitFirst else Idle)
      else o.(stage := Violated)
  }

  function Observe(s: Session, trace: seq<Event>): Seen {
    if trace == [] then NOTHING else Next(s, Observe(s, trace[..|trace| - 1]), trace[|trace| - 1])
  }

  lemma ObserveNothing(s: Session)
    ensures Observe(s, []) == NOTHING
  {
  }

  /** The trace from index `base` of a log, after one more event. */
  lemma ObserveNext(s: Session, log: seq<Event>, base: nat, e: Event)
    requires base <= |log|
    ensures Observe(s, (log + [e])[base..]) == Next(s, Observe(s, log[base..]), e)
  {
    var t := (log + [e])[base..];
    assert t[..|t| - 1] == log[base..] && t[|t| - 1] == e;
  }

  /** One more packet while a first response is awaited. */
  lemma FirstHeard(s: Session, log: seq<Event>, base: nat, packet: seq<byte>)
    requires base <= |log| && Observe(s, log[base..]).stage == AwaitFirst
    ensures var o := Observe(s, log[base..]);
            Observe(s, (log + [Rx(packet)])[base..]) ==
            if Parse(packet).Rejected? then o
            else
              var f := Parse(packet).frame;
              match ClassifyFirst(s.request, f)
              case IgnoreFirst => o
              case CompleteDirect => o.(stage := Finished(f))
              case RequireAuth => o.(challenges := o.challenges + 1, stage := Challenged(f.data[..6]))
  {
    hide Parse, Observe, MatchesExchange;
    ObserveNext(s, log, base, Rx(packet));
  }

  /** One more packet while a final response is awaited. */
  lemma FinalHeard(s: Session, log: seq<Event>, base: nat, packet: seq<byte>)
    requires base <= |log| && Observe(s, log[base..]).stage == AwaitFinal
    ensures var o := Observe(s, log[base..]);
            Observe(s, (log + [Rx(packet)])[base..]) ==
            if Parse(packet).Rejected? then o
            else
              var f := Parse(packet).frame;
              if f.src == s.request.dst && f.dst == s.request.src then o.(stage := Finished(f)) else o
  {
    hide Parse, Observe;
    ObserveNext(s, log, base, Rx(packet));
  }

  lemma ResponseSerializes(s: Session, challenge: Challenge)
    requires s.request.dataLen <= FRAME_MAX_DATA_SIZE
    ensures var f := ChallengeResponse(s.request.dst, s.node, challenge, s.request, s.key);
            Serializable(f) && f.dataLen <= FRAME_MAX_DATA_SIZE && Wire(f) == ResponseWire(s, challenge)
  {
    hide Authentic, Parse;
    ResponseIsAuthentic(s.request.dst, s.node, challenge, s.request, s.key);
  }

  /** An answer in order. */
  lemma ResponseNext(s: Session, o: Seen, challenge: Challenge, e: Event)
    requires o.stage == Challenged(challenge)
    requires e.Tx? && e.sent == ResponseWire(s, challenge) && e.freq == s.freq && e.preamble == s.responsePreamble
    ensures Next(s, o, e) == o.(responses := o.responses + 1, stage := if e.ok then AwaitFinal else Idle)
  {
    hide ResponseWire;
  }

  /** Between attempts the observer is idle only after a send that failed. */
  lemma IdleMeansUnsent(s: Session, log: seq<Event>, base: nat)
    requires base < |log| && Observe(s, log[base..]).stage == Idle
    ensures log[|log| - 1].Tx? && !log[|log| - 1].ok
  {
    hide RequestWire, ResponseWire, Parse;
    var t := log[base..];
    assert t[|t| - 1] == log[|log| - 1];
  }

  // ---- What an accepted trace looks like

  /** The observer took every event. */
  ghost predicate Orderly(s: Session, trace: seq<Event>) {
    Observe(s, trace).stage != Violated
  }

  lemma {:induction false} OrderlyPrefix(s: Session, trace: seq<Event>, n: nat)
    requires n <= |trace| && Orderly(s, trace)
    ensures Orderly(s, trace[..n])
    decreases |trace|
  {
    if n < |trace| {
      OrderlyPrefix(s, trace[..|trace| - 1], n);
      assert trace[..|trace| - 1][..n] == trace[..n];
    } else {
      assert trace[..n] == trace;
    }
  }

  /** How many packets were sent. */
  function Sends(trace: seq<Event>): nat {
    if trace == [] then 0
    else Sends(trace[..|trace| - 1]) + if trace[|trace| - 1].Tx? then 1 else 0
  }

  /** Every send is one of at most three requests or one of at most three answers, and no more answers
      than challenges heard in as many attempts. */
  lemma {:induction false} SendsBounded(s: Session, trace: seq<Event>)
    requires Orderly(s, trace)
    ensures var o := Observe(s, trace);
            && Sends(trace) == o.requests + o.responses
            && o.responses <= o.challenges <= o.requests <= EXCHANGE_RETRY_COUNT
            && (o.stage.Challenged? ==> o.responses < o.challenges)
            && (o.stage == AwaitFirst ==> o.challenges < o.requests)
    decreases |trace|
  {
    if trace != [] {
      OrderlyPrefix(s, trace, |trace| - 1);
      SendsBounded(s, trace[..|trace| - 1]);
    }
  }

  /** The packet at `j` is a challenge from the node the request went to. */
  ghost predicate ChallengeAt(s: Session, trace: seq<Event>, j: nat, challenge: Challenge) {
    && j < |trace| && trace[j].Rx? && Parse(trace[j].heard).Accepted?
    && var f := Parse(trace[j].heard).frame;
    && MatchesExchange(s.request, f) && f.cmd == CMD_CHALLENGE_REQ && f.data[..6] == challenge
  }

  lemma {:induction false} ChallengedBy(s: Session, trace: seq<Event>)
    requires Observe(s, trace).stage.Challenged?
    ensures trace != [] && ChallengeAt(s, trace, |trace| - 1, Observe(s, trace).stage.challenge)
  {
  }

  /** Every send is the request itself, or the answer to the challenge heard just before it, each on the
      frequency of the exchange and with its own preamble. */
  lemma SendsJustified(s: Session, trace: seq<Event>, i: nat)
    requires Orderly(s, trace) && i < |trace| && trace[i].Tx?
    ensures trace[i].freq == s.freq
    ensures (trace[i].sent == RequestWire(s) && trace[i].preamble == s.requestPreamble) ||
            (i > 0 && trace[i].preamble == s.responsePreamble
             && exists c: Challenge :: ChallengeAt(s, trace, i - 1, c) && trace[i].sent == ResponseWire(s, c))
  {
    OrderlyPrefix(s, trace, i + 1);
    assert trace[..i + 1][..i] == trace[..i];
    var o := Observe(s, trace[..i]);
    if o.stage.Challenged? {
      ChallengedBy(s, trace[..i]);
      assert ChallengeAt(s, trace, i - 1, o.stage.challenge);
    }
  }

  /** A peer that checks an answer as authenticate_request does, with the same key, the request it
      received and the challenge it sent, accepts every answer on the trace. */
  lemma AnswersAccepted(s: Session, trace: seq<Event>, i: nat)
    requires Orderly(s, trace) && i < |trace| && trace[i].Tx? && trace[i].sent != RequestWire(s)
    requires Serializable(s.request)
    ensures i > 0 && exists c: Challenge ::
              ChallengeAt(s, trace, i - 1, c) && Authentic(trace[i].sent, s.request, c, s.key)
  {
    hide Authentic;
    SendsJustified(s, trace, i);
    var c: Challenge :| ChallengeAt(s, trace, i - 1, c) && trace[i].sent == ResponseWire(s, c);
    ResponseIsAuthentic(s.request.dst, s.node, c, s.request, s.key);
  }

  /** An exchange finishes with the last packet heard, and its endpoints reverse the request's. */
  lemma FinishedBy(s: Session, trace: seq<Event>)
    requires Observe(s, trace).stage.Finished?
    ensures trace != [] && trace[|trace| - 1].Rx?
    ensures var p := Parse(trace[|trace| - 1].heard);
            && p == Accepted(Observe(s, trace).stage.frame)
            && p.frame.src == s.request.dst && p.frame.dst == s.request.src
    ensures Orderly(s, trace[..|trace| - 1])
  {
  }
}
