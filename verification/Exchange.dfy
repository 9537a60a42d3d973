/** The exchange engine of exchange_engine.cpp: transmitting with listen-before-talk, hopping, the
    outbound exchange with its retries, and the authentication of inbound requests. */
module Exchange {
  import opened Bytes
  import opened Clock
  import opened Commands
  import opened Frame
  import opened Decisions
  import opened CommandFrames
  import opened Radio
  import opened ExchangeTrace
  import Crypto

  const RESPONSE_WAIT_MS: nat := 500
  const RESPONSE_START_WAIT_MS: nat := 300
  const RESPONSE_AUTH_WAIT_MS: nat := 500
  const EXCHANGE_RETRY_DELAY_MS: nat := 250
  const LBT_RETRY_DELAY_MS: nat := 5

  datatype Outcome = Unset | NoResponse | InvalidResponse | KeyExchangeFailed | ConfigFailed | Paired

  /** The telemetry of a pairing attempt, of which only the outcome is kept. */
  class Telemetry {
    var outcome: Outcome

    constructor ()
      ensures outcome == Unset
    {
      outcome := Unset;
    }
  }

  /** The exchange debug snapshot without the radio capture. */
  datatype Debug = Debug(stage: string, tries: nat, requestCmd: byte, sawChallenge: bool)

  class Engine {
    const radio: RadioDriver
    const node: NodeId
    const key: Key
    var lbtMaxRetries: nat
    var lbtThreshold: int
    var telemetry: Telemetry?
    var debug: Debug

    constructor (radio: RadioDriver, node: NodeId, key: Key, lbtMaxRetries: nat, lbtThreshold: int)
      ensures this.radio == radio && this.node == node && this.key == key && telemetry == null
    {
      this.radio := radio;
      this.node := node;
      this.key := key;
      this.lbtMaxRetries := lbtMaxRetries;
      this.lbtThreshold := lbtThreshold;
      telemetry := null;
      debug := Debug("idle", 0, 0, false);
    }

    method SetTelemetry(recorder: Telemetry?)
      modifies this`telemetry
      ensures telemetry == recorder
    {
      telemetry := recorder;
    }

    // ---- Debug snapshot

    method ResetDebug(cmd: byte)
      modifies this`debug
      ensures debug == Debug("idle", 0, cmd, false)
    {
      debug := Debug("idle", 0, cmd, false);
    }

    /** Having seen a challenge sticks. */
    method RecordDebug(stage: string, tries: nat, sawChallenge: bool)
      modifies this`debug
      ensures debug == old(debug).(stage := stage, tries := tries,
                                   sawChallenge := old(debug).sawChallenge || sawChallenge)
    {
      debug := debug.(stage := stage, tries := tries, sawChallenge := debug.sawChallenge || sawChallenge);
    }

    // ---- Radio access

    method HopFrequency()
      modifies radio`time, radio`frequency
      ensures radio.frequency == NextChannel(old(radio.frequency))
      ensures old(radio.time) <= radio.time <= old(radio.time) + radio.overhead
    {
      var cur := radio.frequency;
      var next;
      if cur == FREQ_CH1 {
        next := FREQ_CH2;
      } else if cur == FREQ_CH3 {
        next := FREQ_CH1;
      } else {
        next := FREQ_CH3;
      }
      radio.ChangeFrequency(next);
    }

    /** The readings before a send: as many as allowed, or fewer and the last one below the threshold; every
        other one was not. */
    predicate ChannelChecked(levels: seq<int>, max: nat, threshold: int) {
      && |levels| <= max
      && (forall i :: 0 <= i < |levels| - 1 ==> levels[i] >= threshold)
      && (|levels| == max || (levels != [] && levels[|levels| - 1] < threshold))
    }

    /** How many of them found the channel busy. */
    function Deferrals(levels: seq<int>, threshold: int): nat {
      if levels == [] then 0 else |levels| - if levels[|levels| - 1] < threshold then 1 else 0
    }

    /** Sends at most one packet: the frame as it serializes, after the channel was found free or the
        deferrals are used up. */
    method TransmitFrame(frame: IoFrame, freq: nat, preamble: nat) returns (ok: bool)
      modifies radio`time, radio`frequency, radio`log, radio`levels
      ensures old(radio.time) <= radio.time
      ensures ok ==> Serializable(frame)
      ensures old(radio.levels) <= radio.levels
      ensures !Serializable(frame) ==> radio.log == old(radio.log)
      ensures Serializable(frame) ==>
                radio.log == old(radio.log) + [Tx(Wire(frame), freq, preamble, ok)] && radio.frequency == freq
      ensures Serializable(frame) ==>
                var levels := radio.levels[old(|radio.levels|)..];
                && ChannelChecked(levels, lbtMaxRetries, lbtThreshold)
                && old(radio.time) + 5 * Deferrals(levels, lbtThreshold) <= radio.time
    {
      var buf := new byte[FRAME_MAX_SIZE];
      var len := Serialize(frame, buf);
      if len == 0 {
        return false;
      }
      ghost var checked := |radio.levels|;
      for lbt := 0 to lbtMaxRetries
        invariant radio.log == old(radio.log)
        invariant len <= buf.Length && buf[..len] == Wire(frame)
        invariant old(radio.levels) <= radio.levels && |radio.levels| == checked + lbt
        invariant forall i :: checked <= i < |radio.levels| ==> radio.levels[i] >= lbtThreshold
        invariant old(radio.time) + LBT_RETRY_DELAY_MS * lbt <= radio.time
      {
        var rssi := radio.ReadRssi();
        if rssi < lbtThreshold {
          break;
        }
        radio.Delay(LBT_RETRY_DELAY_MS);
      }
      ok := radio.SendPacket(buf[..len], freq, preamble);
    }

    /** `millis() + ms`, and the real time it stands for. */
    method DeadlineIn(ms: nat) returns (deadline: nat, ghost end: nat)
      modifies radio`time
      ensures old(radio.time) <= radio.time <= old(radio.time) + radio.lag
      ensures end == radio.time + ms && deadline == U32(end)
    {
      var start := radio.Millis();
      deadline := U32(start + ms);
      end := radio.time + ms;
    }

    /** Whether the deadline is still ahead, by the 32-bit counter. */
    method Pending(deadline: nat, ghost end: nat) returns (pending: bool)
      requires deadline == U32(end)
      requires radio.lag < 0x100_0000 && radio.time < end + 0x7000_0000 && end < radio.time + 0x7000_0000
      modifies radio`time
      ensures old(radio.time) <= radio.time <= old(radio.time) + radio.lag
      ensures pending <==> radio.time < end
    {
      var now := radio.Millis();
      DeadlineTest(radio.time, end);
      pending := Before(now, deadline);
    }

    /** The slice to wait next.  When the deadline passes between the loop's test and this reading, the
        difference wraps to a huge number and the slice is the full one. */
    method NextSlice(deadline: nat, slice: nat, ghost end: nat) returns (s: nat)
      requires deadline == U32(end) && slice < 0x1000_0000
      requires radio.lag < 0x100_0000 && radio.time < end + 0x7000_0000 && end < radio.time + 0x7000_0000
      modifies radio`time
      ensures old(radio.time) <= radio.time <= old(radio.time) + radio.lag
      ensures s == if radio.time <= end && end - radio.time < slice then end - radio.time else slice
    {
      var now := radio.Millis();
      DeadlineTest(radio.time, end);
      var remaining := Remaining(deadline, now);
      s := if remaining < slice then remaining else slice;
    }

    /** One turn of a wait loop before its deadline: listens for a slice, and hops when that brought nothing and
        the deadline is still ahead. */
    method ListenSlice(deadline: nat, slice: nat, ghost end: nat) returns (ok: bool, packet: seq<byte>)
      requires deadline == U32(end) && 0 < slice < 0x1000_0000
      requires radio.lag < 0x100_0000 && radio.overhead < 0x1000_0000
      requires radio.time < end < radio.time + 0x2000_0000
      modifies radio`time, radio`interruptions, radio`listens, radio`frequency, radio`log
      ensures old(radio.time) <= radio.time <= end + slice + radio.overhead + 2 * radio.lag
      ensures radio.interruptions < old(radio.interruptions) ||
              (radio.interruptions == old(radio.interruptions) && old(radio.time) < radio.time)
      ensures radio.log == if ok then old(radio.log) + [Rx(packet)] else old(radio.log)
      ensures |packet| <= RADIO_PACKET_BUFFER_SIZE
      ensures |radio.listens| == |old(radio.listens)| + 1 && radio.listens[..|old(radio.listens)|] == old(radio.listens)
      ensures var l := radio.listens[|old(radio.listens)|];
              && l.from <= old(radio.time) + radio.lag && radio.time <= l.to + radio.overhead + radio.lag
              && l.channel == old(radio.frequency) && (radio.time < end ==> radio.frequency == l.Next())
    {
      hide U32;
      var timeout := NextSlice(deadline, slice, end);
      ok, packet := radio.WaitForPacket(timeout);
      if !ok {
        var pending := Pending(deadline, end);
        if pending {
          HopFrequency();
        }
      }
    }

    /** At the top of a wait loop: one late radio call and a reading of the clock after the last wait. */
    ghost predicate Attending(base: nat, from: nat)
      reads radio`time, radio`listens
    {
      Attentive(radio.listens, base, from, radio.time, radio.Gap(), radio.overhead + radio.lag)
    }

    /** A wait loop begins within a reading of the clock, */
    lemma AttendingBegins(listens: seq<Listen>, from: nat, to: nat)
      requires to <= from + radio.lag
      ensures Attentive(listens, |listens|, from, to, radio.Gap(), radio.overhead + radio.lag)
    {
    }

    /** and ends within one or two. */
    lemma AttendingEnds(listens: seq<Listen>, base: nat, from: nat, top: nat, to: nat)
      requires Attentive(listens, base, from, top, radio.Gap(), radio.overhead + radio.lag) && to <= top + 2 * radio.lag
      ensures Attentive(listens, base, from, to, radio.Gap(), radio.Gap())
    {
      hide Attentive;
      AttentiveUntil(listens, base, from, top, radio.Gap(), radio.overhead + radio.lag, to, radio.Gap());
    }

    /** One more turn of a wait loop: `at` is when the loop found the deadline ahead, `l` the wait. */
    lemma ListenNext(before: seq<Listen>, base: nat, from: nat, top: nat, at: nat, to: nat, l: Listen)
      requires base <= |before| && Attentive(before, base, from, top, radio.Gap(), radio.overhead + radio.lag)
      requires at <= top + radio.lag && l.from <= at + radio.lag && to <= l.to + radio.overhead + radio.lag
      ensures Attentive(before + [l], base, from, to, radio.Gap(), radio.overhead + radio.lag)
    {
      hide Attentive;
      AttentiveUntil(before, base, from, top, radio.Gap(), radio.overhead + radio.lag, l.from, radio.Gap());
      AttentiveNext(before, base, from, to, radio.Gap(), radio.overhead + radio.lag, l);
    }

    /** At the top of a wait loop that hops: attending, on the channel whose turn it is. */
    ghost predicate Turning(base: nat, from: nat, channel: nat, end: nat)
      reads radio`time, radio`listens, radio`frequency
    {
      && base <= |radio.listens| && Attending(base, from) && Sweeping(radio.listens, base, channel)
      && (radio.time < end ==> radio.frequency == SweepsOn(radio.listens, base, channel))
    }

    /** One turn of such a loop, which began at `from` with the waits from index `base` on. */
    method ListenTurn(deadline: nat, slice: nat, ghost end: nat, ghost base: nat, ghost from: nat, ghost channel: nat)
      returns (pending: bool, ok: bool, packet: seq<byte>)
      requires deadline == U32(end) && 0 < slice < 0x1000_0000
      requires radio.lag < 0x100_0000 && radio.overhead < 0x1000_0000
      requires radio.time < end + 0x7000_0000 && end < radio.time + 0x2000_0000
      requires Turning(base, from, channel, end)
      modifies radio`time, radio`interruptions, radio`listens, radio`frequency, radio`log
      ensures old(radio.time) <= radio.time
      ensures radio.log == if pending && ok then old(radio.log) + [Rx(packet)] else old(radio.log)
      ensures |packet| <= RADIO_PACKET_BUFFER_SIZE
      ensures Sweeping(radio.listens, base, channel)
      ensures !pending ==> end <= radio.time <= old(radio.time) + radio.lag && radio.Listened(base, from)
      ensures pending ==> old(radio.time) < end && radio.time <= end + slice + radio.overhead + 2 * radio.lag
      ensures pending ==> Turning(base, from, channel, end)
      ensures pending ==> radio.interruptions < old(radio.interruptions) ||
                          (radio.interruptions == old(radio.interruptions) && old(radio.time) < radio.time)
    {
      hide U32, Attentive, Sweeping, SweepsOn;
      ghost var listens, top := radio.listens, radio.time;
      pending := Pending(deadline, end);
      if !pending {
        AttendingEnds(listens, base, from, top, radio.time);
        return false, false, [];
      }
      ghost var at := radio.time;
      ok, packet := ListenSlice(deadline, slice, end);
      ghost var l := radio.listens[|listens|];
      ListenNext(listens, base, from, top, at, radio.time, l);
      SweepNext(listens, base, channel, l);
      assert radio.listens == listens + [l];
    }

    /** How far a wait loop can run past its window: one slice, one late radio call, four clock readings. */
    function Overrun(slice: nat): nat
    {
      slice + radio.overhead + 4 * radio.lag
    }

    /** Listening since then for the whole window, and not much longer. */
    ghost predicate Waited(base: nat, from: nat, window: nat)
      reads radio`time, radio`listens
    {
      from + window <= radio.time <= from + window + Overrun(radio.exchangeSlice) && radio.Listened(base, from)
    }

    // ---- Outbound exchange

    function RequestPreamble(request: IoFrame): nat {
      if IsStart(request) then LONG_PREAMBLE else radio.responsePreamble
    }

    ghost function SessionOf(request: IoFrame, freq: nat): (s: Session)
      ensures s.request == request && s.node == node && s.key == key && s.freq == freq
      ensures s.requestPreamble == if IsStart(request) then 1024 else radio.responsePreamble
      ensures s.responsePreamble == radio.responsePreamble
    {
      Session(request, node, key, freq, RequestPreamble(request), radio.responsePreamble)
    }

    /** What the observer has seen since index `base` of the radio's log. */
    ghost function Observed(request: IoFrame, freq: nat, base: nat): Seen
      requires base <= |radio.log|
      reads radio`log
    {
      Observe(SessionOf(request, freq), radio.log[base..])
    }

    method TransmitRequest(request: IoFrame, freq: nat, preamble: nat, tryIndex: nat, ghost base: nat)
      returns (ok: bool)
      requires preamble == RequestPreamble(request)
      requires base <= |radio.log| && Observed(request, freq, base).requests < EXCHANGE_RETRY_COUNT
      requires Listening(Observed(request, freq, base))
      modifies radio`time, radio`frequency, radio`log, radio`levels, this`debug
      ensures old(radio.log) <= radio.log && old(radio.time) <= radio.time
      ensures ok ==> Serializable(request) && request.dataLen <= FRAME_MAX_DATA_SIZE && radio.frequency == freq
      ensures var o := old(Observed(request, freq, base));
              Observed(request, freq, base) ==
              if Serializable(request)
              then o.(requests := o.requests + 1, stage := if ok then AwaitFirst else Idle) else o
      ensures debug.sawChallenge == old(debug.sawChallenge) && debug.requestCmd == old(debug.requestCmd)
      ensures !ok ==> debug.tries == tryIndex
    {
      hide Observe, Wire;
      ghost var before := radio.log;
      ok := TransmitFrame(request, freq, preamble);
      if Serializable(request) {
        ObserveNext(SessionOf(request, freq), before, base, Tx(Wire(request), freq, preamble, ok));
      }
      if !ok {
        RecordDebug("tx_request_failed", tryIndex, false);
      }
    }

    method WaitForFirstResponse(request: IoFrame, ghost freq: nat, tryIndex: nat, waitMs: nat, rx0: IoFrame,
                                ghost base: nat)
      returns (disposition: FirstResponse, rx: IoFrame)
      requires radio.Valid() && waitMs < 0x1000_0000
      requires base <= |radio.log| && Observed(request, freq, base).stage == AwaitFirst
      modifies radio`time, radio`interruptions, radio`listens, radio`frequency, radio`log, this`debug
      ensures old(radio.log) <= radio.log && radio.Listened(old(|radio.listens|), old(radio.time))
      ensures Sweeping(radio.listens, old(|radio.listens|), old(radio.frequency))
      ensures var o := old(Observed(request, freq, base));
              Observed(request, freq, base) ==
              match disposition
              case IgnoreFirst => o
              case CompleteDirect => o.(stage := Finished(rx))
              case RequireAuth => o.(challenges := o.challenges + 1, stage := Challenged(rx.data[..6]))
      ensures debug.sawChallenge == old(debug.sawChallenge) && debug.requestCmd == old(debug.requestCmd)
      ensures old(debug.tries) == tryIndex ==> debug.tries == tryIndex
      ensures old(radio.time) <= radio.time <= old(radio.time) + waitMs + Overrun(radio.exchangeSlice)
      ensures disposition == IgnoreFirst ==> old(radio.time) + waitMs <= radio.time
    {
      hide U32, Observe, Parse, ClassifyFirst, RequestPreamble, Attentive, Sweeping, SweepsOn;
      rx := rx0;
      ghost var since, start, channel := |radio.listens|, radio.time, radio.frequency;
      var deadline, end := DeadlineIn(waitMs);
      AttendingBegins(radio.listens, start, radio.time);
      SweepBegins(radio.listens, channel);
      ghost var o := Observed(request, freq, base);
      while true
        invariant radio.time <= end + radio.exchangeSlice + radio.overhead + 2 * radio.lag
        invariant end <= radio.time + waitMs && old(radio.time) <= radio.time
        invariant old(radio.log) <= radio.log && Observed(request, freq, base) == o
        invariant Turning(since, start, channel, end)
        invariant debug.sawChallenge == old(debug.sawChallenge) && debug.requestCmd == old(debug.requestCmd)
        invariant old(debug.tries) == tryIndex ==> debug.tries == tryIndex
        decreases radio.interruptions, if radio.time < end then end - radio.time else 0
      {
        ghost var before := radio.log;
        var pending, ok, packet := ListenTurn(deadline, radio.exchangeSlice, end, since, start, channel);
        if !pending {
          break;
        }
        if !ok {
          continue;
        }
        FirstHeard(SessionOf(request, freq), before, base, packet);
        ok, rx := ParseInto(packet, rx);
        if !ok {
          RecordDebug("first_parse_fail", tryIndex, false);
          continue;
        }
        disposition := ClassifyFirst(request, rx);
        if disposition == IgnoreFirst {
          RecordDebug("first_wrong_exchange", tryIndex, false);
          continue;
        }
        ghost var top := radio.time;
        var firstResponseMs := radio.Millis();
        AttendingEnds(radio.listens, since, start, top, radio.time);
        return;
      }
      RecordDebug("wait_first_timeout", tryIndex, false);
      disposition := IgnoreFirst;
    }

    method WaitForFinalResponse(request: IoFrame, ghost freq: nat, tryIndex: nat, rx0: IoFrame, ghost base: nat)
      returns (accepted: bool, rx: IoFrame)
      requires radio.Valid()
      requires base <= |radio.log| && Observed(request, freq, base).stage == AwaitFinal
      modifies radio`time, radio`interruptions, radio`listens, radio`frequency, radio`log, this`debug
      ensures old(radio.log) <= radio.log && radio.Listened(old(|radio.listens|), old(radio.time))
      ensures Sweeping(radio.listens, old(|radio.listens|), old(radio.frequency))
      ensures var o := old(Observed(request, freq, base));
              Observed(request, freq, base) == if accepted then o.(stage := Finished(rx)) else o
      ensures debug.requestCmd == old(debug.requestCmd)
      ensures old(debug.sawChallenge) ==> debug.sawChallenge
      ensures old(debug.tries) == tryIndex ==> debug.tries == tryIndex
      ensures old(radio.time) <= radio.time <= old(radio.time) + 500 + Overrun(radio.exchangeSlice)
      ensures !accepted ==> old(radio.time) + 500 <= radio.time
    {
      hide U32, Observe, Parse, RequestPreamble, Attentive, Sweeping, SweepsOn;
      rx := rx0;
      ghost var since, start, channel := |radio.listens|, radio.time, radio.frequency;
      var deadline, end := DeadlineIn(RESPONSE_AUTH_WAIT_MS);
      AttendingBegins(radio.listens, start, radio.time);
      SweepBegins(radio.listens, channel);
      ghost var o := Observed(request, freq, base);
      while true
        invariant radio.time <= end + radio.exchangeSlice + radio.overhead + 2 * radio.lag
        invariant end <= radio.time + RESPONSE_AUTH_WAIT_MS && old(radio.time) <= radio.time
        invariant old(radio.log) <= radio.log && Observed(request, freq, base) == o
        invariant Turning(since, start, channel, end)
        invariant debug.requestCmd == old(debug.requestCmd) && (old(debug.sawChallenge) ==> debug.sawChallenge)
        invariant old(debug.tries) == tryIndex ==> debug.tries == tryIndex
        decreases radio.interruptions, if radio.time < end then end - radio.time else 0
      {
        ghost var before := radio.log;
        var pending, ok, packet := ListenTurn(deadline, radio.exchangeSlice, end, since, start, channel);
        if !pending {
          break;
        }
        if !ok {
          continue;
        }
        FinalHeard(SessionOf(request, freq), before, base, packet);
        ok, rx := ParseInto(packet, rx);
        if !ok {
          RecordDebug("final_parse_fail", tryIndex, true);
          continue;
        }
        if MatchesExchange(request, rx) {
          AttendingEnds(radio.listens, since, start, radio.time, radio.time);
          return true, rx;
        }
        RecordDebug("final_wrong_exchange", tryIndex, true);
      }
      RecordDebug("wait_final_timeout", tryIndex, true);
      accepted := false;
    }

    /** Answers the challenge in `challenge`, with the code over the request. */
    method HandleAuthentication(request: IoFrame, freq: nat, tryIndex: nat, challenge: Challenge, ghost base: nat)
      returns (ok: bool)
      requires request.dataLen <= FRAME_MAX_DATA_SIZE
      requires base <= |radio.log| && Observed(request, freq, base).stage == Challenged(challenge)
      modifies radio`time, radio`frequency, radio`log, radio`levels, this`debug
      ensures old(radio.log) <= radio.log
      ensures var o := old(Observed(request, freq, base));
              Observed(request, freq, base) ==
              o.(responses := o.responses + 1, stage := if ok then AwaitFinal else Idle)
      ensures debug.requestCmd == old(debug.requestCmd) && debug.sawChallenge && debug.tries == tryIndex
      ensures old(radio.time) <= radio.time && (ok ==> radio.frequency == freq)
    {
      hide Observe, ChallengeResponse, Wire, Next, ResponseWire, Serializable, RequestPreamble;
      RecordDebug("build_auth_response", tryIndex, true);
      var built, response := CreateChallengeResponse(request.dst, node, challenge, request, key);
      RecordDebug("tx_auth_response", tryIndex, true);
      ghost var before := radio.log;
      ResponseSerializes(SessionOf(request, freq), challenge);
      ok := TransmitFrame(response, freq, radio.responsePreamble);
      ghost var e := Tx(Wire(response), freq, radio.responsePreamble, ok);
      ResponseNext(SessionOf(request, freq), old(Observed(request, freq, base)), challenge, e);
      ObserveNext(SessionOf(request, freq), before, base, e);
      if !ok {
        RecordDebug("tx_auth_failed", tryIndex, true);
      }
    }

    /** Where an attempt, or the whole exchange, leaves the observer and the debug snapshot. */
    ghost predicate Concluded(o: Seen, ok: bool, response: IoFrame)
      reads this`debug
    {
      && (if ok then o.stage == Finished(response) else Listening(o))
      && (debug.sawChallenge <==> o.challenges > 0)
    }

    /** One turn of the retry loop.  `from` is when its last wait began, and `since` the number of waits before
        that one.  An attempt that fails after its last send went out has listened for the whole window: 300 ms
        for the first response to a frame that starts an exchange, 500 ms for any other response. */
    method Attempt(request: IoFrame, freq: nat, preamble: nat, tries: nat, ghost base: nat)
      returns (ok: bool, rx: IoFrame, ghost since: nat, ghost from: nat)
      requires radio.Valid() && preamble == RequestPreamble(request)
      requires base <= |radio.log| && Observed(request, freq, base).requests < EXCHANGE_RETRY_COUNT
      requires Concluded(Observed(request, freq, base), false, ZERO_FRAME)
      modifies radio`time, radio`interruptions, radio`listens, radio`frequency, radio`log, radio`levels, this`debug
      ensures old(radio.log) <= radio.log
      ensures old(radio.time) + (if tries > 0 then 250 else 0) <= from <= radio.time
      ensures ok ==> radio.Listened(since, from)
      ensures var st := Observed(request, freq, base).stage;
              ok || (Serializable(request) && (st == AwaitFirst || st == AwaitFinal)) ==>
                Sweeping(radio.listens, since, freq)
      ensures !ok && Serializable(request) ==>
                var st := Observed(request, freq, base).stage;
                && (st == AwaitFirst ==> Waited(since, from, if IsStart(request) then 300 else 500))
                && (st == AwaitFinal ==> Waited(since, from, 500))
      ensures Observed(request, freq, base).requests ==
              old(Observed(request, freq, base)).requests + if Serializable(request) then 1 else 0
      ensures Concluded(Observed(request, freq, base), ok, rx)
      ensures debug.requestCmd == old(debug.requestCmd) && debug.tries == tries + 1
    {
      hide Observe, Next, Hear, Wire, Parse, Serializable, ClassifyFirst, MatchesExchange, Authentic, IsStart,
           SessionOf, RequestPreamble, Attentive, Sweeping, SweepsOn;
      ok, rx := false, ZERO_FRAME;
      var waitMs := if IsStart(request) then RESPONSE_START_WAIT_MS else RESPONSE_WAIT_MS;
      if tries > 0 {
        radio.Delay(EXCHANGE_RETRY_DELAY_MS);
      }
      var sent := TransmitRequest(request, freq, preamble, tries + 1, base);
      since, from := |radio.listens|, radio.time;
      if !sent {
        return;
      }
      RecordDebug("wait_first_response", tries + 1, false);
      var disposition;
      disposition, rx := WaitForFirstResponse(request, freq, tries + 1, waitMs, rx, base);
      if disposition == IgnoreFirst {
        return;
      }
      if disposition == CompleteDirect {
        RecordDebug("success_direct", tries + 1, false);
        ok := true;
        return;
      }
      var answered := HandleAuthentication(request, freq, tries + 1, rx.data[..6], base);
      since, from := |radio.listens|, radio.time;
      if !answered {
        return;
      }
      RecordDebug("wait_final_response", tries + 1, true);
      ok, rx := WaitForFinalResponse(request, freq, tries + 1, rx, base);
      if ok {
        RecordDebug("success_auth", tries + 1, true);
      }
    }

    /** Up to three attempts.  What goes on the air is orderly for the observer, the result is the packet
        that finished the exchange, and the debug snapshot has seen a challenge exactly if there was one.  When
        every packet went out, failure comes only after three full windows and two retry delays. */
    method SendAndReceive(request: IoFrame, response0: IoFrame, freq: nat) returns (ok: bool, response: IoFrame)
      requires radio.Valid()
      modifies radio`time, radio`interruptions, radio`listens, radio`frequency, radio`log, radio`levels, this`debug
      ensures old(radio.log) <= radio.log && old(radio.time) <= radio.time
      ensures !ok ==> old(radio.time) + 2 * 250 <= radio.time
      ensures !ok && Serializable(request) && AllSent(radio.log, old(|radio.log|)) ==>
                old(radio.time) + 3 * (if IsStart(request) then 300 else 500) + 2 * 250
                <= radio.time
      ensures Concluded(Observed(request, freq, old(|radio.log|)), ok, response)
      ensures !ok ==> response == response0
      ensures !ok && Serializable(request) ==>
                Observed(request, freq, old(|radio.log|)).requests == EXCHANGE_RETRY_COUNT
      ensures debug.requestCmd == request.cmd && (!ok ==> debug.tries == EXCHANGE_RETRY_COUNT)
    {
      hide Observe, IsStart, Serializable, RequestPreamble, Attentive, Sweeping, SweepsOn;
      ghost var base := |radio.log|;
      assert Observed(request, freq, base) == NOTHING by {
        assert radio.log[base..] == [];
        ObserveNothing(SessionOf(request, freq));
      }
      ResetDebug(request.cmd);
      var preamble := RequestPreamble(request);
      for tries := 0 to EXCHANGE_RETRY_COUNT
        invariant old(radio.log) <= radio.log && old(radio.time) <= radio.time
        invariant tries > 1 ==> old(radio.time) + (tries - 1) * EXCHANGE_RETRY_DELAY_MS <= radio.time
        invariant tries > 0 && Serializable(request) && AllSent(radio.log, base) ==>
                    old(radio.time) + (if IsStart(request) then 300 * tries else 500 * tries)
                    + (tries - 1) * EXCHANGE_RETRY_DELAY_MS <= radio.time
        invariant Observed(request, freq, base).requests == (if Serializable(request) then tries else 0)
        invariant Concluded(Observed(request, freq, base), false, ZERO_FRAME)
        invariant debug.requestCmd == request.cmd && (tries > 0 ==> debug.tries == tries)
      {
        ghost var before := radio.log;
        ghost var since, from;
        ok, response, since, from := Attempt(request, freq, preamble, tries, base);
        if ok {
          return;
        }
        FailedAttempt(request, freq, base, before);
      }
      return false, response0;
    }

    /** When all was sent, a failed attempt ended while a response was awaited, and all before it was sent. */
    lemma FailedAttempt(request: IoFrame, freq: nat, base: nat, before: seq<Event>)
      requires base <= |before| && before <= radio.log && Listening(Observed(request, freq, base))
      ensures AllSent(radio.log, base) ==> AllSent(before, base)
      ensures AllSent(radio.log, base) && Observed(request, freq, base).requests > 0 ==>
                Observed(request, freq, base).stage != Idle
    {
      hide Observe;
      if AllSent(radio.log, base) {
        forall i | base <= i < |before| && before[i].Tx?
          ensures before[i].ok
        {
          assert radio.log[i] == before[i];
        }
        if base == |radio.log| {
          assert radio.log[base..] == [];
          ObserveNothing(SessionOf(request, freq));
        } else if Observed(request, freq, base).stage == Idle {
          IdleMeansUnsent(SessionOf(request, freq), radio.log, base);
        }
      }
    }

    // ---- Inbound authentication

    lemma QuestionSerializes(dst: NodeId, challenge: Challenge)
      ensures Serializable(ChallengeRequest(dst, node, challenge))
      ensures ChallengeRequest(dst, node, challenge).dataLen <= FRAME_MAX_DATA_SIZE
    {
      BuiltSerializes(Addressed(true, false, true, dst, node), CMD_CHALLENGE_REQ, challenge);
    }

    /** The log grew by the challenge and one packet, which answers it. */
    ghost predicate Authenticated(before: seq<Event>, after: seq<Event>, request: IoFrame, freq: nat,
                                  challenge: Challenge)
      requires request.dataLen <= FRAME_MAX_DATA_SIZE
    {
      var n := |before|;
      && |after| == n + 2 && after[..n] == before
      && after[n] == Tx(Wire(ChallengeRequest(request.src, node, challenge)), freq, 8, true)
      && after[n + 1].Rx? && Authentic(after[n + 1].heard, request, challenge, key)
    }

    /** Challenges the sender of a request and accepts it exactly if the one packet heard in the window
        authenticates the request against that challenge.  The challenge is always sent; when it went out one wait
        of 500 ms follows, which ends earlier only with a packet or an interruption. */
    method AuthenticateRequest(request: IoFrame, freq: nat, challenge: Challenge) returns (ok: bool)
      requires request.dataLen <= FRAME_MAX_DATA_SIZE
      modifies radio`time, radio`interruptions, radio`listens, radio`frequency, radio`log, radio`levels, this`debug
      ensures ok <==> Authenticated(old(radio.log), radio.log, request, freq, challenge)
      ensures var n := |old(radio.log)|;
              && old(radio.log) <= radio.log && n < |radio.log| <= n + 2 && radio.log[n].Tx?
              && radio.log[n] == Tx(Wire(ChallengeRequest(request.src, node, challenge)), freq, 8, radio.log[n].ok)
              && (if radio.log[n].ok then
                    && |radio.listens| == |old(radio.listens)| + 1
                    && var l := radio.listens[|old(radio.listens)|];
                    (|radio.log| == n + 1 && radio.interruptions == old(radio.interruptions) ==> l.from + 500 <= l.to)
                  else |radio.log| == n + 1)
    {
      hide Parse, Wire, Serializable, ChallengeRequest, Crypto.Hmac;
      RecordDebug("tx_challenge", 1, true);
      QuestionSerializes(request.src, challenge);
      var built, question := CreateChallengeRequest(request.src, node, challenge);
      var sent := TransmitFrame(question, freq, SHORT_PREAMBLE);
      if !sent {
        RecordDebug("failed", 1, true);
        return false;
      }
      RecordDebug("wait_challenge_response", 1, true);
      var heard, packet := radio.WaitForPacket(RESPONSE_WAIT_MS);
      if !heard {
        RecordDebug("failed", 1, true);
        return false;
      }
      var parsed, rx := ParseInto(packet, ZERO_FRAME);
      if !parsed || rx.cmd != CMD_CHALLENGE_RESP {
        RecordDebug("failed", 1, true);
        return false;
      }
      ok := Crypto.VerifyHmac(Transcript(request), rx.data[..6], challenge, key);
      RecordDebug(if ok then "verified" else "failed", 1, true);
    }
  }
}
