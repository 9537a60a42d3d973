/** The pairing engine of pairing_engine.cpp: the three wait loops, discovery, key exchange, final
    configuration, and the orchestration with its registry and telemetry effects. */
module Pairing {
  import opened Bytes
  import opened Clock
  import opened Commands
  import opened Frame
  import opened Decisions
  import opened CommandFrames
  import opened Radio
  import X = ExchangeTrace
  import opened PairingTrace
  import R = PairingRuns
  import O = PairingOrigins
  import E = Exchange
  import Crypto

  const PREAMBLE_DWELL_MS: nat := 15
  const PAIRING_KEY_CHALLENGE_TIMEOUT_MS: nat := 500
  const PAIRING_KEY_CONFIRM_TIMEOUT_MS: nat := 500
  const PAIRING_KEY_CONFIRM_SLICE_MS: nat := 150
  const RESPONSE_CHANNEL_WAIT_MS: nat := 50
  const DEVICE_METADATA_SIZE: nat := 2

  /** A discovered device: its address and the packed type and subtype bytes, when it sent them. */
  datatype Device = Device(nodeId: NodeId, metadata: seq<byte>)

  /** The device table, keyed by address. */
  class Registry {
    var devices: map<NodeId, Device>

    constructor ()
      ensures devices == map[]
    {
      devices := map[];
    }

    method Put(device: Device)
      modifies this
      ensures devices == old(devices)[device.nodeId := device]
    {
      devices := devices[device.nodeId := device];
    }
  }

  function DeviceFromDiscovery(f: IoFrame): Device {
    Device(f.src, if f.dataLen >= DEVICE_METADATA_SIZE then f.data[..DEVICE_METADATA_SIZE] else [])
  }

  class PairingEngine {
    const radio: RadioDriver
    const engine: E.Engine
    const registry: Registry
    const telemetry: E.Telemetry
    const tuning: Tuning

    constructor (engine: E.Engine, registry: Registry, telemetry: E.Telemetry, tuning: Tuning)
      ensures this.radio == engine.radio && this.engine == engine && this.registry == registry
      ensures this.telemetry == telemetry && this.tuning == tuning
    {
      this.radio := engine.radio;
      this.engine := engine;
      this.registry := registry;
      this.telemetry := telemetry;
      this.tuning := tuning;
    }

    predicate Valid() {
      engine.radio == radio && radio.Valid() && tuning.waitMs < 0x1_0000
    }

    ghost function Self(): Pairer {
      Pairer(engine.node, engine.key, tuning, radio.fastTurnaround, radio.responsePreamble)
    }

    /** Where the observer stands, watching from index `base` of the radio's log. */
    ghost function Watched(base: nat): Stage
      requires base <= |radio.log|
      reads radio`log
    {
      Watch(Self(), radio.log[base..])
    }

    /** The last packet on the log is the discovery response that ended the search. */
    ghost predicate LastEndsSearch(base: nat, f: IoFrame)
      reads radio`log
    {
      base < |radio.log| && O.EndsSearch(Self(), radio.log[base..], |radio.log| - 1 - base, f)
    }

    // ---- Wait loops

    /** Waits for one packet, for at most the slice or what is left until the deadline, and classifies it. */
    method HearDiscovery(deadline: nat, slice: nat, rx0: IoFrame, ghost end: nat, ghost base: nat)
      returns (heard: bool, accepted: bool, rx: IoFrame)
      requires Valid() && 0 < slice < 0x1000_0000 && deadline == U32(end)
      requires radio.time < end + 0x7000_0000 && end < radio.time + 0x7000_0000
      requires base <= |radio.log| && Watched(base).Searching? && Watched(base).sends > 0
      modifies radio`time, radio`interruptions, radio`listens, radio`log
      ensures old(radio.time) <= radio.time
      ensures radio.time <=
              (if old(radio.time) < end then end else old(radio.time)) + slice + radio.lag + radio.overhead
      ensures radio.interruptions < old(radio.interruptions) ||
              (radio.interruptions == old(radio.interruptions) && !heard
               && (old(radio.time) < end ==> old(radio.time) < radio.time))
      ensures old(radio.log) <= radio.log && |radio.log| == |old(radio.log)| + (if heard then 1 else 0)
      ensures heard <==> !Silent(radio.log, |old(radio.log)|)
      ensures |radio.listens| == |old(radio.listens)| + 1 && radio.listens[..|old(radio.listens)|] == old(radio.listens)
      ensures var l := radio.listens[|old(radio.listens)|];
              l.from <= old(radio.time) + radio.lag && radio.time == l.to && l.channel == radio.frequency
      ensures accepted ==> heard
      ensures Watched(base) == if accepted then Discovered(rx) else old(Watched(base))
      ensures accepted ==> IsDiscoveryResponse(rx) && LastEndsSearch(base, rx)
    {
      hide Watch, Parse, U32;
      rx := rx0;
      ghost var before := radio.log;
      var timeoutMs := engine.NextSlice(deadline, slice, end);
      var packet;
      heard, packet := radio.WaitForPacket(timeoutMs);
      if !heard {
        return false, false, rx;
      }
      WatchHeard(Self(), before, base, packet);
      assert radio.log[|before|].Rx?;
      accepted, rx := ParseInto(packet, rx);
      accepted := accepted && IsDiscoveryResponse(rx);
      assert radio.log[base..][..|before| - base] == before[base..];
    }

    /** One more wait, whose end the engine has just reached. */
    lemma HeardNext(before: seq<Listen>, after: seq<Listen>, base: nat, from: nat, top: nat, at: nat)
      requires Valid() && base <= |before| && |after| == |before| + 1 && after[..|before|] == before
      requires Attentive(before, base, from, top, radio.Gap(), radio.overhead + radio.lag)
      requires at <= top + radio.lag && after[|before|].from <= at + radio.lag
      ensures Attentive(after, base, from, after[|before|].to, radio.Gap(), 0)
    {
      hide Attentive;
      var l := after[|before|];
      AttentiveUntil(before, base, from, top, radio.Gap(), radio.overhead + radio.lag, l.from, radio.Gap());
      AttentiveNext(before, base, from, l.to, radio.Gap(), 0, l);
      assert after == before + [l];
    }

    /** What may pass after it until the next turn, or the end. */
    lemma Rested(listens: seq<Listen>, base: nat, from: nat, end: nat, to: nat)
      requires Valid() && Attentive(listens, base, from, end, radio.Gap(), 0)
      requires end <= to <= end + radio.overhead + radio.lag
      ensures Attentive(listens, base, from, to, radio.Gap(), radio.overhead + radio.lag)
      ensures Attentive(listens, base, from, to, radio.Gap(), radio.Gap())
    {
      hide Attentive;
      AttentiveUntil(listens, base, from, end, radio.Gap(), 0, to, radio.overhead + radio.lag);
      AttentiveUntil(listens, base, from, end, radio.Gap(), 0, to, radio.Gap());
    }

    lemma StillSilent(log: seq<Event>)
      ensures Silent(log, |log|)
    {
    }

    /** Hops unless a frame seems to be arriving. */
    method HopUnlessReceiving() returns (hopped: bool)
      requires engine.radio == radio
      modifies radio`time, radio`frequency, radio`detections
      ensures old(radio.time) <= radio.time <= old(radio.time) + radio.overhead
      ensures old(radio.detections) <= radio.detections
      ensures hopped <==> Quiet(radio.detections, old(|radio.detections|))
      ensures radio.frequency == if hopped then NextChannel(old(radio.frequency)) else old(radio.frequency)
    {
      var preamble := radio.IsReceiving();
      if preamble {
        assert radio.detections[old(|radio.detections|)];
        return false;
      }
      var sync := radio.IsReceiving();
      if sync {
        assert radio.detections[old(|radio.detections|) + 1];
        return false;
      }
      engine.HopFrequency();
      hopped := true;
    }

    /** The rest of a turn that brought nothing: a hop, unless a frame seems to be arriving; then a little longer
        on the same channel.  `top` is when the last wait ended. */
    method HopOrDwell(deadline: nat, rx0: IoFrame, ghost end: nat, ghost base: nat, ghost since: nat,
                      ghost start: nat, ghost top: nat)
      returns (heard: bool, accepted: bool, rx: IoFrame)
      requires Valid() && deadline == U32(end) && radio.time < end < radio.time + 0x2000_0000
      requires base <= |radio.log| && Watched(base).Searching? && Watched(base).sends > 0
      requires since <= |radio.listens| && Attentive(radio.listens, since, start, top, radio.Gap(), 0)
      requires top <= radio.time <= top + radio.lag
      modifies radio`time, radio`interruptions, radio`listens, radio`frequency, radio`log, radio`detections
      ensures old(radio.time) <= radio.time <= end + 15 + radio.lag + 2 * radio.overhead
      ensures radio.interruptions < old(radio.interruptions) ||
              (radio.interruptions == old(radio.interruptions) && !heard)
      ensures old(radio.log) <= radio.log && |radio.log| == |old(radio.log)| + (if heard then 1 else 0)
      ensures heard <==> !Silent(radio.log, |old(radio.log)|)
      ensures accepted ==> heard
      ensures Watched(base) == if accepted then Discovered(rx) else old(Watched(base))
      ensures accepted ==> IsDiscoveryResponse(rx) && LastEndsSearch(base, rx)
      ensures since <= |radio.listens| && engine.Attending(since, start)
      ensures radio.Listened(since, start)
      ensures old(radio.detections) <= radio.detections
      ensures Quiet(radio.detections, old(|radio.detections|)) ==>
                radio.listens == old(radio.listens) && radio.frequency == NextChannel(old(radio.frequency))
    {
      hide U32, Watch, Discovered, IsDiscoveryResponse, Attentive, Silent;
      rx := rx0;
      assert Silent(radio.log, |radio.log|) by { StillSilent(radio.log); }
      ghost var listens := radio.listens;
      var hopped := HopUnlessReceiving();
      Rested(listens, since, start, top, radio.time);
      if hopped {
        return false, false, rx;
      }
      ghost var at := radio.time;
      heard, accepted, rx := HearDiscovery(deadline, PREAMBLE_DWELL_MS, rx, end, base);
      HeardNext(listens, radio.listens, since, start, at, at);
      Rested(radio.listens, since, start, radio.time, radio.time);
    }

    /** As long as no frame seemed to be arriving since index `quiet` of the detections: the waits from index `since`
        on, which began on `channel`, change channel every time, and so will the next one. */
    ghost predicate Roams(since: nat, channel: nat, quiet: nat, end: nat)
      reads radio`time, radio`listens, radio`frequency, radio`detections
    {
      Quiet(radio.detections, quiet) ==>
        && Roaming(radio.listens, since, channel)
        && (radio.time < end ==> radio.frequency == RoamsOn(radio.listens, since, channel))
    }

    /** One turn of the search for a response; `more` when the loop goes on or a response was accepted. */
    method DiscoveryTurn(deadline: nat, rx0: IoFrame, ghost end: nat, ghost base: nat, ghost since: nat,
                         ghost start: nat, ghost channel: nat, ghost quiet: nat)
      returns (more: bool, heard: bool, accepted: bool, rx: IoFrame)
      requires Valid() && deadline == U32(end) && end < radio.time + 0x2000_0000
      requires radio.time <= end + radio.discoverySlice + 2 * radio.overhead + PREAMBLE_DWELL_MS + 4 * radio.lag
      requires base <= |radio.log| && Watched(base).Searching? && Watched(base).sends > 0
      requires since <= |radio.listens| && engine.Attending(since, start)
      requires quiet <= |radio.detections| && Roams(since, channel, quiet, end)
      modifies radio`time, radio`interruptions, radio`listens, radio`frequency, radio`log, radio`detections
      ensures old(radio.time) <= radio.time
      ensures radio.time <= end + radio.discoverySlice + 2 * radio.overhead + 15
                            + (if more then 4 else 5) * radio.lag
      ensures !more ==> end <= radio.time && !heard
      ensures old(radio.log) <= radio.log && |radio.log| == |old(radio.log)| + (if heard then 1 else 0)
      ensures heard <==> !Silent(radio.log, |old(radio.log)|)
      ensures accepted ==> heard
      ensures Watched(base) == if accepted then Discovered(rx) else old(Watched(base))
      ensures accepted ==> IsDiscoveryResponse(rx) && LastEndsSearch(base, rx)
      ensures since <= |radio.listens| && (more ==> engine.Attending(since, start))
      ensures !more || accepted ==> radio.Listened(since, start)
      ensures quiet <= |radio.detections| && (more && !accepted ==> Roams(since, channel, quiet, end))
      ensures Quiet(radio.detections, quiet) ==> Roaming(radio.listens, since, channel)
      ensures more ==> radio.interruptions < old(radio.interruptions) ||
                       (radio.interruptions == old(radio.interruptions)
                        && old(radio.time) < end && old(radio.time) < radio.time)
    {
      hide U32, Watch, Discovered, IsDiscoveryResponse, Attentive, Roaming, RoamsOn, Quiet, Silent;
      ghost var detections := radio.detections;
      more, heard, accepted, rx := true, false, false, rx0;
      StillSilent(radio.log);
      ghost var listens, top := radio.listens, radio.time;
      var pending := engine.Pending(deadline, end);
      if !pending {
        engine.AttendingEnds(listens, since, start, top, radio.time);
        more := false;
        return;
      }
      ghost var at := radio.time;
      heard, accepted, rx := HearDiscovery(deadline, radio.discoverySlice, rx, end, base);
      HeardNext(listens, radio.listens, since, start, top, at);
      assert radio.listens == listens + [radio.listens[|listens|]];
      if Quiet(detections, quiet) {
        RoamNext(listens, since, channel, radio.listens[|listens|]);
      }
      listens, top := radio.listens, radio.time;
      if accepted {
        Rested(listens, since, start, top, radio.time);
        return;
      }
      pending := engine.Pending(deadline, end);
      if heard {
        if pending {
          var _ := HopUnlessReceiving();
          QuietBefore(detections, radio.detections, quiet);
        }
        Rested(listens, since, start, top, radio.time);
        return;
      }
      Rested(listens, since, start, top, radio.time);
      if !pending {
        more := false;
        return;
      }
      heard, accepted, rx := HopOrDwell(deadline, rx, end, base, since, start, top);
      QuietBefore(detections, radio.detections, quiet);
    }

    method WaitForDiscoveryResponse(timeoutMs: nat, rx0: IoFrame, ghost base: nat)
      returns (disposition: Discovery, rx: IoFrame)
      requires Valid() && timeoutMs < 0x1_0000
      requires base <= |radio.log| && Watched(base).Searching? && Watched(base).sends > 0
      modifies radio`time, radio`interruptions, radio`listens, radio`frequency, radio`log, radio`detections
      ensures old(radio.time) <= radio.time
      ensures old(radio.log) <= radio.log && radio.Listened(old(|radio.listens|), old(radio.time))
      ensures Watched(base) ==
              if disposition == Accept then Discovered(rx) else old(Watched(base))
      ensures disposition == Accept ==> IsDiscoveryResponse(rx) && LastEndsSearch(base, rx)
      ensures disposition == NoResponse ==> radio.log == old(radio.log)
      ensures disposition != NoResponse ==> !Silent(radio.log, |old(radio.log)|)
      ensures radio.time <= old(radio.time) + timeoutMs + radio.discoverySlice + 2 * radio.overhead
                            + 15 + 6 * radio.lag
      ensures disposition != Accept ==> old(radio.time) + timeoutMs <= radio.time
      ensures Quiet(radio.detections, old(|radio.detections|)) ==>
                Roaming(radio.listens, old(|radio.listens|), old(radio.frequency))
    {
      hide U32, Watch, Discovered, IsDiscoveryResponse, Attentive, Roaming, RoamsOn, Quiet, Silent;
      ghost var since, start, channel, quiet := |radio.listens|, radio.time, radio.frequency, |radio.detections|;
      rx := rx0;
      var sawTraffic := false;
      var deadline, end := engine.DeadlineIn(timeoutMs);
      engine.AttendingBegins(radio.listens, start, radio.time);
      SweepBegins(radio.listens, channel);
      ghost var stage := Watched(base);
      while true
        invariant radio.time <= end + radio.discoverySlice + 2 * radio.overhead + PREAMBLE_DWELL_MS + 4 * radio.lag
        invariant end <= radio.time + timeoutMs
        invariant old(radio.time) <= radio.time
        invariant old(radio.log) <= radio.log && Watched(base) == stage
        invariant since <= |radio.listens| && engine.Attending(since, start)
        invariant quiet <= |radio.detections| && Roams(since, channel, quiet, end)
        invariant if sawTraffic then !Silent(radio.log, |old(radio.log)|) else radio.log == old(radio.log)
        decreases radio.interruptions, if radio.time < end then end - radio.time else 0
      {
        ghost var before := radio.log;
        var more, heard, accepted;
        more, heard, accepted, rx := DiscoveryTurn(deadline, rx, end, base, since, start, channel, quiet);
        SentBefore(before, radio.log, |old(radio.log)|);
        if !more {
          break;
        }
        if accepted {
          return Accept, rx;
        }
        sawTraffic := sawTraffic || heard;
      }
      disposition := if sawTraffic then Invalid else NoResponse;
    }

    /** Waits for the device's challenge, or for a confirmation sent straight away. */
    method WaitForKeyChallenge(timeoutMs: nat, rx0: IoFrame, device: NodeId, ghost base: nat)
      returns (ok: bool, rx: IoFrame)
      requires Valid() && timeoutMs < 0x1_0000
      requires base <= |radio.log| && AwaitsKeyPacket(Watched(base), device)
      modifies radio`time, radio`interruptions, radio`listens, radio`log
      ensures old(radio.log) <= radio.log && radio.Listened(old(|radio.listens|), old(radio.time))
      ensures Watched(base) == if ok then HearFrame(Self(), old(Watched(base)), rx) else old(Watched(base))
      ensures ok ==> |old(radio.log)| < |radio.log| && radio.log[|radio.log| - 1].Rx?
      ensures ok ==> IsKeyConfirm(rx, device, engine.node) || IsKeyChallenge(rx, device, engine.node)
      ensures old(radio.time) <= radio.time
      ensures radio.time <= old(radio.time) + timeoutMs + 50 + radio.overhead + 4 * radio.lag
      ensures !ok ==> old(radio.time) + timeoutMs <= radio.time
    {
      hide U32, Watch, Parse, Attentive;
      ghost var since, start := |radio.listens|, radio.time;
      rx := rx0;
      var deadline, end := engine.DeadlineIn(timeoutMs);
      engine.AttendingBegins(radio.listens, start, radio.time);
      ghost var stage := Watched(base);
      while true
        invariant radio.time <= end + RESPONSE_CHANNEL_WAIT_MS + radio.overhead + 2 * radio.lag
        invariant end <= radio.time + timeoutMs && old(radio.time) <= radio.time
        invariant old(radio.log) <= radio.log && Watched(base) == stage
        invariant since <= |radio.listens| && engine.Attending(since, start)
        decreases radio.interruptions, if radio.time < end then end - radio.time else 0
      {
        ghost var before, listens, top := radio.log, radio.listens, radio.time;
        var pending := engine.Pending(deadline, end);
        if !pending {
          engine.AttendingEnds(listens, since, start, top, radio.time);
          break;
        }
        ghost var at := radio.time;
        var slice := engine.NextSlice(deadline, RESPONSE_CHANNEL_WAIT_MS, end);
        var heard, packet := radio.WaitForPacket(slice);
        HeardNext(listens, radio.listens, since, start, top, at);
        Rested(radio.listens, since, start, radio.time, radio.time);
        if !heard {
          continue;
        }
        WatchHeard(Self(), before, base, packet);
        ok, rx := ParseInto(packet, rx);
        if !ok {
          continue;
        }
        if IsKeyConfirm(rx, device, engine.node) {
          return;
        }
        if !IsKeyChallenge(rx, device, engine.node) {
          continue;
        }
        return;
      }
      ok := false;
    }

    /** Waits after one key transfer; `refused` when the device answered something else. */
    method WaitForConfirm(device: NodeId, resp0: IoFrame, ghost base: nat)
      returns (confirmed: bool, refused: bool, resp: IoFrame)
      requires Valid()
      requires base <= |radio.log| && SendsKey(Watched(base), device)
      modifies radio`time, radio`interruptions, radio`listens, radio`frequency, radio`log
      ensures old(radio.time) <= radio.time
      ensures radio.Listened(old(|radio.listens|), old(radio.time))
      ensures Sweeping(radio.listens, old(|radio.listens|), old(radio.frequency))
      ensures old(radio.log) <= radio.log && !(confirmed && refused)
      ensures confirmed || refused ==> Watched(base) == HearFrame(Self(), old(Watched(base)), resp)
      ensures !confirmed && !refused ==> Watched(base) == old(Watched(base))
      ensures confirmed ==> IsKeyConfirm(resp, device, engine.node)
      ensures refused ==> MatchesNodes(resp, device, engine.node) && resp.cmd != CMD_KEY_CONFIRM
      ensures confirmed || refused ==> |old(radio.log)| < |radio.log| && radio.log[|radio.log| - 1].Rx?
      ensures radio.time <=
              old(radio.time) + 500 + engine.Overrun(150)
      ensures !confirmed && !refused ==> old(radio.time) + 500 <= radio.time
    {
      hide U32, Watch, Parse, Attentive, Sweeping, SweepsOn;
      ghost var since, start, channel := |radio.listens|, radio.time, radio.frequency;
      resp := resp0;
      var deadline, end := engine.DeadlineIn(PAIRING_KEY_CONFIRM_TIMEOUT_MS);
      engine.AttendingBegins(radio.listens, start, radio.time);
      SweepBegins(radio.listens, channel);
      ghost var stage := Watched(base);
      while true
        invariant radio.time <= end + PAIRING_KEY_CONFIRM_SLICE_MS + radio.overhead + 2 * radio.lag
        invariant end <= radio.time + PAIRING_KEY_CONFIRM_TIMEOUT_MS
        invariant old(radio.time) <= radio.time
        invariant old(radio.log) <= radio.log && Watched(base) == stage
        invariant engine.Turning(since, start, channel, end)
        decreases radio.interruptions, if radio.time < end then end - radio.time else 0
      {
        ghost var before := radio.log;
        var pending, heard, packet :=
          engine.ListenTurn(deadline, PAIRING_KEY_CONFIRM_SLICE_MS, end, since, start, channel);
        if !pending {
          break;
        }
        if !heard {
          continue;
        }
        WatchHeard(Self(), before, base, packet);
        var ok;
        ok, resp := ParseInto(packet, resp);
        if !ok || !MatchesNodes(resp, device, engine.node) {
          continue;
        }
        engine.AttendingEnds(radio.listens, since, start, radio.time, radio.time);
        if resp.cmd == CMD_KEY_CONFIRM {
          return true, false, resp;
        }
        return false, true, resp;
      }
      confirmed, refused := false, false;
    }

    /** What holds of a log since an index held before it grew. */
    lemma SentBefore(before: seq<Event>, after: seq<Event>, base: nat)
      requires before <= after
      ensures AllSent(after, base) ==> AllSent(before, base)
      ensures Silent(after, base) ==> Silent(before, base)
      ensures |before| < |after| && base <= |before| && after[|before|].Tx? && !after[|before|].ok ==>
                !AllSent(after, base)
      ensures AllSent(after, base) && base <= |before| ==> AllSent(after, |before|)
      ensures Silent(after, base) && base <= |before| ==> Silent(after, |before|)
    {
      forall i | base <= i < |before|
        ensures before[i] == after[i]
      {
      }
    }

    lemma SentSilently(before: seq<Event>, after: seq<Event>, base: nat)
      requires before <= after && |after| == |before| + 1 && after[|before|].Tx?
      ensures Silent(after, base) <==> Silent(before, base)
    {
      SentBefore(before, after, base);
    }

    lemma HeardNotSilent(log: seq<Event>, base: nat, heard: bool)
      requires heard ==> base < |log| && log[|log| - 1].Rx?
      ensures heard ==> !Silent(log, base)
    {
    }

    /** Sends the key up to three times on a radio that is slow to listen again. */
    method WaitForKeyConfirm(request: IoFrame, device: NodeId, challenge: Challenge, ghost base: nat)
      returns (ok: bool)
      requires Valid() && request == TransferFrame(Self(), device, challenge)
      requires base <= |radio.log|
      requires Watched(base).Transferring? && Watched(base).device == device && Watched(base).challenge == challenge
      requires var st := Watched(base); st.transfers == 0 && st.retriggers == 0 && !st.refused
      modifies radio`time, radio`interruptions, radio`listens, radio`frequency, radio`log, radio`levels
      ensures old(radio.time) <= radio.time
      ensures old(radio.log) <= radio.log
      ensures var st := Watched(base);
              if ok then st == Confirmed(device, old(Watched(base)).attempt)
              else
                && st.Transferring? && st == old(Watched(base)).(transfers := st.transfers, refused := st.refused)
                && (st.refused || st.transfers == X.EXCHANGE_RETRY_COUNT)
      ensures !ok && !Watched(base).refused ==> old(radio.time) + 2 * 250 <= radio.time
      ensures !ok && !Watched(base).refused && AllSent(radio.log, old(|radio.log|)) ==>
                old(radio.time) + 3 * 500 + 2 * 250 <= radio.time
      ensures old(|radio.log|) < |radio.log|
      ensures !ok && Watched(base).refused ==> !Silent(radio.log, old(|radio.log|))
    {
      hide Watch, Wire, TransferFrame, AllSent, Silent;
      ghost var mid := |radio.log|;
      ghost var stage := Watched(base);
      var resp := ZERO_FRAME;
      for tries := 0 to X.EXCHANGE_RETRY_COUNT
        invariant old(radio.time) + (if tries > 1 then (tries - 1) * E.EXCHANGE_RETRY_DELAY_MS else 0) <= radio.time
        invariant old(radio.log) <= radio.log && Watched(base) == stage.(transfers := tries)
        invariant tries > 0 ==> mid < |radio.log|
        invariant tries > 0 && AllSent(radio.log, mid) ==>
                    old(radio.time) + 500 * tries + 250 * (tries - 1) <= radio.time
      {
        ghost var before := radio.log;
        if tries > 0 {
          radio.Delay(E.EXCHANGE_RETRY_DELAY_MS);
        }
        var sent := TransmitTransfer(request, device, challenge, base);
        SentBefore(before, radio.log, mid);
        if !sent {
          continue;
        }
        ghost var after := radio.log;
        var confirmed, refused;
        confirmed, refused, resp := WaitForConfirm(device, resp, base);
        SentBefore(after, radio.log, mid);
        SentBefore(before, radio.log, mid);
        if confirmed {
          return true;
        }
        if refused {
          return false;
        }
      }
      ok := false;
    }

    method TransmitTransfer(request: IoFrame, device: NodeId, challenge: Challenge, ghost base: nat) returns (ok: bool)
      requires engine.radio == radio && request == TransferFrame(Self(), device, challenge)
      requires base <= |radio.log| && request.dataLen <= FRAME_MAX_DATA_SIZE
      requires Watched(base).Transferring? && Watched(base).device == device && Watched(base).challenge == challenge
      requires var st := Watched(base); st.transfers < X.EXCHANGE_RETRY_COUNT && st.retriggers == 0 && !st.refused
      modifies radio`time, radio`frequency, radio`log, radio`levels
      ensures old(radio.time) <= radio.time
      ensures radio.log == old(radio.log) + [Tx(Wire(request), 868950000, radio.responsePreamble, ok)]
      ensures var st := old(Watched(base)); Watched(base) == st.(transfers := st.transfers + 1)
    {
      hide Watch, Wire, Step, TransferFrame;
      ghost var before := radio.log;
      TransferSessionIs(request, device, challenge);
      ok := engine.TransmitFrame(request, FREQ_CH2, radio.responsePreamble);
      ghost var e := Tx(Wire(request), FREQ_CH2, radio.responsePreamble, ok);
      SendsTransfer(Self(), old(Watched(base)), e);
      WatchNext(Self(), before, base, e);
    }

    /** Sends a key-init, to open an attempt or to trigger the device's confirmation again. */
    method TransmitKeyInit(request: IoFrame, device: NodeId, ghost base: nat) returns (ok: bool)
      requires engine.radio == radio && request == KeyInitFrame(Self(), device)
      requires base <= |radio.log|
      modifies radio`time, radio`frequency, radio`log, radio`levels
      ensures old(radio.time) <= radio.time
      ensures radio.log == old(radio.log) + [Tx(Wire(KeyInitFrame(Self(), device)), 868950000, 1024, ok)]
      ensures Watched(base) ==
              Step(Self(), old(Watched(base)), Tx(Wire(KeyInitFrame(Self(), device)), FREQ_CH2, LONG_PREAMBLE, ok))
    {
      hide Watch, Wire, Step;
      ghost var before := radio.log;
      BuiltSerializes(Addressed(true, false, true, device, engine.node), CMD_KEY_INIT, []);
      ok := engine.TransmitFrame(request, FREQ_CH2, LONG_PREAMBLE);
      WatchNext(Self(), before, base, Tx(Wire(request), FREQ_CH2, LONG_PREAMBLE, ok));
    }

    // ---- Phases

    /** One discovery request; the nonce is random. */
    method TransmitDiscovery(index: nat, ghost base: nat) returns (ok: bool)
      requires engine.radio == radio && base <= |radio.log| && index < |tuning.commands|
      requires NextSearch(Watched(base), index)
      modifies radio`time, radio`frequency, radio`log, radio`levels
      ensures old(radio.time) <= radio.time
      ensures old(radio.log) <= radio.log
      ensures ok ==> Watched(base) == Searching(index, SendsOf(old(Watched(base)), index) + 1)
      ensures !ok ==> Watched(base) == if IsDiscoveryCommand(tuning.commands[index]) then Halted else old(Watched(base))
      ensures ok ==> IsDiscoveryCommand(tuning.commands[index])
      ensures IsDiscoveryCommand(tuning.commands[index]) ==>
                && |radio.log| == |old(radio.log)| + 1
                && radio.log[|old(radio.log)|].Tx? && radio.log[|old(radio.log)|].ok == ok
    {
      hide Watch, Wire, DiscoveryPayload, Destination;
      ghost var before := radio.log;
      var command := tuning.commands[index];
      var destination := Destination(tuning, command);
      var nonce: Challenge := *;
      var built, request := CreateDiscoveryRequest(engine.node, command, destination, tuning.lowPower,
                                                   PayloadOf(tuning), nonce, engine.key);
      if !built {
        return false;
      }
      BuiltSerializes(Addressed(true, true, tuning.lowPower, destination, engine.node), command,
                      DiscoveryPayload(command, PayloadOf(tuning), nonce, engine.key));
      assert request == DiscoveryFrame(Self(), command, nonce);
      ok := engine.TransmitFrame(request, FREQ_CH2, LONG_PREAMBLE);
      IsDiscoveryWire(Self(), index, nonce);
      WatchNext(Self(), before, base, Tx(Wire(request), FREQ_CH2, LONG_PREAMBLE, ok));
    }

    /** Each configured command up to three times, with a wait after each.  Unless something was accepted,
        or a request could not be made or sent, every command went out three times. */
    method RunDiscoveryPhase(ghost base: nat) returns (disposition: Discovery, rx: IoFrame)
      requires Valid() && base <= |radio.log| && Watched(base) == SEARCH
      modifies radio`time, radio`interruptions, radio`listens, radio`frequency, radio`log, radio`levels
      modifies radio`detections
      ensures old(radio.time) + tuning.initialDwellMs <= radio.time
      ensures old(radio.log) <= radio.log
      ensures disposition == Accept ==>
                && IsDiscoveryResponse(rx) && Watched(base) == Discovered(rx)
                && LastEndsSearch(base, rx)
      ensures disposition != Accept ==> SearchEnded(Watched(base))
      ensures disposition != NoResponse ==> !Silent(radio.log, old(|radio.log|))
      ensures disposition == NoResponse && AllSent(radio.log, old(|radio.log|)) && Buildable() ==>
                Silent(radio.log, old(|radio.log|))
      ensures disposition != Accept && AllSent(radio.log, old(|radio.log|)) && Buildable() ==>
                old(radio.time) + tuning.initialDwellMs + 3 * |tuning.commands| * tuning.waitMs <= radio.time
    {
      hide Watch, Discovered, IsDiscoveryCommand, IsDiscoveryResponse, AllSent, Silent;
      ghost var mid := |radio.log|;
      StillSilent(radio.log);
      rx := ZERO_FRAME;
      if tuning.initialDwellMs > 0 {
        radio.Delay(tuning.initialDwellMs);
      }
      var sawInvalid := false;
      for index := 0 to |tuning.commands|
        invariant old(radio.log) <= radio.log && old(radio.time) + tuning.initialDwellMs <= radio.time
        invariant Watched(base) == SearchedBefore(index)
        invariant sawInvalid <==> !Silent(radio.log, mid)
        invariant AllSent(radio.log, mid) ==>
                    old(radio.time) + tuning.initialDwellMs + 3 * index * tuning.waitMs <= radio.time
      {
        for attempt := 0 to PAIRING_DISCOVERY_MAX_ATTEMPTS
          invariant old(radio.log) <= radio.log && old(radio.time) + tuning.initialDwellMs <= radio.time
          invariant Watched(base) == if attempt == 0 then SearchedBefore(index) else Searching(index, attempt)
          invariant attempt > 0 ==> IsDiscoveryCommand(tuning.commands[index])
          invariant sawInvalid <==> !Silent(radio.log, mid)
          invariant AllSent(radio.log, mid) ==>
                      old(radio.time) + tuning.initialDwellMs + (3 * index + attempt) * tuning.waitMs <= radio.time
        {
          ghost var before := radio.log;
          var sent := TransmitDiscovery(index, base);
          SentBefore(before, radio.log, mid);
          if !sent {
            return NoResponse, rx;
          }
          SentSilently(before, radio.log, mid);
          ghost var after := radio.log;
          disposition, rx := WaitForDiscoveryResponse(tuning.waitMs, rx, base);
          SentBefore(after, radio.log, mid);
          Windows(3 * index + attempt, tuning.waitMs);
          if disposition == Accept {
            return;
          }
          if disposition == Invalid {
            sawInvalid := true;
          }
        }
      }
      disposition := if sawInvalid then Invalid else NoResponse;
    }

    /** Every configured command is one that a request can be built for. */
    predicate Buildable() {
      forall i :: 0 <= i < |tuning.commands| ==> IsDiscoveryCommand(tuning.commands[i])
    }

    lemma Windows(n: nat, ms: nat)
      ensures (n + 1) * ms == n * ms + ms
    {
    }

    /** The search when the commands before `index` have been tried in full. */
    function SearchedBefore(index: nat): Stage {
      if index == 0 then SEARCH else Searching(index - 1, PAIRING_DISCOVERY_MAX_ATTEMPTS)
    }

    /** Discovery gave up: a send failed, a command cannot be built, or all were tried in full. */
    ghost predicate SearchEnded(st: Stage) {
      || st == Halted
      || st == SearchedBefore(|tuning.commands|)
      || exists i :: 0 <= i < |tuning.commands| && !IsDiscoveryCommand(tuning.commands[i]) && st == SearchedBefore(i)
    }

    /** One key attempt. */
    method RunKeyExchangePhase(device: NodeId, attempt: nat, ghost base: nat) returns (ok: bool)
      requires Valid() && attempt < tuning.keyExchangeRetries
      requires base <= |radio.log| && MayBegin(Watched(base), device, attempt)
      modifies radio`time, radio`interruptions, radio`listens, radio`frequency, radio`log, radio`levels, engine`debug
      ensures old(radio.time) <= radio.time
      ensures old(radio.log) <= radio.log
      ensures if ok then KeyConfirmed(Watched(base), device) else MayBegin(Watched(base), device, attempt + 1)
      ensures !ok && AllSent(radio.log, old(|radio.log|)) && Silent(radio.log, old(|radio.log|)) ==>
                old(radio.time) + 500 <= radio.time
    {
      hide AllSent, Silent, Watch, Wire, IsKeyChallenge, IsKeyConfirm, TransferFrame, KeyInitFrame, Step, Begin;
      ghost var before := radio.log;
      var built, keyInit := CreateKeyInit(engine.node, device);
      assert keyInit == KeyInitFrame(Self(), device) by { KeyInitIs(device); }
      var sent := OpenAttempt(keyInit, device, attempt, base);
      SentBefore(before, radio.log, |before|);
      if !sent {
        return false;
      }
      var heard, rx := WaitForKeyChallenge(PAIRING_KEY_CHALLENGE_TIMEOUT_MS, ZERO_FRAME, device, base);
      HeardNotSilent(radio.log, |before|, heard);
      if !heard {
        return false;
      }
      ghost var after := radio.log;
      if rx.cmd == CMD_KEY_CONFIRM {
        ConfirmNotChallenge(rx, device);
        return true;
      }
      ConfirmNotChallenge(rx, device);
      ok := TransferKey(keyInit, device, attempt, rx.data[..6], base);
      SentBefore(after, radio.log, |before|);
    }

    /** Wraps the key under the challenge and has the device confirm it, in the way that suits the radio. */
    method TransferKey(keyInit: IoFrame, device: NodeId, attempt: nat, challenge: Challenge, ghost base: nat)
      returns (ok: bool)
      requires Valid() && keyInit == KeyInitFrame(Self(), device) && base <= |radio.log|
      requires Watched(base) == if radio.fastTurnaround then Exchanging(device, attempt, challenge, X.NOTHING)
                                else Transferring(device, attempt, challenge, 0, 0, false)
      modifies radio`time, radio`interruptions, radio`listens, radio`frequency, radio`log, radio`levels, engine`debug
      ensures old(radio.time) <= radio.time
      ensures old(radio.log) <= radio.log
      ensures if ok then KeyConfirmed(Watched(base), device) else MayBegin(Watched(base), device, attempt + 1)
      ensures !ok && AllSent(radio.log, old(|radio.log|)) && Silent(radio.log, old(|radio.log|)) ==>
                old(radio.time) + 3 * 500 + 2 * 250
                + (if radio.fastTurnaround then 0 else 2 * (E.EXCHANGE_RETRY_DELAY_MS + 500)) <= radio.time
    {
      hide Watch, TransferFrame, KeyInitFrame, AllSent, Silent;
      ghost var before := radio.log;
      var built, request := CreateKeyTransfer(keyInit, device, engine.node, engine.key, challenge);
      assert request == TransferFrame(Self(), device, challenge) by { TransferIs(device, challenge); }
      if radio.fastTurnaround {
        ok := ExchangeKey(request, device, attempt, challenge, base);
      } else {
        ok := WaitForKeyConfirm(request, device, challenge, base);
        ghost var after := radio.log;
        if !ok {
          ok := Retrigger(keyInit, device, attempt, base);
          SentBefore(after, radio.log, |before|);
        }
      }
    }

    lemma KeyInitIs(device: NodeId)
      ensures KeyInit(engine.node, device) == KeyInitFrame(Self(), device)
    {
    }

    lemma TransferIs(device: NodeId, challenge: Challenge)
      ensures KeyTransfer(KeyInitFrame(Self(), device), device, engine.node, engine.key, challenge)
           == TransferFrame(Self(), device, challenge)
    {
    }

    lemma ConfirmNotChallenge(rx: IoFrame, device: NodeId)
      ensures IsKeyConfirm(rx, device, engine.node) ==> rx.cmd == CMD_KEY_CONFIRM
      ensures IsKeyChallenge(rx, device, engine.node) ==> rx.cmd != CMD_KEY_CONFIRM
    {
    }

    method OpenAttempt(keyInit: IoFrame, device: NodeId, attempt: nat, ghost base: nat) returns (ok: bool)
      requires Valid() && attempt < tuning.keyExchangeRetries && keyInit == KeyInitFrame(Self(), device)
      requires base <= |radio.log| && MayBegin(Watched(base), device, attempt)
      modifies radio`time, radio`frequency, radio`log, radio`levels
      ensures old(radio.time) <= radio.time
      ensures radio.log == old(radio.log) + [Tx(Wire(keyInit), 868950000, 1024, ok)]
      ensures Watched(base) == if ok then AwaitChallenge(device, attempt) else Ready(device, attempt + 1)
    {
      hide Watch, Wire, KeyInitFrame, Step;
      ghost var st := Watched(base);
      ok := TransmitKeyInit(keyInit, device, base);
      BeginsAttempt(Self(), st, device, attempt, Tx(Wire(keyInit), FREQ_CH2, LONG_PREAMBLE, ok));
    }

    /** The key as an ordinary exchange. */
    method ExchangeKey(request: IoFrame, device: NodeId, attempt: nat, challenge: Challenge, ghost base: nat)
      returns (ok: bool)
      requires Valid() && request == TransferFrame(Self(), device, challenge)
      requires base <= |radio.log| && Watched(base) == Exchanging(device, attempt, challenge, X.NOTHING)
      modifies radio`time, radio`interruptions, radio`listens, radio`frequency, radio`log, radio`levels, engine`debug
      ensures old(radio.time) <= radio.time
      ensures old(radio.log) <= radio.log
      ensures if ok then KeyConfirmed(Watched(base), device) else MayBegin(Watched(base), device, attempt + 1)
      ensures !ok && AllSent(radio.log, old(|radio.log|)) && Silent(radio.log, old(|radio.log|)) ==>
                old(radio.time) + 3 * 500 + 2 * 250 <= radio.time
    {
      hide Watch, Wire, X.Observe, TransferSession, TransferFrame;
      ghost var mid := |radio.log|;
      assert radio.log[base..mid] == radio.log[base..];
      TransferSessionIs(request, device, challenge);
      var response;
      ok, response := engine.SendAndReceive(request, ZERO_FRAME, FREQ_CH2);
      assert radio.log[base..mid] == old(radio.log)[base..mid];
      if ok {
        X.FinishedBy(TransferSession(Self(), device, challenge), radio.log[mid..]);
        HeardNotSilent(radio.log, mid, true);
      }
      TransferIsNoStart(device, challenge);
      WatchExchange(Self(), radio.log, base, mid, device, attempt, challenge);
      ok := ok && response.cmd == CMD_KEY_CONFIRM;
    }

    lemma TransferIsNoStart(device: NodeId, challenge: Challenge)
      ensures !IsStart(TransferFrame(Self(), device, challenge))
    {
      BuiltSerializes(Addressed(false, false, true, device, engine.node), CMD_KEY_TRANSFER,
                      Crypto.Wrapped([CMD_KEY_INIT], challenge, engine.key));
    }

    lemma TransferSessionIs(request: IoFrame, device: NodeId, challenge: Challenge)
      requires engine.radio == radio && request == TransferFrame(Self(), device, challenge)
      ensures Serializable(request)
      ensures engine.SessionOf(request, FREQ_CH2) == TransferSession(Self(), device, challenge)
    {
      BuiltSerializes(Addressed(false, false, true, device, engine.node), CMD_KEY_TRANSFER,
                      Crypto.Wrapped([CMD_KEY_INIT], challenge, engine.key));
    }

    /** After an unconfirmed transfer: up to two more key-inits, to make the device confirm by itself. */
    method Retrigger(keyInit: IoFrame, device: NodeId, attempt: nat, ghost base: nat) returns (ok: bool)
      requires Valid() && keyInit == KeyInitFrame(Self(), device)
      requires base <= |radio.log| && Watched(base).Transferring?
      requires var st := Watched(base);
               && st.device == device && st.attempt == attempt && st.retriggers == 0
               && (st.refused || st.transfers == X.EXCHANGE_RETRY_COUNT)
      modifies radio`time, radio`interruptions, radio`listens, radio`frequency, radio`log, radio`levels
      ensures old(radio.time) <= radio.time
      ensures !ok ==> old(radio.time) + 2 * 250 <= radio.time
      ensures old(radio.log) <= radio.log
      ensures !ok && AllSent(radio.log, old(|radio.log|)) && Silent(radio.log, old(|radio.log|)) ==>
                old(radio.time) + 2 * (250 + 500) <= radio.time
      ensures if ok then KeyConfirmed(Watched(base), device) else MayBegin(Watched(base), device, attempt + 1)
    {
      hide Watch, Wire, KeyInitFrame, IsTransfer, AllSent, Silent;
      ghost var mid := |radio.log|;
      ghost var st := Watched(base);
      ok := false;
      for re := 0 to KEY_INIT_RETRIGGERS
        invariant old(radio.time) + re * E.EXCHANGE_RETRY_DELAY_MS <= radio.time
        invariant old(radio.log) <= radio.log
        invariant Watched(base) == st.(retriggers := re)
        invariant AllSent(radio.log, mid) && Silent(radio.log, mid) ==> old(radio.time) + 750 * re <= radio.time
      {
        ghost var before := radio.log;
        radio.Delay(E.EXCHANGE_RETRY_DELAY_MS);
        var sent := TransmitKeyInit(keyInit, device, base);
        SentBefore(before, radio.log, mid);
        if !sent {
          continue;
        }
        ghost var after := radio.log;
        var heard, rx := WaitForKeyChallenge(PAIRING_KEY_CHALLENGE_TIMEOUT_MS, ZERO_FRAME, device, base);
        SentBefore(after, radio.log, mid);
        SentBefore(before, radio.log, mid);
        HeardNotSilent(radio.log, mid, heard);
        if heard && rx.cmd == CMD_KEY_CONFIRM {
          return true;
        }
      }
    }

    /** SetConfig1, with the result of its exchange. */
    method FinalizePairingConfiguration(device: NodeId, ghost base: nat) returns (ok: bool)
      requires Valid() && base <= |radio.log| && KeyConfirmed(Watched(base), device)
      modifies radio`time, radio`interruptions, radio`listens, radio`frequency, radio`log, radio`levels, engine`debug
      ensures old(radio.time) <= radio.time
      ensures old(radio.log) <= radio.log
      ensures Watched(base).Configuring? && Watched(base).device == device
      ensures ok <==> Watched(base).exchange.stage.Finished?
      ensures !ok ==> Watched(base).exchange.requests == X.EXCHANGE_RETRY_COUNT
    {
      hide Watch, Wire, KeyConfirmed;
      ghost var mid := |radio.log|;
      assert radio.log[base..mid] == radio.log[base..];
      var built, request := CreateSetConfig1(engine.node, device);
      BuiltSerializes(Addressed(true, false, true, device, engine.node), CMD_SET_CONFIG1,
                      SET_CONFIG1_STATUS_BROADCAST_PAYLOAD);
      assert engine.SessionOf(request, FREQ_CH2) == ConfigSession(Self(), device);
      var response;
      ok, response := engine.SendAndReceive(request, ZERO_FRAME, FREQ_CH2);
      assert radio.log[base..mid] == old(radio.log)[base..mid];
      WatchConfiguration(Self(), radio.log, base, mid, device);
    }

    // ---- The whole run

    /** Records the outcome and detaches the telemetry. */
    method FinishPairingAttempt(outcome: E.Outcome)
      modifies telemetry, engine`telemetry
      ensures telemetry.outcome == outcome && engine.telemetry == null
    {
      telemetry.outcome := outcome;
      engine.SetTelemetry(null);
    }

    /** How the outcome and the trace belong together. */
    ghost predicate Ends(outcome: E.Outcome, st: Stage) {
      match outcome
      case Unset => false
      case NoResponse => SearchEnded(st)
      case InvalidResponse => st == Halted || SearchEnded(st)
      case KeyExchangeFailed => exists device :: MayBegin(st, device, tuning.keyExchangeRetries)
      case ConfigFailed =>
        st.Configuring? && !st.exchange.stage.Finished? && st.exchange.requests == X.EXCHANGE_RETRY_COUNT
      case Paired => st.Configuring? && st.exchange.stage.Finished?
    }

    /** However a run ends, the observer accepted it. */
    lemma EndsInOrder(outcome: E.Outcome, trace: seq<Event>)
      requires Ends(outcome, Watch(Self(), trace))
      ensures R.Orderly(Self(), trace)
    {
      hide Watch;
    }

    /** The table gained exactly the device whose response ended the search, and that device confirmed the
        last key-init, in this order. */
    ghost predicate Registered(before: map<NodeId, Device>, after: map<NodeId, Device>, trace: seq<Event>) {
      exists d, f, k, c :: O.ConfirmedAt(Self(), trace, d, f, k, c) && after == before[f.src := DeviceFromDiscovery(f)]
    }

    lemma Registers(before: map<NodeId, Device>, trace: seq<Event>, d: nat, f: IoFrame)
      requires Watch(Self(), trace).Configuring? && O.EndsSearch(Self(), trace, d, f)
      ensures Registered(before, before[f.src := DeviceFromDiscovery(f)], trace)
    {
      hide Watch, O.EndsSearch, O.LastInit, O.IsConfirm;
      var d', f', k, c := O.ConfirmationHeard(Self(), trace, Watch(Self(), trace).device);
      O.SearchEndsOnce(Self(), trace, d, f, d', f');
      assert O.ConfirmedAt(Self(), trace, d, f, k, c);
    }

    lemma DiscoveredIs(f: IoFrame)
      requires IsDiscoveryResponse(f)
      ensures if f.cmd == CMD_DISCOVER_ALT_RESP then Discovered(f) == Halted
              else f.cmd == CMD_DISCOVER_RESP && MayBegin(Discovered(f), f.src, 0)
    {
    }

    /** Key attempts, as many as configured, with the retry delay between them. */
    method ExchangeKeys(device: NodeId, ghost base: nat) returns (ok: bool)
      requires Valid() && base <= |radio.log| && MayBegin(Watched(base), device, 0)
      modifies radio`time, radio`interruptions, radio`listens, radio`frequency, radio`log, radio`levels, engine`debug
      ensures old(radio.log) <= radio.log && old(radio.time) <= radio.time
      ensures if ok then KeyConfirmed(Watched(base), device)
              else MayBegin(Watched(base), device, tuning.keyExchangeRetries)
      ensures !ok && tuning.keyExchangeRetries > 0 ==>
                old(radio.time) + (tuning.keyExchangeRetries - 1) * 250 <= radio.time
      ensures !ok && AllSent(radio.log, old(|radio.log|)) && Silent(radio.log, old(|radio.log|)) ==>
                old(radio.time) + tuning.keyExchangeRetries * 500 <= radio.time
    {
      hide Watch, MayBegin, KeyConfirmed, AllSent, Silent;
      ghost var mid := |radio.log|;
      for attempt := 0 to tuning.keyExchangeRetries
        invariant old(radio.time) + (if attempt > 1 then (attempt - 1) * E.EXCHANGE_RETRY_DELAY_MS else 0) <= radio.time
        invariant old(radio.log) <= radio.log && MayBegin(Watched(base), device, attempt)
        invariant AllSent(radio.log, mid) && Silent(radio.log, mid) ==> old(radio.time) + attempt * 500 <= radio.time
      {
        ghost var before := radio.log;
        if attempt > 0 {
          radio.Delay(E.EXCHANGE_RETRY_DELAY_MS);
        }
        ok := RunKeyExchangePhase(device, attempt, base);
        SentBefore(before, radio.log, mid);
        if ok {
          return;
        }
      }
      ok := false;
    }

    /** The observer accepts the whole run; the registry gains the device exactly when the call returns
        true, which is when the outcome is Paired or ConfigFailed; the telemetry is always detached. */
    method DiscoverAndPair() returns (ok: bool)
      requires Valid()
      modifies radio`time, radio`interruptions, radio`listens, radio`frequency, radio`log, radio`levels
      modifies radio`detections, engine`debug, engine`telemetry, telemetry, registry
      ensures old(radio.time) <= radio.time
      ensures old(radio.log) <= radio.log && engine.telemetry == null
      ensures Ends(telemetry.outcome, Watched(old(|radio.log|)))
      ensures R.Orderly(Self(), radio.log[old(|radio.log|)..])
      ensures ok <==> telemetry.outcome == E.Paired || telemetry.outcome == E.ConfigFailed
      ensures telemetry.outcome == E.KeyExchangeFailed && tuning.keyExchangeRetries > 0 ==>
                old(radio.time) + (tuning.keyExchangeRetries - 1) * 250 <= radio.time
      ensures telemetry.outcome == E.InvalidResponse ==> !Silent(radio.log, old(|radio.log|))
      ensures telemetry.outcome == E.NoResponse && AllSent(radio.log, old(|radio.log|)) && Buildable() ==>
                Silent(radio.log, old(|radio.log|)) &&
                old(radio.time) + tuning.initialDwellMs + 3 * |tuning.commands| * tuning.waitMs <= radio.time
      ensures !ok ==> registry.devices == old(registry.devices)
      ensures ok ==> Registered(old(registry.devices), registry.devices, radio.log[old(|radio.log|)..])
    {
      hide Watch, SearchEnded, KeyConfirmed, MayBegin, Discovered, R.Orderly, Registered, O.EndsSearch, AllSent, Silent,
           Buildable;
      ghost var base := |radio.log|;
      assert Watched(base) == SEARCH by {
        assert radio.log[base..] == [];
        WatchNothing(Self());
      }
      telemetry.outcome := E.Unset;
      engine.SetTelemetry(telemetry);
      var disposition, rx := RunDiscoveryPhase(base);
      if disposition != Accept {
        FinishPairingAttempt(if disposition == Invalid then E.InvalidResponse else E.NoResponse);
        EndsInOrder(telemetry.outcome, radio.log[base..]);
        return false;
      }
      DiscoveredIs(rx);
      if rx.cmd == CMD_DISCOVER_ALT_RESP {
        FinishPairingAttempt(E.InvalidResponse);
        EndsInOrder(telemetry.outcome, radio.log[base..]);
        return false;
      }
      var device := DeviceFromDiscovery(rx);
      ghost var search := radio.log[base..];
      var exchanged := ExchangeKeys(device.nodeId, base);
      if !exchanged {
        FinishPairingAttempt(E.KeyExchangeFailed);
        EndsInOrder(telemetry.outcome, radio.log[base..]);
        return false;
      }
      var configured := FinalizePairingConfiguration(device.nodeId, base);
      registry.Put(device);
      FinishPairingAttempt(if configured then E.Paired else E.ConfigFailed);
      EndsInOrder(telemetry.outcome, radio.log[base..]);
      assert radio.log[base..][..|search|] == search;
      O.EndsSearchGrows(Self(), radio.log[base..], |search|, |search| - 1, rx);
      Registers(old(registry.devices), radio.log[base..], |search| - 1, rx);
      ok := true;
    }
  }

  /** A key-init was sent and the device may answer with a challenge or a confirmation. */
  predicate AwaitsKeyPacket(st: Stage, device: NodeId) {
    match st
    case AwaitChallenge(d, _) => d == device
    case Transferring(d, _, _, _, retriggers, _) => d == device && retriggers > 0
    case _ => false
  }

  predicate SendsKey(st: Stage, device: NodeId) {
    st.Transferring? && st.device == device && st.retriggers == 0
  }

  /** The search has come to a send with the command at `index`. */
  predicate NextSearch(st: Stage, index: nat) {
    && st.Searching?
    && ((st.index == index && st.sends < PAIRING_DISCOVERY_MAX_ATTEMPTS)
        || (st.index + 1 == index && st.sends == PAIRING_DISCOVERY_MAX_ATTEMPTS))
  }

  function SendsOf(st: Stage, index: nat): nat
    requires st.Searching?
  {
    if st.index == index then st.sends else 0
  }

  lemma WatchNothing(p: Pairer)
    ensures Watch(p, []) == SEARCH
  {
  }
}
