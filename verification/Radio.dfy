/** The radio driver as the engines see it (radio_interface.h): an adversarial environment that decides
    what arrives, when, and how long every call takes.  Each undetermined choice is a `*`, so what is
    proved about an engine holds against every radio. */
module Radio {
  import opened Bytes
  import opened Clock

  const FREQ_CH1: nat := 868250000
  const FREQ_CH2: nat := 868950000
  const FREQ_CH3: nat := 869850000
  const LONG_PREAMBLE: nat := 1024
  const SHORT_PREAMBLE: nat := 8
  const RADIO_PACKET_BUFFER_SIZE: nat := 64

  /** What happens on the air: a packet handed to the chip, or one the chip returned. */
  datatype Event =
    | Tx(sent: seq<byte>, freq: nat, preamble: nat, ok: bool)
    | Rx(heard: seq<byte>)

  /** A wait for a packet: from when to when, on which channel, and whether it brought one. */
  datatype Listen = Listen(from: nat, to: nat, channel: nat, heard: bool) {
    /** The channel of the next wait: the same one after a packet, the one after it after nothing. */
    function Next(): nat {
      if heard then channel else NextChannel(channel)
    }
  }

  /** Every packet handed to the chip since index `base` went out. */
  ghost predicate AllSent(log: seq<Event>, base: nat) {
    forall i :: base <= i < |log| && log[i].Tx? ==> log[i].ok
  }

  /** Nothing was heard since index `base`. */
  ghost predicate Silent(log: seq<Event>, base: nat) {
    forall i :: base <= i < |log| ==> log[i].Tx?
  }

  /** No frame seemed to be arriving since index `base`. */
  ghost predicate Quiet(detections: seq<bool>, base: nat) {
    forall i :: base <= i < |detections| ==> !detections[i]
  }

  lemma QuietBefore(before: seq<bool>, after: seq<bool>, base: nat)
    requires base <= |before| && before <= after
    ensures Quiet(after, base) ==> Quiet(before, base) && Quiet(after, |before|)
  {
    if Quiet(after, base) {
      forall i | base <= i < |before|
        ensures !before[i]
      {
        assert after[i] == before[i];
      }
    }
  }

  /** From one time to another the waits after index `base` leave no gap longer than `gap`, and after the last of
      them at most `slack`. */
  ghost predicate Attentive(listens: seq<Listen>, base: nat, from: nat, to: nat, gap: nat, slack: nat)
    decreases |listens|
  {
    if |listens| <= base then to <= from + slack
    else
      var n := |listens| - 1;
      to <= listens[n].to + slack && Attentive(listens[..n], base, from, listens[n].from, gap, gap)
  }

  /** One more wait. */
  lemma AttentiveNext(listens: seq<Listen>, base: nat, from: nat, to: nat, gap: nat, slack: nat, l: Listen)
    requires base <= |listens| && Attentive(listens, base, from, l.from, gap, gap) && to <= l.to + slack
    ensures Attentive(listens + [l], base, from, to, gap, slack)
  {
    assert (listens + [l])[..|listens|] == listens;
  }

  /** A longer slack, or an earlier end. */
  lemma AttentiveUntil(listens: seq<Listen>, base: nat, from: nat, to: nat, gap: nat, slack: nat, to': nat,
                       slack': nat)
    requires Attentive(listens, base, from, to, gap, slack) && to' + slack <= to + slack'
    ensures Attentive(listens, base, from, to', gap, slack')
  {
  }

  class RadioDriver {
    /** Real time in milliseconds; the engines only see its low 32 bits. */
    var time: nat
    /** How often from now on a wait ends before its timeout, with or without a packet. */
    var interruptions: nat
    var frequency: nat
    ghost var log: seq<Event>
    /** The waits so far. */
    ghost var listens: seq<Listen>
    /** What preamble and sync detection answered so far. */
    ghost var detections: seq<bool>
    /** The signal levels read so far. */
    ghost var levels: seq<int>

    /** How much time may pass between two readings of the clock, and how late a radio call may return. */
    const lag: nat
    const overhead: nat
    /** Chip-specific answers. */
    const exchangeSlice: nat
    const discoverySlice: nat
    const responsePreamble: nat
    const fastTurnaround: bool

    constructor (lag: nat, overhead: nat, exchangeSlice: nat, discoverySlice: nat, responsePreamble: nat,
                 fastTurnaround: bool)
      ensures log == [] && frequency == FREQ_CH2
      ensures this.lag == lag && this.overhead == overhead && this.exchangeSlice == exchangeSlice
      ensures this.discoverySlice == discoverySlice
    {
      this.lag := lag;
      this.overhead := overhead;
      this.exchangeSlice := exchangeSlice;
      this.discoverySlice := discoverySlice;
      this.responsePreamble := responsePreamble;
      this.fastTurnaround := fastTurnaround;
      time := *;
      interruptions := *;
      frequency := FREQ_CH2;
      log := [];
      listens, detections, levels := [], [], [];
    }

    /** Slices are at least a millisecond, and everything stays far below half the counter's range. */
    predicate Valid() {
      0 < exchangeSlice < 0x1000_0000 && 0 < discoverySlice < 0x1000_0000 && lag < 0x100_0000 && overhead < 0x1000_0000
    }

    method Elapse(atLeast: nat, atMost: nat)
      requires atLeast <= atMost
      modifies this`time
      ensures old(time) + atLeast <= time <= old(time) + atMost
    {
      var d: nat :| atLeast <= d <= atMost;
      time := time + d;
    }

    method Millis() returns (t: nat)
      modifies this`time
      ensures old(time) <= time <= old(time) + lag
      ensures t == U32(time)
    {
      Elapse(0, lag);
      t := U32(time);
    }

    method Delay(ms: nat)
      modifies this`time
      ensures old(time) + ms <= time <= old(time) + ms + overhead
    {
      Elapse(ms, ms + overhead);
    }

    /** Returns at the timeout, or earlier with a packet or with nothing. */
    method WaitForPacket(timeout: nat) returns (ok: bool, packet: seq<byte>)
      modifies this`time, this`interruptions, this`listens, this`log
      ensures old(time) <= time <= old(time) + timeout + overhead
      ensures listens == old(listens) + [Listen(old(time), time, frequency, ok)]
      ensures interruptions < old(interruptions) ||
              (interruptions == old(interruptions) && !ok && old(time) + timeout <= time)
      ensures log == if ok then old(log) + [Rx(packet)] else old(log)
      ensures |packet| <= RADIO_PACKET_BUFFER_SIZE
    {
      ok, packet := false, [];
      ghost var start := time;
      var interrupted: bool := *;
      if interrupted && 0 < interruptions {
        interruptions := interruptions - 1;
        Elapse(0, timeout + overhead);
        var data: seq<byte> := *;
        ok := *;
        if ok && |data| <= RADIO_PACKET_BUFFER_SIZE {
          packet := data;
          log := log + [Rx(packet)];
        } else {
          ok := false;
        }
      } else {
        Elapse(timeout, timeout + overhead);
      }
      listens := listens + [Listen(start, time, frequency, ok)];
    }

    /** How long an engine may be deaf between two waits: a hop and three clock readings. */
    function Gap(): nat {
      overhead + 3 * lag
    }

    /** Since then, not counting the waits before index `base`, the chip has listened without a longer gap. */
    ghost predicate Listened(base: nat, from: nat)
      reads this`time, this`listens
    {
      Attentive(listens, base, from, time, Gap(), Gap())
    }

    method SendPacket(data: seq<byte>, freq: nat, preamble: nat) returns (ok: bool)
      modifies this`time, this`frequency, this`log
      ensures old(time) <= time && frequency == freq
      ensures log == old(log) + [Tx(data, freq, preamble, ok)]
    {
      ok := *;
      var airtime: nat :| 0 <= airtime;
      time := time + airtime;
      frequency := freq;
      log := log + [Tx(data, freq, preamble, ok)];
    }

    method ReadRssi() returns (rssi: int)
      modifies this`levels
      ensures levels == old(levels) + [rssi]
    {
      rssi := *;
      levels := levels + [rssi];
    }

    /** Preamble and sync detection. */
    method IsReceiving() returns (detected: bool)
      modifies this`detections
      ensures detections == old(detections) + [detected]
    {
      detected := *;
      detections := detections + [detected];
    }

    method ChangeFrequency(freq: nat)
      modifies this`time, this`frequency
      ensures frequency == freq
      ensures old(time) <= time <= old(time) + overhead
    {
      Elapse(0, overhead);
      frequency := freq;
    }
  }

  /** The channel after this one; anything unknown continues at the third. */
  function NextChannel(freq: nat): nat {
    if freq == FREQ_CH1 then FREQ_CH2 else if freq == FREQ_CH3 then FREQ_CH1 else FREQ_CH3
  }

  /** Hopping cycles through all three channels from wherever it starts. */
  lemma HopsCycle(freq: nat)
    ensures var a := NextChannel(freq); var b := NextChannel(a); var c := NextChannel(b);
            {a, b, c} == {FREQ_CH1, FREQ_CH2, FREQ_CH3} && (freq in {a, b, c} <==> c == freq)
    ensures NextChannel(868250000) == 868950000 && NextChannel(868950000) == 869850000
    ensures NextChannel(869850000) == 868250000
  {
    var a := NextChannel(freq);
    var b := NextChannel(a);
    var c := NextChannel(b);
    assert FREQ_CH1 in {a, b, c} && FREQ_CH2 in {a, b, c} && FREQ_CH3 in {a, b, c};
  }

  /** The waits from index `base` on begin on a channel, and each is on the next channel of the one before. */
  ghost predicate Sweeping(listens: seq<Listen>, base: nat, channel: nat) {
    && (base < |listens| ==> listens[base].channel == channel)
    && forall i :: base <= i < |listens| - 1 ==> listens[i + 1].channel == listens[i].Next()
  }

  /** The channel on which such waits go on. */
  function SweepsOn(listens: seq<Listen>, base: nat, channel: nat): nat {
    if base < |listens| then listens[|listens| - 1].Next() else channel
  }

  lemma SweepBegins(listens: seq<Listen>, channel: nat)
    ensures Sweeping(listens, |listens|, channel) && SweepsOn(listens, |listens|, channel) == channel
    ensures Roaming(listens, |listens|, channel) && RoamsOn(listens, |listens|, channel) == channel
  {
  }

  lemma SweepNext(listens: seq<Listen>, base: nat, channel: nat, l: Listen)
    requires base <= |listens| && Sweeping(listens, base, channel)
    requires l.channel == SweepsOn(listens, base, channel)
    ensures Sweeping(listens + [l], base, channel) && SweepsOn(listens + [l], base, channel) == l.Next()
  {
  }

  /** The waits from index `base` on begin on a channel, and each is on the channel after the one before. */
  ghost predicate Roaming(listens: seq<Listen>, base: nat, channel: nat) {
    && (base < |listens| ==> listens[base].channel == channel)
    && forall i :: base <= i < |listens| - 1 ==> listens[i + 1].channel == NextChannel(listens[i].channel)
  }

  /** The channel on which such waits go on. */
  function RoamsOn(listens: seq<Listen>, base: nat, channel: nat): nat {
    if base < |listens| then NextChannel(listens[|listens| - 1].channel) else channel
  }

  lemma RoamNext(listens: seq<Listen>, base: nat, channel: nat, l: Listen)
    requires base <= |listens| && Roaming(listens, base, channel)
    requires l.channel == RoamsOn(listens, base, channel)
    ensures Roaming(listens + [l], base, channel) && RoamsOn(listens + [l], base, channel) == NextChannel(l.channel)
  {
  }

  /** Four waits in a row of which the first three bring nothing have been on all three channels and are back where
      they began, unless that was no channel of the protocol. */
  lemma SweepsAll(listens: seq<Listen>, base: nat, channel: nat, i: nat)
    requires Sweeping(listens, base, channel) && base <= i && i + 3 < |listens|
    requires !listens[i].heard && !listens[i + 1].heard && !listens[i + 2].heard
    ensures {listens[i + 1].channel, listens[i + 2].channel, listens[i + 3].channel} ==
            {FREQ_CH1, FREQ_CH2, FREQ_CH3}
    ensures listens[i].channel in {FREQ_CH1, FREQ_CH2, FREQ_CH3} ==> listens[i + 3].channel == listens[i].channel
  {
    HopsCycle(listens[i].channel);
    assert listens[i + 2].channel == listens[i + 1].Next() && listens[i + 3].channel == listens[i + 2].Next();
  }
}
