/** The fixed-point average of a device's signal strength (hub_internal.h, proto_device_model.h), with
    the 16-bit storage and the truncating division of the original. */
module LinkHealth {

  const RSSI_UNKNOWN_DBM: int := -32768
  const RSSI_EMA_SCALE: int := 8

  type int16 = x: int | -32768 <= x <= 32767

  /** `static_cast<int16_t>`. */
  function Int16(x: int): int16 {
    (x + 32768) % 65536 - 32768
  }

  /** Integer division that truncates towards zero. */
  function Quotient(n: int, d: int): int
    requires d > 0
  {
    if n >= 0 then n / d else -(-n / d)
  }

  /** rssi_scaled_to_dbm: rounds half away from zero. */
  function ScaledToDbm(scaled: int16): int16 {
    Int16(Quotient(scaled + (if scaled >= 0 then 4 else -4), RSSI_EMA_SCALE))
  }

  /** The average after one more sample. */
  function Blend(scaled: int16, sample: int16): int16 {
    if scaled == RSSI_UNKNOWN_DBM then Int16(sample * RSSI_EMA_SCALE)
    else Int16(scaled + sample - ScaledToDbm(scaled))
  }

  datatype Capture = NoRadio | Invalid | Valid(rssi: int16)

  /** device_rssi_ema_dbm. */
  function Displayed(scaled: int16): int16 {
    if scaled == RSSI_UNKNOWN_DBM then RSSI_UNKNOWN_DBM else ScaledToDbm(scaled)
  }

  // ---- Whole series of samples

  /** The average after a series, from an unknown device. */
  function Average(samples: seq<int16>): int16 {
    if samples == [] then RSSI_UNKNOWN_DBM
    else Blend(Average(samples[..|samples| - 1]), samples[|samples| - 1])
  }

  /** Samples whose eightfold fits into 16 bits and is not the sentinel. */
  predicate Real(a: int, b: int) {
    -4096 < a <= b <= 4095
  }

  /** The displayed value is the nearest whole number, half away from zero. */
  lemma Rounds(scaled: int16)
    ensures var r := ScaledToDbm(scaled);
            && -4 <= scaled - RSSI_EMA_SCALE * r <= 4
            && (scaled - RSSI_EMA_SCALE * r == 4 ==> scaled < 0)
            && (scaled - RSSI_EMA_SCALE * r == -4 ==> scaled >= 0)
  {
  }

  /** The first sample seeds the average. */
  lemma FirstSample(sample: int16)
    requires Real(sample, sample)
    ensures Blend(RSSI_UNKNOWN_DBM, sample) == 8 * sample && ScaledToDbm(8 * sample) == sample
  {
  }

  lemma BlendInRange(scaled: int16, sample: int16, a: int, b: int)
    requires Real(a, b) && 8 * a <= scaled <= 8 * b && a <= sample <= b
    ensures 8 * a <= Blend(scaled, sample) <= 8 * b
    ensures Blend(scaled, sample) == scaled + sample - ScaledToDbm(scaled)
    ensures a <= ScaledToDbm(scaled) <= b
  {
    Rounds(scaled);
  }

  /** With samples between `a` and `b` the average stays between 8a and 8b for ever: it never
      overflows, never becomes the sentinel again, and the displayed value is between `a` and `b`. */
  lemma {:induction false} AverageInRange(samples: seq<int16>, a: int, b: int)
    requires Real(a, b) && samples != [] && forall i :: 0 <= i < |samples| ==> a <= samples[i] <= b
    ensures 8 * a <= Average(samples) <= 8 * b
    ensures Average(samples) != RSSI_UNKNOWN_DBM && a <= Displayed(Average(samples)) <= b
  {
    hide Blend, ScaledToDbm;
    var n := |samples| - 1;
    if n == 0 {
      FirstSample(samples[0]);
    } else {
      AverageInRange(samples[..n], a, b);
      BlendInRange(Average(samples[..n]), samples[n], a, b);
    }
    Rounds(Average(samples));
  }

  /** The average after `n` more samples of the same strength. */
  function Constant(scaled: int16, sample: int16, n: nat): int16
    decreases n
  {
    if n == 0 then scaled else Blend(Constant(scaled, sample, n - 1), sample)
  }

  function Abs(x: int): nat {
    if x >= 0 then x else -x
  }

  /** One step towards the sample: never past it, and at least one unit unless it is displayed already. */
  lemma StepsCloser(scaled: int16, sample: int16)
    requires Real(sample, sample) && -32760 <= scaled <= 32760
    ensures var next := Blend(scaled, sample);
            && -32760 <= next <= 32760
            && (if ScaledToDbm(scaled) == sample then next == scaled
                else Abs(next - 8 * sample) < Abs(scaled - 8 * sample))
  {
    Rounds(scaled);
  }

  lemma {:induction false} ConstantCloses(scaled: int16, sample: int16, n: nat)
    requires Real(sample, sample) && -32760 <= scaled <= 32760
    ensures var s := Constant(scaled, sample, n);
            && -32760 <= s <= 32760
            && (ScaledToDbm(s) == sample || Abs(s - 8 * sample) + n <= Abs(scaled - 8 * sample))
  {
    if n > 0 {
      ConstantCloses(scaled, sample, n - 1);
      StepsCloser(Constant(scaled, sample, n - 1), sample);
    }
  }

  /** A constant signal is displayed exactly after at most as many steps as the average is away from it,
      and stays so. */
  lemma Converges(scaled: int16, sample: int16, n: nat)
    requires Real(sample, sample) && -32760 <= scaled <= 32760 && Abs(scaled - 8 * sample) <= n
    ensures Displayed(Constant(scaled, sample, n)) == sample
    ensures Constant(scaled, sample, n + 1) == Constant(scaled, sample, n)
  {
    ConstantCloses(scaled, sample, n);
    var s := Constant(scaled, sample, n);
    if s == 8 * sample {
      Rounds(s);
    }
    StepsCloser(s, sample);
  }
}
