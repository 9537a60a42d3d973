/** The 32-bit millisecond counter and the deadline tests the wait loops make on it. */
module Clock {

  const WRAP: nat := 0x1_0000_0000

  /** A counter of 32 bits. */
  function U32(x: nat): nat {
    x % WRAP
  }

  /** `deadline - now` in unsigned 32-bit arithmetic. */
  function Remaining(deadline: nat, now: nat): (r: nat)
    requires deadline < WRAP && now < WRAP
    ensures r < WRAP
  {
    (WRAP + deadline - now) % WRAP
  }

  /** `(int32_t)(deadline - now) > 0`. */
  predicate Before(now: nat, deadline: nat)
    requires deadline < WRAP && now < WRAP
  {
    0 < Remaining(deadline, now) < 0x8000_0000
  }

  /** The test compares the real times, and the difference is the real one, wherever the counter wraps,
      as long as the two are less than 2^31 ms apart. */
  lemma DeadlineTest(now: nat, deadline: nat)
    requires now < deadline + 0x8000_0000 && deadline < now + 0x8000_0000
    ensures Before(U32(now), U32(deadline)) <==> now < deadline
    ensures now <= deadline ==> Remaining(U32(deadline), U32(now)) == deadline - now
    ensures deadline < now ==> Remaining(U32(deadline), U32(now)) == WRAP - (now - deadline)
  {
    var a, b := now / WRAP, deadline / WRAP;
    assert now == a * WRAP + U32(now) && deadline == b * WRAP + U32(deadline);
    if a + 1 < b || b + 1 < a {
      assert false;
    }
  }
}
