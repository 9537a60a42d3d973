/** Whole runs of the poll schedule: how long one begin_tracking can keep a device polled, how many
    failed polls one window accepts, and what a burst of pops at one instant does. */
module PollRuns {
  import opened PollPolicy

  // ---- Runs

  /** The clock does not wrap within a window, and a pop returns what the scan finds. */
  ghost predicate Possible(m: Table, e: Call) {
    match e
    case Begin(id, delay, now) => now + MAX_TRACKED_STATUS_POLL_WINDOW_MS < 0x1_0000_0000
    case Pop(now, r) => FirstReady(m, now, r)
    case _ => true
  }

  function After(es: seq<Call>): Table {
    if es == [] then map[] else Step(After(es[..|es| - 1]), es[|es| - 1])
  }

  ghost predicate IsRun(es: seq<Call>) {
    es == [] || (IsRun(es[..|es| - 1]) && Possible(After(es[..|es| - 1]), es[|es| - 1]))
  }

  datatype Time = Never | At(ms: nat)

  /** When the device's tracking was last begun. */
  function LastBegin(es: seq<Call>, id: string): Time {
    if es == [] then Never
    else
      var n := |es| - 1;
      if es[n].Begin? && es[n].id == id then At(es[n].now) else LastBegin(es[..n], id)
  }

  /** Whatever happens after begin_tracking, the window's end stays where begin_tracking put it. */
  ghost predicate WindowKept(t: Tracking, began: Time) {
    t.deadline == 0 || (began.At? && t.deadline == began.ms + 600000)
  }

  lemma {:induction false} WindowsKept(es: seq<Call>, id: string)
    requires IsRun(es)
    ensures id in After(es) ==> WindowKept(After(es)[id], LastBegin(es, id))
  {
    if es != [] {
      WindowsKept(es[..|es| - 1], id);
    }
  }

  /** No device is handed out later than ten minutes after its last begin_tracking, whatever re-arms it. */
  lemma BoundedPolling(es: seq<Call>, now: nat, id: string)
    requires IsRun(es) && FirstReady(After(es), now, Some(id))
    ensures LastBegin(es, id).At? && now <= LastBegin(es, id).ms + 600000
  {
    WindowsKept(es, id);
  }

  /** While it lasts, the window hands the device out: after begin_tracking with a delay it is ready at every time
      past the delay and within ten minutes. */
  lemma BegunIsReady(m: Table, id: string, delay: nat, now: nat, later: nat)
    requires 0 < delay && now + delay < later <= now + 600000 < 0x1_0000_0000
    ensures Ready(Step(m, Call.Begin(id, delay, now)), id, later)
  {
  }

  /** A failure that is granted a retry makes the device ready after its backoff, until the window ends. */
  lemma FailedIsReady(m: Table, id: string, authLike: bool, now: nat, later: nat)
    requires id in m && Retries(m[id], authLike, now) && now + Backoff(m[id], authLike) < 0x1_0000_0000
    requires now + Backoff(m[id], authLike) < later <= m[id].deadline
    ensures Ready(Step(m, Call.Fail(id, authLike, now)), id, later)
  {
    BackoffIsPositive(m[id], authLike);
  }

  lemma BackoffIsPositive(t: Tracking, authLike: bool)
    ensures Backoff(t, authLike) > 0
  {
  }

  /** When the device's interval was last configured, and to what. */
  function LastInterval(es: seq<Call>, id: string): nat {
    if es == [] then 0
    else
      var n := |es| - 1;
      if es[n].SetInterval? && es[n].id == id then es[n].interval else LastInterval(es[..n], id)
  }

  /** Intervals are configuration: nothing but set_interval ever changes one. */
  lemma {:induction false} IntervalsKept(es: seq<Call>, id: string)
    ensures Entry(After(es), id).interval == LastInterval(es, id)
  {
    if es != [] {
      IntervalsKept(es[..|es| - 1], id);
    }
  }

  // ---- Failures within one window

  /** A command or poll begun at `startAt` whose failure is reported at `failAt`. */
  datatype Attempt = Attempt(startAt: nat, failAt: nat, authLike: bool)

  function Attempted(t: Tracking, a: Attempt): Tracking {
    Failed(t.(nextUpdate := 0), a.authLike, a.failAt)
  }

  /** The attempt comes after `since` and its failure is granted a retry. */
  ghost predicate Granted(t: Tracking, since: nat, a: Attempt) {
    since <= a.startAt <= a.failAt && Retries(t.(nextUpdate := 0), a.authLike, a.failAt)
  }

  ghost predicate AllGranted(t: Tracking, since: nat, attempts: seq<Attempt>)
    decreases |attempts|
  {
    attempts == [] ||
    (Granted(t, since, attempts[0]) && AllGranted(Attempted(t, attempts[0]), attempts[0].failAt, attempts[1..]))
  }

  /** The attempt does not wait until it is due. */
  predicate Early(t: Tracking, a: Attempt) {
    t.nextUpdate != 0 && !Due(t, a.startAt)
  }

  /** How many attempts after the first start before the retry they were granted is due.  Polls popped
      from the schedule never do; polls queued by a timer of their own may. */
  function EarlyStarts(t: Tracking, attempts: seq<Attempt>): nat
    decreases |attempts|
  {
    if attempts == [] then 0
    else (if Early(t, attempts[0]) then 1 else 0) + EarlyStarts(Attempted(t, attempts[0]), attempts[1..])
  }

  /** The earliest time at which the next attempt can start when due. */
  function Front(t: Tracking, since: nat): nat {
    if t.nextUpdate > since then t.nextUpdate else since
  }

  /** The window that began then; the clock is ten more minutes away from wrapping when it ends. */
  ghost predicate InWindow(t: Tracking, began: nat) {
    && t.deadline == began + MAX_TRACKED_STATUS_POLL_WINDOW_MS
    && t.deadline + MAX_TRACKED_STATUS_POLL_WINDOW_MS < 0x1_0000_0000
  }

  /** How far ahead of the long-run average of 50 s per three retries a streak can be, times 5 s. */
  function Credit(t: Tracking): nat {
    if t.statusFailures == 1 then 7 else if t.statusFailures == 2 then 8 else 0
  }

  /** `k` retries with `e` early starts have used up at least their share of the window; not counting the
      wait for the next one they have done so with one more early start allowed. */
  ghost predicate Paced(t: Tracking, since: nat, began: nat, k: nat, e: nat) {
    && began <= since
    && 3 * (Front(t, since) - began) + 5000 * Credit(t) + 90000 * e >= 50000 * k
    && 3 * (since - began) + 5000 * Credit(t) + 90000 * (e + 1) >= 50000 * k
    && (k > 0 ==> Front(t, since) <= t.deadline)
    && (t.statusFailures != 0 ==> t.authFailures == 0)
  }

  /** One granted failure moves the schedule on by the backoff. */
  lemma GrantedSchedule(t: Tracking, since: nat, a: Attempt, began: nat)
    requires InWindow(t, began) && Granted(t, since, a)
    ensures var u := Attempted(t, a);
            && InWindow(u, began)
            && u == Counted(t, a.authLike).(nextUpdate := u.nextUpdate)
            && u.nextUpdate == a.failAt + Backoff(t, a.authLike) <= u.deadline
            && a.failAt >= since && (!Early(t, a) ==> a.failAt >= Front(t, since))
  {
  }

  /** A backoff pays for the retry, and for the credit it takes away. */
  lemma BackoffPays(t: Tracking, authLike: bool)
    requires t.statusFailures != 0 ==> t.authFailures == 0
    ensures 3 * Backoff(t, authLike) + 5000 * Credit(Counted(t, authLike)) >= 50000 + 5000 * Credit(t)
  {
  }

  lemma GrantedPaced(t: Tracking, since: nat, a: Attempt, began: nat, k: nat, e: nat)
    requires InWindow(t, began) && Paced(t, since, began, k, e) && Granted(t, since, a)
    ensures Paced(Attempted(t, a), a.failAt, began, k + 1, e + if Early(t, a) then 1 else 0)
  {
    hide Backoff, Failed, Retries, Granted, Early;
    GrantedSchedule(t, since, a, began);
    BackoffPays(t, a.authLike);
  }

  lemma {:induction false} MixedRetries(t: Tracking, since: nat, attempts: seq<Attempt>, began: nat, k: nat, e: nat)
    requires InWindow(t, began) && Paced(t, since, began, k, e) && AllGranted(t, since, attempts)
    ensures 5 * (k + |attempts|) <= 184 + 9 * (e + EarlyStarts(t, attempts))
    decreases |attempts|
  {
    hide Failed, Granted, Early;
    if attempts != [] {
      var a := attempts[0];
      GrantedSchedule(t, since, a, began);
      GrantedPaced(t, since, a, began, k, e);
      MixedRetries(Attempted(t, a), a.failAt, attempts[1..], began, k + 1, e + if Early(t, a) then 1 else 0);
    }
  }

  /** The backoffs of the first `k` failures of one class, added up. */
  function Spent(k: nat, authLike: bool): nat {
    if k == 0 then 0 else Spent(k - 1, authLike) + RetryDelay(k, authLike)
  }

  lemma SpentAll()
    ensures Spent(6, false) == 710000 && Spent(4, true) == 750000
  {
    assert Spent(3, false) == 50000;
  }

  lemma {:induction false} SpentGrows(j: nat, k: nat, authLike: bool)
    requires j <= k
    ensures Spent(j, authLike) <= Spent(k, authLike)
  {
    if j < k {
      SpentGrows(j, k - 1, authLike);
    }
  }

  /** `k` retries of one class with `e` early starts have spent the first `k - e` backoffs. */
  ghost predicate Spending(t: Tracking, since: nat, began: nat, authLike: bool, k: nat, e: nat) {
    && began <= since && e <= k && (k < 255 ==> k == if authLike then t.authFailures else t.statusFailures)
    && (k >= 255 ==> (if authLike then t.authFailures else t.statusFailures) == 255)
    && began + Spent(k - e, authLike) <= Front(t, since)
    && (e < k ==> began + Spent(k - e - 1, authLike) <= since)
    && (k > 0 ==> Front(t, since) <= t.deadline)
  }

  /** The next backoff of a class is the next term, or one no smaller. */
  lemma NextBackoff(t: Tracking, authLike: bool, k: nat, e: nat)
    requires e <= k && (k < 255 ==> k == if authLike then t.authFailures else t.statusFailures)
    requires k >= 255 ==> (if authLike then t.authFailures else t.statusFailures) == 255
    ensures Backoff(t, authLike) >= RetryDelay(k + 1 - e, authLike)
    ensures e < k ==> Backoff(t, authLike) >= RetryDelay(k - e, authLike)
  {
  }

  lemma GrantedSpending(t: Tracking, since: nat, a: Attempt, began: nat, k: nat, e: nat)
    requires InWindow(t, began) && Spending(t, since, began, a.authLike, k, e) && Granted(t, since, a)
    requires k == 0 ==> !Early(t, a)
    ensures Spending(Attempted(t, a), a.failAt, began, a.authLike, k + 1, e + if Early(t, a) then 1 else 0)
  {
    hide Backoff, Failed, Retries, Granted, Early, RetryDelay;
    GrantedSchedule(t, since, a, began);
    NextBackoff(t, a.authLike, k, e);
    assert Spent(k + 1 - e, a.authLike) == Spent(k - e, a.authLike) + RetryDelay(k + 1 - e, a.authLike);
    if e < k {
      assert Spent(k - e, a.authLike) == Spent(k - e - 1, a.authLike) + RetryDelay(k - e, a.authLike);
    }
  }

  lemma {:induction false} UniformRetries(t: Tracking, since: nat, attempts: seq<Attempt>, began: nat, authLike: bool,
                                          k: nat, e: nat)
    requires InWindow(t, began) && Spending(t, since, began, authLike, k, e) && AllGranted(t, since, attempts)
    requires k == 0 ==> t.nextUpdate == 0
    requires forall i :: 0 <= i < |attempts| ==> attempts[i].authLike == authLike
    ensures k + |attempts| <= (if authLike then 3 else 5) + e + EarlyStarts(t, attempts)
    decreases |attempts|
  {
    hide Failed, Granted, Spent, RetryDelay;
    if attempts != [] {
      var a := attempts[0];
      GrantedSchedule(t, since, a, began);
      GrantedSpending(t, since, a, began, k, e);
      UniformRetries(Attempted(t, a), a.failAt, attempts[1..], began, authLike, k + 1,
                     e + if Early(t, a) then 1 else 0);
    } else if k - e > if authLike then 3 else 5 {
      SpentAll();
      SpentGrows(if authLike then 4 else 6, k - e, authLike);
    }
  }

  /** How many retries one window grants after `e` attempts that started early: for failures of any mixture
      `5 n <= 184 + 9 e`, when all are silent `n <= 5 + e`, when all are auth-like `n <= 3 + e`.  Without
      early starts these are 36, 5 and 3, and the failure after that clears the entry. */
  lemma RetriesPerWindow(t: Tracking, delay: nat, began: nat, attempts: seq<Attempt>)
    requires began + 2 * MAX_TRACKED_STATUS_POLL_WINDOW_MS < 0x1_0000_0000
    requires AllGranted(Begun(t, delay, began), began, attempts)
    ensures var e := EarlyStarts(Begun(t, 0, began), attempts);
            && 5 * |attempts| <= 184 + 9 * e
            && (e == 0 ==> |attempts| <= 36)
            && ((forall i :: 0 <= i < |attempts| ==> !attempts[i].authLike) ==> |attempts| <= 5 + e)
            && ((forall i :: 0 <= i < |attempts| ==> attempts[i].authLike) ==> |attempts| <= 3 + e)
  {
    var b := Begun(t, 0, began);
    assert AllGranted(b, began, attempts) by { DelayIrrelevant(t, delay, began, attempts); }
    MixedRetries(b, began, attempts, began, 0, 0);
    if forall i :: 0 <= i < |attempts| ==> !attempts[i].authLike {
      UniformRetries(b, began, attempts, began, false, 0, 0);
    }
    if forall i :: 0 <= i < |attempts| ==> attempts[i].authLike {
      UniformRetries(b, began, attempts, began, true, 0, 0);
    }
  }

  /** The first attempt of a window may come at any time. */
  lemma DelayIrrelevant(t: Tracking, delay: nat, began: nat, attempts: seq<Attempt>)
    ensures AllGranted(Begun(t, delay, began), began, attempts) <==> AllGranted(Begun(t, 0, began), began, attempts)
  {
    hide Failed;
    var b, c := Begun(t, delay, began), Begun(t, 0, began);
    assert b.(nextUpdate := 0) == c.(nextUpdate := 0);
  }

  /** The attempt waits until it is due. */
  ghost predicate Retried(t: Tracking, since: nat, a: Attempt) {
    Granted(t, since, a) && !Early(t, a)
  }

  ghost predicate AllRetried(t: Tracking, since: nat, attempts: seq<Attempt>)
    decreases |attempts|
  {
    attempts == [] ||
    (Retried(t, since, attempts[0]) && AllRetried(Attempted(t, attempts[0]), attempts[0].failAt, attempts[1..]))
  }

  lemma {:induction false} RetriedMeansGranted(t: Tracking, since: nat, attempts: seq<Attempt>)
    ensures AllRetried(t, since, attempts) <==> AllGranted(t, since, attempts) && EarlyStarts(t, attempts) == 0
    decreases |attempts|
  {
    hide Granted, Attempted;
    if attempts != [] {
      RetriedMeansGranted(Attempted(t, attempts[0]), attempts[0].failAt, attempts[1..]);
    }
  }

  // ---- The bounds are reached

  /** Two silent failures and a challenged one, repeated, each reported 1 ms after it became due. */
  function Slowest(at: nat, n: nat): (attempts: seq<Attempt>)
    ensures |attempts| == 3 * n
    decreases n
  {
    if n == 0 then []
    else
      [Attempt(at, at, false), Attempt(at + 5001, at + 5001, false), Attempt(at + 20002, at + 20002, true)]
      + Slowest(at + 50003, n - 1)
  }

  /** Eleven rounds and a last one in another order: 36 retries in one window. */
  function Longest(at: nat): (attempts: seq<Attempt>)
    ensures |attempts| == 36
  {
    var end := at + 11 * 50003;
    Slowest(at, 11)
    + [Attempt(end, end, false), Attempt(end + 5001, end + 5001, true), Attempt(end + 35002, end + 35002, false)]
  }

  lemma {:induction false} SlowestRetried(t: Tracking, since: nat, n: nat, at: nat, rest: seq<Attempt>, began: nat)
    requires InWindow(t, began) && began <= since <= at && t.nextUpdate < at && at + n * 50003 <= began + 560000
    requires t.statusFailures == 0
    requires forall u: Tracking, s: nat ::
               (InWindow(u, began) && s <= at + n * 50003 && u.nextUpdate < at + n * 50003 && u.statusFailures == 0)
               ==> AllRetried(u, s, rest)
    ensures AllRetried(t, since, Slowest(at, n) + rest)
    decreases n
  {
    if n == 0 {
      assert Slowest(at, n) + rest == rest;
    } else {
      var x, y := Attempt(at, at, false), Attempt(at + 5001, at + 5001, false);
      var z := Attempt(at + 20002, at + 20002, true);
      var tail := Slowest(at + 50003, n - 1) + rest;
      var t1 := Attempted(t, x);
      var t2 := Attempted(t1, y);
      var t3 := Attempted(t2, z);
      SlowestRetried(t3, z.failAt, n - 1, at + 50003, rest, began);
      ThreeRetried(t, since, x, y, z, tail);
      assert Slowest(at, n) + rest == [x, y, z] + tail;
    }
  }

  lemma ThreeRetried(t: Tracking, since: nat, x: Attempt, y: Attempt, z: Attempt, tail: seq<Attempt>)
    requires Retried(t, since, x) && Retried(Attempted(t, x), x.failAt, y)
    requires Retried(Attempted(Attempted(t, x), y), y.failAt, z)
    requires AllRetried(Attempted(Attempted(Attempted(t, x), y), z), z.failAt, tail)
    ensures AllRetried(t, since, [x, y, z] + tail)
  {
    hide Retried, Attempted;
    assert ([z] + tail)[1..] == tail;
    assert AllRetried(Attempted(Attempted(t, x), y), y.failAt, [z] + tail);
    assert ([y, z] + tail)[1..] == [z] + tail;
    assert AllRetried(Attempted(t, x), x.failAt, [y, z] + tail);
    assert ([x, y, z] + tail)[1..] == [y, z] + tail;
  }

  /** 36 is the exact bound: there are 36 failures that one window accepts. */
  lemma LongestRetried(t: Tracking, began: nat)
    requires began + 2 * MAX_TRACKED_STATUS_POLL_WINDOW_MS < 0x1_0000_0000
    ensures |Longest(began + 1)| == 36
    ensures AllGranted(Begun(t, 0, began), began, Longest(began + 1))
    ensures EarlyStarts(Begun(t, 0, began), Longest(began + 1)) == 0
  {
    var at := began + 1;
    var end := at + 11 * 50003;
    var x, y := Attempt(end, end, false), Attempt(end + 5001, end + 5001, true);
    var z := Attempt(end + 35002, end + 35002, false);
    forall u: Tracking, s: nat | InWindow(u, began) && s <= end && u.nextUpdate < end && u.statusFailures == 0
      ensures AllRetried(u, s, [x, y, z])
    {
      ThreeRetried(u, s, x, y, z, []);
      assert [x, y, z] + [] == [x, y, z];
    }
    SlowestRetried(Begun(t, 0, began), began, 11, at, [x, y, z], began);
    RetriedMeansGranted(Begun(t, 0, began), began, Longest(at));
  }

  // ---- Draining at one instant

  /** Popping again and again at the time `now` returns `out`, then nothing, and leaves `m'`. */
  ghost predicate Drains(m: Table, now: nat, out: seq<string>, m': Table)
    decreases |out|
  {
    if out == [] then FirstReady(m, now, None) && m' == AfterPop(m, now, None)
    else FirstReady(m, now, Some(out[0])) && Drains(AfterPop(m, now, Some(out[0])), now, out[1..], m')
  }

  /** What becomes of one entry. */
  function Settled(t: Tracking, now: nat): Tracking {
    if !Due(t, now) then t else if Active(t, now) then t.(nextUpdate := 0) else Cleared(t)
  }

  /** After one pop the other ready devices are still ready, and entries only move towards Settled. */
  lemma PopSettles(m: Table, now: nat, d: string)
    requires FirstReady(m, now, Some(d))
    ensures var m1 := AfterPop(m, now, Some(d));
            forall k :: k in m ==>
              && Settled(m1[k], now) == Settled(m[k], now)
              && (Ready(m1, k, now) <==> Ready(m, k, now) && k != d)
              && (Ready(m1, k, now) ==> Less(d, k))
  {
    LessIrreflexive(d);
    forall k | k in m && k != d
      ensures Less(k, d) || Less(d, k)
    {
      LessTotal(k, d);
    }
  }

  /** Each device that is due and still tracked is returned exactly once and in key order, each due
      one whose window has closed is cleared, and everything else stays. */
  lemma {:induction false} DrainExact(m: Table, now: nat, out: seq<string>, m': Table)
    requires Drains(m, now, out, m')
    ensures forall k :: k in out <==> Ready(m, k, now)
    ensures forall i, j :: 0 <= i < j < |out| ==> Less(out[i], out[j])
    ensures m'.Keys == m.Keys && forall k :: k in m ==> m'[k] == Settled(m[k], now)
    decreases |out|
  {
    hide Less;
    if out == [] {
      assert forall k :: k in m ==> !Ready(m, k, now);
    } else {
      var d := out[0];
      var m1 := AfterPop(m, now, Some(d));
      PopSettles(m, now, d);
      DrainExact(m1, now, out[1..], m');
      assert out == [d] + out[1..];
      forall k
        ensures k in out <==> Ready(m, k, now)
      {
        assert k in out <==> k == d || k in out[1..];
        assert k in out[1..] <==> Ready(m1, k, now);
      }
      forall i, j | 0 <= i < j < |out|
        ensures Less(out[i], out[j])
      {
        assert out[j] == out[1..][j - 1] && out[j] in out[1..];
        if i == 0 {
          assert Ready(m1, out[j], now);
        } else {
          assert out[i] == out[1..][i - 1];
        }
      }
    }
  }

  /** The popping always comes to an end. */
  lemma {:induction false} DrainEnds(m: Table, now: nat) returns (out: seq<string>, m': Table)
    ensures Drains(m, now, out, m')
    decreases |set k | k in m && Ready(m, k, now)|
  {
    hide Less;
    var ready := set k | k in m && Ready(m, k, now);
    if ready == {} {
      assert forall k :: k in m && Ready(m, k, now) ==> k in ready;
      return [], AfterPop(m, now, None);
    }
    LeastExists(ready);
    var d :| IsLeast(d, ready);
    FirstReadyLeast(m, now, d, ready);
    var m1 := AfterPop(m, now, Some(d));
    PopSettles(m, now, d);
    assert (set k | k in m1 && Ready(m1, k, now)) == ready - {d};
    var rest;
    rest, m' := DrainEnds(m1, now);
    out := [d] + rest;
    assert out[1..] == rest;
  }

  lemma FirstReadyLeast(m: Table, now: nat, d: string, ready: set<string>)
    requires IsLeast(d, ready) && ready == set k | k in m && Ready(m, k, now)
    ensures FirstReady(m, now, Some(d))
  {
    hide Less;
    forall k | k in m && Less(k, d)
      ensures !Ready(m, k, now)
    {
      if k in ready {
        LessTransitive(k, d, k);
        LessIrreflexive(k);
      }
    }
  }
}
