/** The per-device poll schedule of status_poll_policy.cpp: a class over one table, each method proved
    against a function on the table, and the functions that the run theorems of PollRuns speak about. */
module PollPolicy {
  import opened Clock

  const MAX_TRACKED_STATUS_POLL_WINDOW_MS: nat := 600000
  const DEFAULT_SETTLE_POLL_DELAY_MS: nat := 3000
  const STOP_SETTLE_POLL_CAP_MS: nat := 1000

  datatype Tracking = Tracking(interval: nat, nextUpdate: nat, deadline: nat, statusFailures: nat, authFailures: nat)

  const UNTRACKED := Tracking(0, 0, 0, 0, 0)

  type Table = map<string, Tracking>

  /** The entry of a device; the table behaves as if unknown devices had the default entry. */
  function Entry(m: Table, id: string): (t: Tracking)
    ensures id !in m ==> t == Tracking(0, 0, 0, 0, 0)
  {
    if id in m then m[id] else UNTRACKED
  }

  function Cleared(t: Tracking): Tracking {
    Tracking(t.interval, 0, 0, 0, 0)
  }

  predicate Active(t: Tracking, now: nat) {
    t.deadline != 0 && now <= t.deadline
  }

  predicate Due(t: Tracking, now: nat) {
    t.nextUpdate != 0 && now > t.nextUpdate
  }

  /** retry_delay_ms. */
  function RetryDelay(failures: nat, authLike: bool): nat {
    if authLike then
      if failures <= 1 then 30000 else if failures == 2 then 120000 else 300000
    else if failures <= 1 then 5000 else if failures == 2 then 15000
    else if failures == 3 then 30000 else if failures == 4 then 60000 else 300000
  }

  /** settle_delay_ms. */
  function SettleDelay(interval: nat, hint: nat, capForStop: bool): (d: nat)
    ensures d > 0
    ensures d <= (if interval != 0 then interval else 3000)
    ensures hint != 0 ==> d <= hint
    ensures capForStop ==> d <= 1000
    ensures d == (if interval != 0 then interval else 3000)
            || (d == hint != 0) || (capForStop && d == 1000)
  {
    var d0 := if interval != 0 then interval else DEFAULT_SETTLE_POLL_DELAY_MS;
    var d1 := if hint != 0 && hint < d0 then hint else d0;
    if capForStop && STOP_SETTLE_POLL_CAP_MS < d1 then STOP_SETTLE_POLL_CAP_MS else d1
  }

  // ---- The operations on one entry

  function Begun(t: Tracking, initialDelay: nat, now: nat): Tracking {
    Tracking(t.interval, if initialDelay == 0 then 0 else U32(now + initialDelay),
             U32(now + MAX_TRACKED_STATUS_POLL_WINDOW_MS), 0, 0)
  }

  /** The counters after one more failure; the other class of failure starts over. */
  function Counted(t: Tracking, authLike: bool): Tracking {
    if authLike then
      t.(statusFailures := 0, authFailures := if t.authFailures < 255 then t.authFailures + 1 else t.authFailures)
    else
      t.(authFailures := 0, statusFailures := if t.statusFailures < 255 then t.statusFailures + 1 else t.statusFailures)
  }

  function Backoff(t: Tracking, authLike: bool): nat {
    var c := Counted(t, authLike);
    RetryDelay(if authLike then c.authFailures else c.statusFailures, authLike)
  }

  /** on_exchange_failed grants a retry when it still fits into the window. */
  predicate Retries(t: Tracking, authLike: bool, now: nat) {
    Active(t, now) && U32(now + Backoff(t, authLike)) <= t.deadline
  }

  function Failed(t: Tracking, authLike: bool, now: nat): Tracking {
    if Retries(t, authLike, now) then Counted(t, authLike).(nextUpdate := U32(now + Backoff(t, authLike)))
    else Cleared(t)
  }

  // ---- The due-device scan

  /** Lexicographic order on device names, the iteration order of the table. */
  predicate Less(a: string, b: string) {
    if b == [] then false
    else if a == [] then true
    else a[0] < b[0] || (a[0] == b[0] && Less(a[1..], b[1..]))
  }

  lemma {:induction false} LessTotal(a: string, b: string)
    ensures Less(a, b) || a == b || Less(b, a)
  {
    if a != [] && b != [] && a[0] == b[0] {
      LessTotal(a[1..], b[1..]);
      assert a == [a[0]] + a[1..] && b == [b[0]] + b[1..];
    }
  }

  lemma {:induction false} LessIrreflexive(a: string)
    ensures !Less(a, a)
  {
    if a != [] {
      LessIrreflexive(a[1..]);
    }
  }

  lemma {:induction false} LessTransitive(a: string, b: string, c: string)
    requires Less(a, b) && Less(b, c)
    ensures Less(a, c)
  {
    if a != [] && a[0] == b[0] && b[0] == c[0] {
      LessTransitive(a[1..], b[1..], c[1..]);
    }
  }

  ghost predicate IsLeast(k: string, s: set<string>) {
    k in s && forall j :: j in s && j != k ==> Less(k, j)
  }

  lemma {:induction false} LeastExists(s: set<string>)
    requires s != {}
    ensures exists k :: IsLeast(k, s)
    decreases |s|
  {
    var x :| x in s;
    var r := s - {x};
    assert s == r + {x};
    if r == {} {
      assert IsLeast(x, s);
    } else {
      LeastExists(r);
      var k :| IsLeast(k, r);
      LessTotal(x, k);
      if Less(x, k) {
        LeastWith(x, k, r);
        assert IsLeast(x, s);
      } else {
        assert IsLeast(k, s);
      }
    }
  }

  lemma LeastWith(x: string, k: string, r: set<string>)
    requires IsLeast(k, r) && Less(x, k)
    ensures forall j :: j in r ==> Less(x, j)
  {
    forall j | j in r
      ensures Less(x, j)
    {
      if j != k {
        LessTransitive(x, k, j);
      }
    }
  }

  /** The device is due and its window still open. */
  predicate Ready(m: Table, id: string, now: nat) {
    id in m && Due(m[id], now) && Active(m[id], now)
  }

  datatype Popped = None | Some(id: string)

  /** The first device in key order that is ready, or none. */
  ghost predicate FirstReady(m: Table, now: nat, r: Popped) {
    match r
    case None => forall k :: k in m ==> !Ready(m, k, now)
    case Some(d) => Ready(m, d, now) && forall k :: k in m && Less(k, d) ==> !Ready(m, k, now)
  }

  /** The scan visits the entries up to the result: due ones whose window has closed are cleared, the
      result's schedule is consumed, and nothing else changes. */
  function AfterPop(m: Table, now: nat, r: Popped): (m': Table)
    ensures m'.Keys == m.Keys
  {
    map k | k in m ::
      if r.Some? && k == r.id then m[k].(nextUpdate := 0)
      else if (r.None? || Less(k, r.id)) && Due(m[k], now) && !Active(m[k], now) then Cleared(m[k])
      else m[k]
  }

  // ---- One call as a step

  /** One call on the policy, with the result in the case of a pop. */
  datatype Call =
    | SetInterval(id: string, interval: nat)
    | Begin(id: string, delay: nat, now: nat)
    | Clear(id: string)
    | SetNext(id: string, time: nat)
    | Fail(id: string, authLike: bool, now: nat)
    | ClearStreaks(id: string)
    | Pop(now: nat, result: Popped)

  function Put(m: Table, id: string, t: Tracking): Table {
    m[id := t]
  }

  /** The table after one call, as the contracts of StatusPollPolicy state it. */
  function Step(m: Table, e: Call): Table {
    match e
    case SetInterval(id, interval) => Put(m, id, Entry(m, id).(interval := interval))
    case Begin(id, delay, now) => Put(m, id, Begun(Entry(m, id), delay, now))
    case Clear(id) => if id in m then Put(m, id, Cleared(m[id])) else m
    case SetNext(id, time) => Put(m, id, Entry(m, id).(nextUpdate := time))
    case Fail(id, authLike, now) => if id in m then Put(m, id, Failed(m[id], authLike, now)) else m
    case ClearStreaks(id) => if id in m then Put(m, id, m[id].(statusFailures := 0, authFailures := 0)) else m
    case Pop(now, r) => AfterPop(m, now, r)
  }

  // ---- The class

  class StatusPollPolicy {
    var tracking: Table

    constructor ()
      ensures tracking == map[]
    {
      tracking := map[];
    }

    method SetInterval(id: string, interval: nat)
      modifies this
      ensures tracking == Step(old(tracking), Call.SetInterval(id, interval))
    {
      tracking := tracking[id := Entry(tracking, id).(interval := interval)];
    }

    method BeginTracking(id: string, initialDelay: nat, now: nat)
      modifies this
      ensures tracking == Step(old(tracking), Call.Begin(id, initialDelay, now))
    {
      var t := Entry(tracking, id);
      t := t.(deadline := U32(now + MAX_TRACKED_STATUS_POLL_WINDOW_MS));
      t := t.(nextUpdate := if initialDelay == 0 then 0 else U32(now + initialDelay));
      t := t.(statusFailures := 0, authFailures := 0);
      tracking := tracking[id := t];
    }

    method Clear(id: string)
      modifies this
      ensures tracking == Step(old(tracking), Call.Clear(id))
    {
      if id !in tracking {
        return;
      }
      tracking := tracking[id := tracking[id].(nextUpdate := 0, deadline := 0, statusFailures := 0, authFailures := 0)];
    }

    method SetNextUpdate(id: string, time: nat)
      modifies this
      ensures tracking == Step(old(tracking), Call.SetNext(id, time))
    {
      tracking := tracking[id := Entry(tracking, id).(nextUpdate := time)];
    }

    predicate IsTrackingActive(id: string, now: nat)
      reads this
    {
      id in tracking && Active(tracking[id], now)
    }

    /** Returns the backoff granted, or 0 when tracking was given up. */
    method OnExchangeFailed(id: string, authLike: bool, now: nat) returns (backoff: nat)
      modifies this
      ensures tracking == Step(old(tracking), Call.Fail(id, authLike, now))
      ensures id !in old(tracking) ==> backoff == 0
      ensures id in old(tracking) ==>
                backoff == if Retries(old(tracking)[id], authLike, now) then Backoff(old(tracking)[id], authLike) else 0
    {
      if id !in tracking {
        return 0;
      }
      var t := tracking[id];
      if authLike {
        t := t.(statusFailures := 0);
        if t.authFailures < 255 {
          t := t.(authFailures := t.authFailures + 1);
        }
        backoff := RetryDelay(t.authFailures, true);
      } else {
        t := t.(authFailures := 0);
        if t.statusFailures < 255 {
          t := t.(statusFailures := t.statusFailures + 1);
        }
        backoff := RetryDelay(t.statusFailures, false);
      }
      tracking := tracking[id := t];
      if IsTrackingActive(id, now) && U32(now + backoff) <= t.deadline {
        tracking := tracking[id := t.(nextUpdate := U32(now + backoff))];
        return backoff;
      }
      Clear(id);
      backoff := 0;
    }

    method ClearFailureStreaks(id: string)
      modifies this
      ensures tracking == Step(old(tracking), Call.ClearStreaks(id))
    {
      if id in tracking {
        tracking := tracking[id := tracking[id].(statusFailures := 0, authFailures := 0)];
      }
    }

    /** Visits the entries in key order. */
    method PopDueDevice(now: nat) returns (r: Popped)
      modifies this
      ensures FirstReady(old(tracking), now, r)
      ensures tracking == Step(old(tracking), Call.Pop(now, r))
    {
      hide Scanned, FirstReady, AfterPop;
      ghost var m := tracking;
      var rest := tracking.Keys;
      ScanStarts(m, now);
      while rest != {}
        invariant rest <= m.Keys && Scanned(m, tracking, rest, now)
        decreases |rest|
      {
        LeastExists(rest);
        var id: string :| id in rest && forall j :: j in rest && j != id ==> Less(id, j);
        assert IsLeast(id, rest);
        ScanNext(m, tracking, rest, id, now);
        rest := rest - {id};
        var t := tracking[id];
        if t.nextUpdate == 0 || now <= t.nextUpdate {
          continue;
        }
        if !IsTrackingActive(id, now) {
          Clear(id);
          continue;
        }
        tracking := tracking[id := t.(nextUpdate := 0)];
        return Some(id);
      }
      ScanEnds(m, tracking, now);
      r := None;
    }
  }

  /** How the table looks while the scan still has the keys in `rest` before it. */
  ghost predicate Scanned(m: Table, t: Table, rest: set<string>, now: nat) {
    && t.Keys == m.Keys
    && (forall k, j :: k in m.Keys - rest && j in rest ==> Less(k, j))
    && (forall k :: k in m.Keys - rest ==> !Ready(m, k, now))
    && (forall k :: k in m ==>
          t[k] == if k !in rest && Due(m[k], now) && !Active(m[k], now) then Cleared(m[k]) else m[k])
  }

  lemma ScanStarts(m: Table, now: nat)
    ensures Scanned(m, m, m.Keys, now)
  {
  }

  lemma ScanEnds(m: Table, t: Table, now: nat)
    requires Scanned(m, t, {}, now)
    ensures FirstReady(m, now, None) && t == AfterPop(m, now, None)
  {
    hide Less;
  }

  /** One entry of the scan: it is cleared, returned or passed over. */
  lemma ScanNext(m: Table, t: Table, rest: set<string>, id: string, now: nat)
    requires rest <= m.Keys && Scanned(m, t, rest, now) && IsLeast(id, rest)
    ensures id in t && t[id] == m[id]
    ensures !Due(t[id], now) ==> Scanned(m, t, rest - {id}, now)
    ensures Due(t[id], now) && !Active(t[id], now) ==> Scanned(m, t[id := Cleared(t[id])], rest - {id}, now)
    ensures Due(t[id], now) && Active(t[id], now) ==>
              FirstReady(m, now, Some(id)) && t[id := t[id].(nextUpdate := 0)] == AfterPop(m, now, Some(id))
  {
    hide Less;
    BelowIsVisited(m, rest, id);
  }

  /** When the scan reaches the least remaining key, exactly the smaller keys are behind it. */
  lemma BelowIsVisited(m: Table, rest: set<string>, id: string)
    requires rest <= m.Keys && IsLeast(id, rest)
    requires forall k, j :: k in m.Keys - rest && j in rest ==> Less(k, j)
    ensures !Less(id, id)
    ensures forall k :: k in m && k != id ==> (Less(k, id) <==> k !in rest)
  {
    LessIrreflexive(id);
    forall k | k in m && k != id
      ensures Less(k, id) <==> k !in rest
    {
      if k in rest && Less(k, id) {
        LessTransitive(k, id, k);
        LessIrreflexive(k);
      }
    }
  }
}
