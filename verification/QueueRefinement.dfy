/** Coalescing against plain first-in first-out execution.  A call that merges into a pending entry is
    compared with executing it after everything already queued: the two agree exactly when the guard
    below holds, a whole run whose calls meet their guards leaves every device where FIFO would, and
    calling discipline alone can ensure the guards. */
module QueueRefinement {
  import opened OperationQueue
  import opened QueueRuns

  // ---- What executing operations leaves behind

  /** Where a device was last told to go: nowhere, to a value, or by a named command. */
  datatype Target = Unset | At(value: nat) | Commanded(command: CoverCommand)

  datatype Setting = Setting(position: Target, tilt: Target)

  /** The position an operation writes, if it writes one; named commands override both components. */
  function PositionOf(op: Op): Target {
    match op.kind
    case SetPosition => At(op.position)
    case SetPositionAndTilt => At(op.position)
    case SetLightState => At(op.position)
    case SetLockState => At(op.position)
    case SetSwitchState => At(op.position)
    case DeviceCommand => Commanded(op.command)
    case _ => Unset
  }

  function TiltOf(op: Op): Target {
    match op.kind
    case SetTilt => At(op.position)
    case SetPositionAndTilt => At(op.tilt)
    case DeviceCommand => Commanded(op.command)
    case _ => Unset
  }

  function Override(old_: Target, new_: Target): Target {
    if new_ == Unset then old_ else new_
  }

  function Execute(s: Setting, op: Op, device: string): Setting {
    if op.device != device then s
    else Setting(Override(s.position, PositionOf(op)), Override(s.tilt, TiltOf(op)))
  }

  /** The device's setting after executing `ops` in order. */
  function ExecuteAll(s: Setting, ops: seq<Op>, device: string): Setting {
    if ops == [] then s
    else Execute(ExecuteAll(s, ops[..|ops| - 1], device), ops[|ops| - 1], device)
  }

  const FRESH := Setting(Unset, Unset)

  lemma {:induction false} ExecuteConcat(s: Setting, x: seq<Op>, y: seq<Op>, device: string)
    ensures ExecuteAll(s, x + y, device) == ExecuteAll(ExecuteAll(s, x, device), y, device)
  {
    if y == [] {
      assert x + y == x;
    } else {
      assert (x + y)[..|x + y| - 1] == x + y[..|y| - 1];
      ExecuteConcat(s, x, y[..|y| - 1], device);
    }
  }

  /** A sequence of operations overrides what was there with what it writes last. */
  lemma {:induction false} ExecuteOverrides(s: Setting, ops: seq<Op>, device: string)
    ensures var f := ExecuteAll(FRESH, ops, device);
            ExecuteAll(s, ops, device) == Setting(Override(s.position, f.position), Override(s.tilt, f.tilt))
  {
    if ops != [] {
      ExecuteOverrides(s, ops[..|ops| - 1], device);
    }
  }

  lemma {:induction false} BackgroundIsInert(s: Setting, ops: seq<Op>, device: string)
    requires forall i :: 0 <= i < |ops| ==> IsBackground(ops[i])
    ensures ExecuteAll(s, ops, device) == s
  {
    if ops != [] {
      BackgroundIsInert(s, ops[..|ops| - 1], device);
    }
  }

  // ---- Calls that push

  /** Executing a queue that a control operation was pushed on is executing the operation last. */
  lemma PushIsLast(s: Setting, q: seq<Op>, op: Op, device: string)
    requires Shape(q) && IsControl(op)
    ensures ExecuteAll(s, PushControl(q, op), device) == Execute(ExecuteAll(s, q, device), op, device)
  {
    hide PushControl, Without, ExecuteAll;
    var d, c, b :| Parts(q, d, c, b);
    var w := Without(b, RequestStatus, op.device);
    PushControlParts(q, d, c, b, op);
    assert d + (c + [op]) == (d + c) + [op];
    ExecuteConcat(s, d + (c + [op]), w, device);
    ExecuteConcat(s, d + c, [op], device);
    ExecuteConcat(s, d + c, b, device);
    BackgroundIsInert(ExecuteAll(s, d + (c + [op]), device), w, device);
    BackgroundIsInert(ExecuteAll(s, d + c, device), b, device);
    ExecuteOne(ExecuteAll(s, d + c, device), op, device);
  }

  lemma ExecuteOne(s: Setting, op: Op, device: string)
    ensures ExecuteAll(s, [op], device) == Execute(s, op, device)
  {
    assert [op][..0] == [];
    assert ExecuteAll(s, [], device) == s;
  }

  // ---- Calls that coalesce

  /** What the entries behind index `i` write last for the device. */
  function Behind(q: seq<Op>, i: nat, device: string): Setting
    requires i < |q|
  {
    ExecuteAll(FRESH, q[i + 1..], device)
  }

  /** The guard of enqueue_set_position: no tilt is pending for the device, or behind the first one
      nothing else says where the device should go. */
  predicate PositionGuard(q: seq<Op>, device: string, position: nat) {
    var i := Find(q, SetTilt, device);
    i < |q| ==> Behind(q, i, device).position in {Unset, At(position)}
  }

  predicate TiltGuard(q: seq<Op>, device: string, tilt: nat) {
    var i := Find(q, SetPosition, device);
    i < |q| ==> Behind(q, i, device).tilt in {Unset, At(tilt)}
  }

  lemma SplitAt(s: Setting, q: seq<Op>, i: nat, device: string)
    requires i < |q|
    ensures ExecuteAll(s, q, device)
         == ExecuteAll(Execute(ExecuteAll(s, q[..i], device), q[i], device), q[i + 1..], device)
  {
    hide ExecuteAll;
    assert q == q[..i] + [q[i]] + q[i + 1..];
    ExecuteConcat(s, q[..i] + [q[i]], q[i + 1..], device);
    ExecuteConcat(s, q[..i], [q[i]], device);
    ExecuteOne(ExecuteAll(s, q[..i], device), q[i], device);
  }

  lemma UpdateAt(s: Setting, q: seq<Op>, i: nat, op: Op, device: string)
    requires i < |q|
    ensures ExecuteAll(s, q[i := op], device)
         == ExecuteAll(Execute(ExecuteAll(s, q[..i], device), op, device), q[i + 1..], device)
  {
    hide ExecuteAll;
    var r := q[i := op];
    SplitAt(s, r, i, device);
    assert r[..i] == q[..i] && r[i + 1..] == q[i + 1..];
  }

  /** Exactly when enqueue_set_position agrees with FIFO on the device it names. */
  lemma SetPositionExact(s: Setting, q: seq<Op>, device: string, position: nat)
    requires Shape(q)
    ensures ExecuteAll(s, AfterSetPosition(q, device, position), device)
         == Execute(ExecuteAll(s, q, device), Plain(SetPosition, device, position), device)
       <==> PositionGuard(q, device, position)
  {
    hide ExecuteAll, PushControl;
    var i := Find(q, SetTilt, device);
    var op := Plain(SetPosition, device, position);
    if i < |q| {
      var merged := q[i].(kind := SetPositionAndTilt, position := position, tilt := q[i].position);
      var before := ExecuteAll(s, q[..i], device);
      SplitAt(s, q, i, device);
      UpdateAt(s, q, i, merged, device);
      ExecuteOverrides(Execute(before, q[i], device), q[i + 1..], device);
      ExecuteOverrides(Execute(before, merged, device), q[i + 1..], device);
    } else {
      PushIsLast(s, q, op, device);
    }
  }

  /** Exactly when enqueue_set_tilt agrees with FIFO on the device it names. */
  lemma SetTiltExact(s: Setting, q: seq<Op>, device: string, tilt: nat)
    requires Shape(q)
    ensures ExecuteAll(s, AfterSetTilt(q, device, tilt), device)
         == Execute(ExecuteAll(s, q, device), Plain(SetTilt, device, tilt), device)
       <==> TiltGuard(q, device, tilt)
  {
    hide ExecuteAll, PushControl;
    var i := Find(q, SetPosition, device);
    var op := Plain(SetTilt, device, tilt);
    if i < |q| {
      var merged := q[i].(kind := SetPositionAndTilt, tilt := tilt);
      var before := ExecuteAll(s, q[..i], device);
      SplitAt(s, q, i, device);
      UpdateAt(s, q, i, merged, device);
      ExecuteOverrides(Execute(before, q[i], device), q[i + 1..], device);
      ExecuteOverrides(Execute(before, merged, device), q[i + 1..], device);
    } else {
      PushIsLast(s, q, op, device);
    }
  }

  /** Other devices never notice a coalescing call. */
  lemma OthersUnaffected(s: Setting, q: seq<Op>, c: Call, device: string)
    requires Coalesces(q, c) && c.device != device
    ensures ExecuteAll(s, AfterCall(q, c), device) == ExecuteAll(s, q, device)
  {
    hide ExecuteAll;
    var i := if c.CallSetPosition? then Find(q, SetTilt, c.device) else Find(q, SetPosition, c.device);
    SplitAt(s, q, i, device);
    UpdateAt(s, q, i, AfterCall(q, c)[i], device);
  }

  // ---- Whole runs

  /** The guard of a call, as far as the device is concerned. */
  predicate Guard(q: seq<Op>, c: Call, device: string) {
    match c
    case CallSetPosition(d, p) => d == device ==> PositionGuard(q, d, p)
    case CallSetTilt(d, t) => d == device ==> TiltGuard(q, d, t)
    case _ => true
  }

  ghost predicate Guarded(calls: seq<Call>, device: string) {
    forall i :: 0 <= i < |calls| ==> Guard(After(calls[..i]), calls[i], device)
  }

  /** One call: the queue behind what was already executed agrees with FIFO exactly under the guard. */
  lemma CallExact(s: Setting, q: seq<Op>, c: Call, device: string)
    requires Shape(q) && !c.CallPop?
    ensures ExecuteAll(s, AfterCall(q, c), device)
         == (if Control(c) then Execute(ExecuteAll(s, q, device), Requested(c), device) else ExecuteAll(s, q, device))
       <==> Guard(q, c, device)
  {
    hide ExecuteAll, PushControl;
    if Control(c) {
      if Coalesces(q, c) {
        if c.device != device {
          OthersUnaffected(s, q, c, device);
        } else if c.CallSetPosition? {
          SetPositionExact(s, q, device, c.position);
        } else {
          SetTiltExact(s, q, device, c.tilt);
        }
      } else {
        ControlCall(q, c);
        PushIsLast(s, q, Requested(c), device);
      }
    } else {
      BackgroundCall(s, q, c, device);
    }
  }

  /** Polls and discovery do not move devices. */
  lemma BackgroundCall(s: Setting, q: seq<Op>, c: Call, device: string)
    requires Shape(q) && (c.CallStatus? || c.CallName? || c.CallDiscover?)
    ensures ExecuteAll(s, AfterCall(q, c), device) == ExecuteAll(s, q, device)
  {
    hide ExecuteAll;
    if c.CallDiscover? {
      if !DiscoverPending(q) {
        var d, k, b :| Parts(q, d, k, b);
        DiscoverParts(q, d, k, b);
        var op := Plain(DiscoverAndPair, "", 0);
        assert AfterDiscover(q) == [op] + k;
        assert q == k + b;
        ExecuteConcat(s, [op], k, device);
        ExecuteConcat(s, k, b, device);
        ExecuteOne(s, op, device);
        BackgroundIsInert(ExecuteAll(s, k, device), b, device);
      }
    } else {
      var op := Plain(if c.CallStatus? then RequestStatus else RequestName, c.device, 0);
      ExecuteConcat(s, q, [op], device);
      ExecuteOne(ExecuteAll(s, q, device), op, device);
    }
  }

  lemma GuardedLast(calls: seq<Call>, device: string)
    requires Guarded(calls, device) && calls != []
    ensures Guarded(calls[..|calls| - 1], device)
    ensures Guard(After(calls[..|calls| - 1]), calls[|calls| - 1], device)
  {
    hide Guard, After;
    var n := |calls| - 1;
    assert forall i :: 0 <= i < n ==> calls[..n][..i] == calls[..i];
  }

  /** Refinement: if every call of a run on the device met its guard, then what was popped followed by
      what is still queued leaves the device where executing every call in order would. */
  lemma {:induction false} CoalescingRefinesFifo(calls: seq<Call>, device: string)
    requires Guarded(calls, device)
    ensures ExecuteAll(FRESH, Popped(calls) + After(calls), device) == ExecuteAll(FRESH, Issued(calls), device)
  {
    if calls == [] {
      assert Popped(calls) + After(calls) == [];
    } else {
      hide ExecuteAll, Guard, Guarded, Popped, After, Issued;
      GuardedLast(calls, device);
      CoalescingRefinesFifo(calls[..|calls| - 1], device);
      RunStep(calls, device);
    }
  }

  lemma RunStep(calls: seq<Call>, device: string)
    requires calls != []
    requires Guard(After(calls[..|calls| - 1]), calls[|calls| - 1], device)
    requires var prefix := calls[..|calls| - 1];
             ExecuteAll(FRESH, Popped(prefix) + After(prefix), device) == ExecuteAll(FRESH, Issued(prefix), device)
    ensures ExecuteAll(FRESH, Popped(calls) + After(calls), device) == ExecuteAll(FRESH, Issued(calls), device)
  {
    hide ExecuteAll, Guard, AfterCall, Requested;
    var n := |calls| - 1;
    var prefix, c := calls[..n], calls[n];
    var q := After(prefix);
    if c.CallPop? {
      PopStep(q);
      assert q != [] ==> Popped(prefix) + [q[0]] + q[1..] == Popped(prefix) + q;
    } else {
      ReachableShape(prefix);
      ExecuteCall(Popped(prefix), q, Issued(prefix), c, device);
    }
  }

  lemma PopStep(q: seq<Op>)
    ensures AfterCall(q, CallPop) == if q == [] then [] else q[1..]
  {
  }

  lemma ExecuteCall(popped: seq<Op>, q: seq<Op>, issued: seq<Op>, c: Call, device: string)
    requires Shape(q) && !c.CallPop? && Guard(q, c, device)
    requires ExecuteAll(FRESH, popped + q, device) == ExecuteAll(FRESH, issued, device)
    ensures ExecuteAll(FRESH, popped + AfterCall(q, c), device)
         == ExecuteAll(FRESH, if Control(c) then issued + [Requested(c)] else issued, device)
  {
    hide ExecuteAll, Guard, AfterCall, Requested, Execute;
    var s := ExecuteAll(FRESH, popped, device);
    ExecuteConcat(FRESH, popped, q, device);
    ExecuteConcat(FRESH, popped, AfterCall(q, c), device);
    CallExact(s, q, c, device);
    if Control(c) {
      ExecuteConcat(FRESH, issued, [Requested(c)], device);
      ExecuteOne(ExecuteAll(FRESH, issued, device), Requested(c), device);
    }
  }

  /** Once the queue is drained, the popped operations alone tell where the device went. */
  lemma DrainedRunMatchesFifo(calls: seq<Call>, device: string)
    requires Guarded(calls, device) && After(calls) == []
    ensures ExecuteAll(FRESH, Popped(calls), device) == ExecuteAll(FRESH, Issued(calls), device)
  {
    hide ExecuteAll;
    CoalescingRefinesFifo(calls, device);
    assert Popped(calls) + [] == Popped(calls);
  }

  // ---- A calling discipline that ensures the guards

  predicate Bare(op: Op) {
    op.kind == SetPosition || op.kind == SetTilt
  }

  predicate BarePending(q: seq<Op>, device: string) {
    Pending(q, SetPosition, device) || Pending(q, SetTilt, device)
  }

  /** Bare positions and tilts may be queued at any time; every other control operation for the device
      only while no bare one is pending. */
  predicate Disciplined(q: seq<Op>, c: Call, device: string) {
    Control(c) && c.device == device && !c.CallSetPosition? && !c.CallSetTilt? ==> !BarePending(q, device)
  }

  /** The bare operations of the device come last among its control operations and are of one kind. */
  ghost predicate Tidy(q: seq<Op>, device: string) {
    forall i, j :: 0 <= i < j < |q| && q[i].device == device && q[j].device == device && Bare(q[i]) && IsControl(q[j])
      ==> q[j].kind == q[i].kind
  }

  lemma TidyParts(q: seq<Op>, d: seq<Op>, c: seq<Op>, b: seq<Op>, device: string)
    requires Parts(q, d, c, b)
    ensures Tidy(q, device) <==> Tidy(c, device)
  {
    assert forall i :: 0 <= i < |c| ==> q[|d| + i] == c[i];
    assert forall i :: 0 <= i < |d| ==> q[i] == d[i];
    assert forall i :: |d| + |c| <= i < |q| ==> q[i] == b[i - |d| - |c|];
    if Tidy(c, device) {
      forall i, j | 0 <= i < j < |q| && q[i].device == device && q[j].device == device && Bare(q[i]) && IsControl(q[j])
        ensures q[j].kind == q[i].kind
      {
        assert q[i] == c[i - |d|] && q[j] == c[j - |d|];
      }
    }
  }

  lemma BareInParts(q: seq<Op>, d: seq<Op>, c: seq<Op>, b: seq<Op>, kind: Kind, device: string)
    requires Parts(q, d, c, b) && (kind == SetPosition || kind == SetTilt) && !Pending(q, kind, device)
    ensures forall i :: 0 <= i < |c| ==> !Is(c[i], kind, device)
  {
    assert forall i :: 0 <= i < |c| ==> q[|d| + i] == c[i];
  }

  lemma TidyPush(q: seq<Op>, c: Call, device: string)
    requires Shape(q) && Tidy(q, device) && Control(c) && !Coalesces(q, c) && Disciplined(q, c, device)
    ensures Tidy(AfterCall(q, c), device)
  {
    hide PushControl, Without, Tidy;
    var d, k, b :| Parts(q, d, k, b);
    var op := Requested(c);
    ControlCall(q, c);
    PushControlParts(q, d, k, b, op);
    TidyParts(q, d, k, b, device);
    TidyParts(PushControl(q, op), d, k + [op], Without(b, RequestStatus, op.device), device);
    if op.device == device && op.kind != SetPosition {
      BareInParts(q, d, k, b, SetPosition, device);
    }
    if op.device == device && op.kind != SetTilt {
      BareInParts(q, d, k, b, SetTilt, device);
    }
    TidyAppend(k, op, device);
  }

  lemma TidyAppend(k: seq<Op>, op: Op, device: string)
    requires Tidy(k, device)
    requires op.device == device && op.kind != SetPosition ==>
               forall i :: 0 <= i < |k| ==> !Is(k[i], SetPosition, device)
    requires op.device == device && op.kind != SetTilt ==> forall i :: 0 <= i < |k| ==> !Is(k[i], SetTilt, device)
    ensures Tidy(k + [op], device)
  {
  }

  lemma TidyCoalesce(q: seq<Op>, c: Call, device: string)
    requires Shape(q) && Tidy(q, device) && Coalesces(q, c)
    ensures Tidy(AfterCall(q, c), device)
  {
    var i := if c.CallSetPosition? then Find(q, SetTilt, c.device) else Find(q, SetPosition, c.device);
    var r := AfterCall(q, c);
    assert !Bare(r[i]) && r[i].device == q[i].device && IsControl(q[i]);
    if q[i].device == device {
      assert forall x :: 0 <= x < i && q[x].device == device ==> !Bare(q[x]);
    }
    forall x, y | 0 <= x < y < |r| && r[x].device == device && r[y].device == device && Bare(r[x]) && IsControl(r[y])
      ensures r[y].kind == r[x].kind
    {
      assert r[x] == q[x];
    }
  }

  lemma TidyPreserved(q: seq<Op>, c: Call, device: string)
    requires Shape(q) && Tidy(q, device) && Disciplined(q, c, device)
    ensures Tidy(AfterCall(q, c), device)
  {
    if Control(c) {
      if Coalesces(q, c) {
        TidyCoalesce(q, c, device);
      } else {
        TidyPush(q, c, device);
      }
    } else if c.CallDiscover? {
      var d, k, b :| Parts(q, d, k, b);
      DiscoverParts(q, d, k, b);
      TidyParts(q, d, k, b, device);
      if !DiscoverPending(q) {
        TidyParts(AfterDiscover(q), [Plain(DiscoverAndPair, "", 0)], k, [], device);
      }
    } else if !c.CallPop? {
      var d, k, b :| Parts(q, d, k, b);
      var kind := if c.CallStatus? then RequestStatus else RequestName;
      RequestParts(q, d, k, b, kind, c.device);
      TidyParts(q, d, k, b, device);
      TidyParts(AfterCall(q, c), d, k, if Pending(q, kind, c.device) then b else b + [Plain(kind, c.device, 0)],
                device);
    }
  }

  lemma {:induction false} NothingWritten(ops: seq<Op>, device: string)
    ensures (forall i :: 0 <= i < |ops| && ops[i].device == device ==> PositionOf(ops[i]) == Unset)
            ==> ExecuteAll(FRESH, ops, device).position == Unset
    ensures (forall i :: 0 <= i < |ops| && ops[i].device == device ==> TiltOf(ops[i]) == Unset)
            ==> ExecuteAll(FRESH, ops, device).tilt == Unset
  {
    if ops != [] {
      NothingWritten(ops[..|ops| - 1], device);
    }
  }

  lemma TidyMeansGuard(q: seq<Op>, c: Call, device: string)
    requires Tidy(q, device)
    ensures Guard(q, c, device)
  {
    hide ExecuteAll;
    if c.CallSetPosition? && c.device == device && Pending(q, SetTilt, device) {
      var i := Find(q, SetTilt, device);
      NothingWritten(q[i + 1..], device);
    } else if c.CallSetTilt? && c.device == device && Pending(q, SetPosition, device) {
      var i := Find(q, SetPosition, device);
      NothingWritten(q[i + 1..], device);
    }
  }

  ghost predicate DisciplinedRun(calls: seq<Call>, device: string) {
    forall i :: 0 <= i < |calls| ==> Disciplined(After(calls[..i]), calls[i], device)
  }

  lemma {:induction false} DisciplineKeepsTidy(calls: seq<Call>, device: string)
    requires DisciplinedRun(calls, device)
    ensures Tidy(After(calls), device)
  {
    if calls != [] {
      hide Tidy, Disciplined;
      var n := |calls| - 1;
      assert forall i :: 0 <= i < n ==> calls[..n][..i] == calls[..i];
      DisciplineKeepsTidy(calls[..n], device);
      ReachableShape(calls[..n]);
      TidyPreserved(After(calls[..n]), calls[n], device);
    }
  }

  /** A disciplined run of any length, with pops anywhere, ends where FIFO would. */
  lemma DisciplinedRunMatchesFifo(calls: seq<Call>, device: string)
    requires DisciplinedRun(calls, device)
    ensures ExecuteAll(FRESH, Popped(calls) + After(calls), device) == ExecuteAll(FRESH, Issued(calls), device)
  {
    hide Tidy, Guard, ExecuteAll;
    forall i | 0 <= i < |calls|
      ensures Guard(After(calls[..i]), calls[i], device)
    {
      assert forall k :: 0 <= k < i ==> calls[..i][..k] == calls[..k];
      DisciplineKeepsTidy(calls[..i], device);
      TidyMeansGuard(After(calls[..i]), calls[i], device);
    }
    CoalescingRefinesFifo(calls, device);
  }

  /** Without the discipline the newest position can be lost: tilt 10, then position and tilt (30, 20),
      then position 50 ends at position 30. */
  lemma LostPosition(device: string)
    ensures var calls := [CallSetTilt(device, 10), CallPositionAndTilt(device, 30, 20), CallSetPosition(device, 50)];
            && ExecuteAll(FRESH, Popped(calls) + After(calls), device).position == At(30)
            && ExecuteAll(FRESH, Issued(calls), device).position == At(50)
  {
    hide ExecuteAll;
    var calls := [CallSetTilt(device, 10), CallPositionAndTilt(device, 30, 20), CallSetPosition(device, 50)];
    var both, merged := Op(SetPositionAndTilt, device, 30, 20, Stop), Op(SetPositionAndTilt, device, 50, 10, Stop);
    var tilt, last := Plain(SetTilt, device, 10), Plain(SetPosition, device, 50);
    LostPositionRun(device);
    hide After, Popped, Issued;
    ExecuteConcat(FRESH, [merged], [both], device);
    ExecuteOne(ExecuteAll(FRESH, [merged], device), both, device);
    assert [] + [merged, both] == [merged] + [both];
    ExecuteConcat(FRESH, [tilt, both], [last], device);
    ExecuteOne(ExecuteAll(FRESH, [tilt, both], device), last, device);
    assert [tilt, both] + [last] == [tilt, both, last];
  }

  lemma LostPositionRun(device: string)
    ensures var calls := [CallSetTilt(device, 10), CallPositionAndTilt(device, 30, 20), CallSetPosition(device, 50)];
            var both := Op(SetPositionAndTilt, device, 30, 20, Stop);
            && Popped(calls) == []
            && After(calls) == [Op(SetPositionAndTilt, device, 50, 10, Stop), both]
            && Issued(calls) == [Plain(SetTilt, device, 10), both, Plain(SetPosition, device, 50)]
  {
    hide PushControl;
    var a, b, c := CallSetTilt(device, 10), CallPositionAndTilt(device, 30, 20), CallSetPosition(device, 50);
    var tilt, both := Plain(SetTilt, device, 10), Op(SetPositionAndTilt, device, 30, 20, Stop);
    PushOnControls([], tilt);
    PushOnControls([tilt], both);
    assert AfterCall([], a) == [tilt];
    assert AfterCall([tilt], b) == [tilt, both];
    assert AfterCall([tilt, both], c) == [Op(SetPositionAndTilt, device, 50, 10, Stop), both];
    ThreeCalls(a, b, c);
  }

  lemma ThreeCalls(a: Call, b: Call, c: Call)
    requires Control(a) && Control(b) && Control(c)
    ensures After([a, b, c]) == AfterCall(AfterCall(AfterCall([], a), b), c)
    ensures Popped([a, b, c]) == []
    ensures Issued([a, b, c]) == [Requested(a), Requested(b), Requested(c)]
  {
    hide AfterCall, Requested;
    assert [a, b, c][..2] == [a, b] && [a, b][..1] == [a] && [a][..0] == [];
    assert After([a]) == AfterCall([], a) && Popped([a]) == [] && Issued([a]) == [Requested(a)];
    assert After([a, b]) == AfterCall(After([a]), b) && Popped([a, b]) == [];
    assert Issued([a, b]) == [Requested(a), Requested(b)];
  }

  lemma PushOnControls(k: seq<Op>, op: Op)
    requires forall i :: 0 <= i < |k| ==> IsControl(k[i])
    ensures PushControl(k, op) == k + [op]
  {
    WithoutNone(k, RequestStatus, op.device);
    FindBackgroundParts(k, []);
    assert k + [] == k;
  }
}
