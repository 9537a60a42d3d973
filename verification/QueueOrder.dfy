/** The order in which control operations leave the queue: over any run, the ones handed out and the ones
    still queued are, in this order, exactly those the calls pushed, in call order, none lost and none
    invented; each is what its call requested, or that merged with one later call. */
module QueueOrder {
  import opened OperationQueue
  import opened QueueRuns

  /** The control operations of a queue, in order. */
  function Controls(q: seq<Op>): seq<Op> {
    if q == [] then []
    else
      var n := |q| - 1;
      if IsControl(q[n]) then Controls(q[..n]) + [q[n]] else Controls(q[..n])
  }

  /** The indices of the calls that pushed a control operation instead of merging into one. */
  function Pushes(calls: seq<Call>): seq<nat> {
    if calls == [] then []
    else
      var n := |calls| - 1;
      if Control(calls[n]) && !Coalesces(After(calls[..n]), calls[n]) then Pushes(calls[..n]) + [n]
      else Pushes(calls[..n])
  }

  /** A bare tilt or position together with the bare position or tilt of a later call. */
  function Merge(op: Op, c: Call): Op
    requires c.CallSetPosition? || c.CallSetTilt?
  {
    if c.CallSetPosition? then op.(kind := SetPositionAndTilt, position := c.position, tilt := op.position)
    else op.(kind := SetPositionAndTilt, tilt := c.tilt)
  }

  predicate Mergeable(op: Op, c: Call) {
    || (c.CallSetPosition? && op.kind == SetTilt && op.device == c.device)
    || (c.CallSetTilt? && op.kind == SetPosition && op.device == c.device)
  }

  /** The entry is what call `i` requested, merged with the later call `m`. */
  predicate MergedBy(calls: seq<Call>, op: Op, i: nat, m: nat) {
    && i < m < |calls| && Control(calls[i]) && Mergeable(Requested(calls[i]), calls[m])
    && Coalesces(After(calls[..m]), calls[m])
    && op == Merge(Requested(calls[i]), calls[m])
  }

  ghost predicate ComesFrom(calls: seq<Call>, op: Op, i: nat) {
    && i < |calls| && Control(calls[i])
    && (op == Requested(calls[i]) || exists m :: MergedBy(calls, op, i, m))
  }

  /** Entry by entry, `ops` are what the calls in `origins` asked for, in call order. */
  ghost predicate Arrived(calls: seq<Call>, ops: seq<Op>, origins: seq<nat>) {
    && |ops| == |origins|
    && (forall i, j :: 0 <= i < j < |origins| ==> origins[i] < origins[j])
    && (forall k :: 0 <= k < |ops| ==> ComesFrom(calls, ops[k], origins[k]))
  }

  // ---- Filtering

  lemma {:induction false} ControlsConcat(x: seq<Op>, y: seq<Op>)
    ensures Controls(x + y) == Controls(x) + Controls(y)
  {
    if y == [] {
      assert x + y == x;
    } else {
      var n := |y| - 1;
      assert (x + y)[..|x| + n] == x + y[..n];
      ControlsConcat(x, y[..n]);
    }
  }

  lemma {:induction false} ControlsAll(q: seq<Op>)
    requires forall i :: 0 <= i < |q| ==> IsControl(q[i])
    ensures Controls(q) == q
  {
    if q != [] {
      ControlsAll(q[..|q| - 1]);
    }
  }

  lemma {:induction false} ControlsNone(q: seq<Op>)
    requires forall i :: 0 <= i < |q| ==> !IsControl(q[i])
    ensures Controls(q) == []
  {
    if q != [] {
      ControlsNone(q[..|q| - 1]);
    }
  }

  lemma ControlsOfParts(q: seq<Op>, d: seq<Op>, c: seq<Op>, b: seq<Op>)
    requires Parts(q, d, c, b)
    ensures Controls(q) == c
  {
    ControlsConcat(d + c, b);
    ControlsConcat(d, c);
    ControlsNone(d);
    ControlsAll(c);
    ControlsNone(b);
  }

  // ---- One call

  /** What is known of an entry stays known. */
  lemma ComesFromLater(calls: seq<Call>, op: Op, i: nat)
    requires calls != [] && ComesFrom(calls[..|calls| - 1], op, i)
    ensures ComesFrom(calls, op, i)
  {
    hide After, Coalesces, Merge, Mergeable;
    var prefix := calls[..|calls| - 1];
    if op != Requested(calls[i]) {
      var m: nat :| MergedBy(prefix, op, i, m);
      assert prefix[..m] == calls[..m];
      assert MergedBy(calls, op, i, m);
    }
  }

  lemma ArrivedLater(calls: seq<Call>, ops: seq<Op>, origins: seq<nat>)
    requires calls != [] && Arrived(calls[..|calls| - 1], ops, origins)
    ensures Arrived(calls, ops, origins)
  {
    hide ComesFrom;
    forall k | 0 <= k < |ops|
      ensures ComesFrom(calls, ops[k], origins[k])
    {
      ComesFromLater(calls, ops[k], origins[k]);
    }
  }

  /** A pushed operation arrives last. */
  lemma ArrivedPush(calls: seq<Call>, ops: seq<Op>, origins: seq<nat>)
    requires calls != [] && Control(calls[|calls| - 1]) && Arrived(calls[..|calls| - 1], ops, origins)
    ensures Arrived(calls, ops + [Requested(calls[|calls| - 1])], origins + [|calls| - 1])
  {
    hide Requested, MergedBy;
    ArrivedLater(calls, ops, origins);
    var n := |calls| - 1;
    assert forall k :: 0 <= k < |ops| ==> ComesFrom(calls[..n], ops[k], origins[k]);
  }

  /** A merging call changes one entry that no call has merged into before. */
  lemma ArrivedMerge(calls: seq<Call>, ops: seq<Op>, origins: seq<nat>, k: nat)
    requires calls != [] && Arrived(calls[..|calls| - 1], ops, origins) && k < |ops|
    requires var c := calls[|calls| - 1];
             Mergeable(ops[k], c) && Coalesces(After(calls[..|calls| - 1]), c)
    ensures Arrived(calls, ops[k := Merge(ops[k], calls[|calls| - 1])], origins)
  {
    hide After, Coalesces, Requested;
    var n := |calls| - 1;
    ArrivedLater(calls, ops, origins);
    assert ComesFrom(calls[..n], ops[k], origins[k]);
    assert ops[k] == Requested(calls[origins[k]]);
    assert MergedBy(calls, Merge(ops[k], calls[n]), origins[k], n);
  }

  /** The parts of the queue after one call, and what became of the control operations. */
  lemma StepArrived(calls: seq<Call>, d: seq<Op>, c: seq<Op>, b: seq<Op>)
    returns (d': seq<Op>, c': seq<Op>, b': seq<Op>)
    requires calls != []
    requires var prefix := calls[..|calls| - 1];
             Parts(After(prefix), d, c, b) && Arrived(prefix, Controls(Popped(prefix)) + c, Pushes(prefix))
    ensures Parts(After(calls), d', c', b')
    ensures Arrived(calls, Controls(Popped(calls)) + c', Pushes(calls))
  {
    hide Arrived, Parts, AfterCall, Coalesces, Requested, Controls;
    var n := |calls| - 1;
    var prefix, call := calls[..n], calls[n];
    var q := After(prefix);
    if Control(call) {
      if Coalesces(q, call) {
        d', b' := d, b;
        c' := StepMerge(calls, d, c, b);
      } else {
        d', c', b' := d, c + [Requested(call)], Without(b, RequestStatus, Requested(call).device);
        ControlCall(q, call);
        PushControlParts(q, d, c, b, Requested(call));
        ArrivedPush(calls, Controls(Popped(prefix)) + c, Pushes(prefix));
        assert Controls(Popped(prefix)) + c + [Requested(call)] == Controls(Popped(prefix)) + c';
      }
    } else {
      ArrivedLater(calls, Controls(Popped(prefix)) + c, Pushes(prefix));
      if call.CallPop? {
        d', c', b' := StepPop(q, d, c, b, Popped(prefix));
        PopIs(q);
      } else {
        d', b' := StepOther(q, d, c, b, call);
        c' := c;
      }
    }
  }

  lemma PopIs(q: seq<Op>)
    ensures AfterCall(q, CallPop) == if q == [] then [] else q[1..]
  {
  }

  lemma StepMerge(calls: seq<Call>, d: seq<Op>, c: seq<Op>, b: seq<Op>) returns (c': seq<Op>)
    requires calls != []
    requires var prefix := calls[..|calls| - 1];
             && Parts(After(prefix), d, c, b) && Arrived(prefix, Controls(Popped(prefix)) + c, Pushes(prefix))
             && Coalesces(After(prefix), calls[|calls| - 1])
    ensures Parts(After(calls), d, c', b)
    ensures Arrived(calls, Controls(Popped(calls[..|calls| - 1])) + c', Pushes(calls[..|calls| - 1]))
  {
    hide Arrived, Controls, Popped, Pushes, After;
    var n := |calls| - 1;
    var call, q, done := calls[n], After(calls[..n]), Controls(Popped(calls[..n]));
    var i := Find(q, if call.CallSetPosition? then SetTilt else SetPosition, call.device);
    var op := Merge(q[i], call);
    CoalesceParts(q, d, c, b, i, op);
    c' := c[i - |d| := op];
    assert q[i] == c[i - |d|] == (done + c)[|done| + i - |d|];
    ArrivedMerge(calls, done + c, Pushes(calls[..n]), |done| + i - |d|);
    assert (done + c)[|done| + i - |d| := op] == done + c';
    AfterLast(calls);
  }

  /** What a pop takes is a control operation exactly when only the discovery stands before them. */
  lemma FrontControls(q: seq<Op>, d: seq<Op>, c: seq<Op>, b: seq<Op>)
    requires Parts(q, d, c, b) && q != []
    ensures Controls([q[0]]) == if d == [] && c != [] then [c[0]] else []
  {
    assert [q[0]][..0] == [];
    assert q[0] == if d != [] then d[0] else if c != [] then c[0] else b[0];
  }

  lemma FrontMoves(p: seq<Op>, c: seq<Op>)
    ensures p + [] == p
    ensures c != [] ==> p + [c[0]] + c[1..] == p + c
  {
  }

  lemma StepPop(q: seq<Op>, d: seq<Op>, c: seq<Op>, b: seq<Op>, popped: seq<Op>)
    returns (d': seq<Op>, c': seq<Op>, b': seq<Op>)
    requires Parts(q, d, c, b)
    ensures Parts(if q == [] then [] else q[1..], d', c', b')
    ensures Controls(if q == [] then popped else popped + [q[0]]) + c' == Controls(popped) + c
  {
    hide Controls, Parts;
    d', c', b' := d, c, b;
    if q != [] {
      PopParts(q, d, c, b);
      ControlsConcat(popped, [q[0]]);
      FrontControls(q, d, c, b);
      FrontMoves(Controls(popped), c);
      if d != [] {
        d' := [];
      } else if c != [] {
        d', c' := [], c[1..];
      } else {
        d', c', b' := [], [], b[1..];
      }
    }
  }

  lemma StepOther(q: seq<Op>, d: seq<Op>, c: seq<Op>, b: seq<Op>, call: Call) returns (d': seq<Op>, b': seq<Op>)
    requires Parts(q, d, c, b) && !Control(call) && !call.CallPop?
    ensures Parts(AfterCall(q, call), d', c, b')
  {
    hide Parts;
    d', b' := d, b;
    if call.CallDiscover? {
      DiscoverParts(q, d, c, b);
      if d == [] {
        d', b' := [Plain(DiscoverAndPair, "", 0)], [];
      }
    } else {
      var kind := if call.CallStatus? then RequestStatus else RequestName;
      RequestParts(q, d, c, b, kind, call.device);
      if !Pending(q, kind, call.device) {
        b' := b + [Plain(kind, call.device, 0)];
      }
    }
  }

  // ---- Whole runs

  lemma {:induction false} RunArrived(calls: seq<Call>) returns (d: seq<Op>, c: seq<Op>, b: seq<Op>)
    ensures Parts(After(calls), d, c, b) && Arrived(calls, Controls(Popped(calls)) + c, Pushes(calls))
    decreases |calls|
  {
    if calls == [] {
      d, c, b := [], [], [];
    } else {
      d, c, b := RunArrived(calls[..|calls| - 1]);
      d, c, b := StepArrived(calls, d, c, b);
    }
  }

  lemma ArrivedSuffix(calls: seq<Call>, p: seq<Op>, c: seq<Op>, origins: seq<nat>)
    requires Arrived(calls, p + c, origins)
    ensures |c| <= |origins| && Arrived(calls, c, origins[|origins| - |c|..])
  {
    hide ComesFrom;
    forall k | 0 <= k < |c|
      ensures ComesFrom(calls, c[k], origins[|p| + k])
    {
      assert c[k] == (p + c)[|p| + k];
    }
  }

  /** Every reachable queue is a discovery at most, then the control operations in arrival order, then the
      polls; and with those handed out before, the control operations are exactly the pushed ones. */
  lemma ArrivalOrder(calls: seq<Call>) returns (d: seq<Op>, c: seq<Op>, b: seq<Op>)
    ensures Parts(After(calls), d, c, b) && c == Controls(After(calls))
    ensures Arrived(calls, Controls(Popped(calls) + After(calls)), Pushes(calls))
    ensures |c| <= |Pushes(calls)| && Arrived(calls, c, Pushes(calls)[|Pushes(calls)| - |c|..])
  {
    hide Parts, After, Popped, Pushes, Controls, Arrived;
    d, c, b := RunArrived(calls);
    ControlsOfParts(After(calls), d, c, b);
    ControlsConcat(Popped(calls), After(calls));
    ArrivedSuffix(calls, Controls(Popped(calls)), c, Pushes(calls));
  }
}
