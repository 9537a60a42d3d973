/** Whole runs of the operation queue: any sequence of enqueue calls and pops from the empty queue. */
module QueueRuns {
  import opened OperationQueue

  /** One call on the queue. */
  datatype Call =
    | CallSetPosition(device: string, position: nat)
    | CallSetTilt(device: string, tilt: nat)
    | CallPositionAndTilt(device: string, position: nat, tilt: nat)
    | CallCommand(device: string, command: CoverCommand)
    | CallLight(device: string, on: bool)
    | CallLock(device: string, locked: bool)
    | CallSwitch(device: string, on: bool)
    | CallStatus(device: string)
    | CallName(device: string)
    | CallDiscover
    | CallPop

  /** The control operation a call asks for. */
  function Requested(c: Call): Op
    requires Control(c)
  {
    match c
    case CallSetPosition(d, p) => Plain(SetPosition, d, p)
    case CallSetTilt(d, t) => Plain(SetTilt, d, t)
    case CallPositionAndTilt(d, p, t) => Op(SetPositionAndTilt, d, p, t, Stop)
    case CallCommand(d, cmd) => Op(DeviceCommand, d, 0, 0, cmd)
    case CallLight(d, on) => Plain(SetLightState, d, if on then 0 else 100)
    case CallLock(d, locked) => Plain(SetLockState, d, if locked then 100 else 0)
    case CallSwitch(d, on) => Plain(SetSwitchState, d, if on then 0 else 100)
  }

  predicate Control(c: Call) {
    !c.CallStatus? && !c.CallName? && !c.CallDiscover? && !c.CallPop?
  }

  function AfterCall(q: seq<Op>, c: Call): seq<Op> {
    match c
    case CallSetPosition(d, p) => AfterSetPosition(q, d, p)
    case CallSetTilt(d, t) => AfterSetTilt(q, d, t)
    case CallStatus(d) => AfterRequest(q, RequestStatus, d)
    case CallName(d) => AfterRequest(q, RequestName, d)
    case CallDiscover => AfterDiscover(q)
    case CallPop => if q == [] then [] else q[1..]
    case _ => PushControl(q, Requested(c))
  }

  /** The call merges with a pending entry instead of pushing one. */
  predicate Coalesces(q: seq<Op>, c: Call) {
    || (c.CallSetPosition? && Pending(q, SetTilt, c.device))
    || (c.CallSetTilt? && Pending(q, SetPosition, c.device))
  }

  lemma ControlCall(q: seq<Op>, c: Call)
    requires Control(c) && !Coalesces(q, c)
    ensures AfterCall(q, c) == PushControl(q, Requested(c)) && IsControl(Requested(c))
  {
  }

  /** The queue after a run from the empty queue. */
  function After(calls: seq<Call>): seq<Op> {
    if calls == [] then [] else AfterCall(After(calls[..|calls| - 1]), calls[|calls| - 1])
  }

  /** What the pops of a run have handed out, in order. */
  function Popped(calls: seq<Call>): seq<Op> {
    if calls == [] then []
    else
      var n := |calls| - 1;
      var q := After(calls[..n]);
      if calls[n].CallPop? && q != [] then Popped(calls[..n]) + [q[0]] else Popped(calls[..n])
  }

  /** The control operations of a run in call order: what a plain FIFO would execute. */
  function Issued(calls: seq<Call>): seq<Op> {
    if calls == [] then []
    else
      var n := |calls| - 1;
      if Control(calls[n]) then Issued(calls[..n]) + [Requested(calls[n])] else Issued(calls[..n])
  }

  // ---- The shape of a reachable queue

  ghost predicate Distinct(b: seq<Op>) {
    forall i, j :: 0 <= i < j < |b| && b[i].kind == b[j].kind ==> b[i].device != b[j].device
  }

  /** A discovery at most, then control operations, then polls with no two alike. */
  ghost predicate Parts(q: seq<Op>, d: seq<Op>, c: seq<Op>, b: seq<Op>) {
    && q == d + c + b
    && |d| <= 1
    && (forall i :: 0 <= i < |d| ==> d[i].kind == DiscoverAndPair)
    && (forall i :: 0 <= i < |c| ==> IsControl(c[i]))
    && (forall i :: 0 <= i < |b| ==> IsBackground(b[i]))
    && Distinct(b)
  }

  ghost predicate Shape(q: seq<Op>) {
    exists d, c, b :: Parts(q, d, c, b)
  }

  // ---- Filtering by parts

  lemma {:induction false} WithoutConcat(x: seq<Op>, y: seq<Op>, kind: Kind, device: string)
    ensures Without(x + y, kind, device) == Without(x, kind, device) + Without(y, kind, device)
  {
    if y == [] {
      assert x + y == x;
    } else {
      var n := |y| - 1;
      assert (x + y)[..|x| + n] == x + y[..n];
      WithoutConcat(x, y[..n], kind, device);
    }
  }

  lemma {:induction false} WithoutNone(q: seq<Op>, kind: Kind, device: string)
    requires forall i :: 0 <= i < |q| ==> !Is(q[i], kind, device)
    ensures Without(q, kind, device) == q
  {
    if q != [] {
      WithoutNone(q[..|q| - 1], kind, device);
    }
  }

  lemma {:induction false} WithoutMembers(q: seq<Op>, kind: Kind, device: string)
    ensures forall op :: op in Without(q, kind, device) <==> op in q && !Is(op, kind, device)
  {
    if q != [] {
      var n := |q| - 1;
      WithoutMembers(q[..n], kind, device);
      assert q == q[..n] + [q[n]];
    }
  }

  lemma {:induction false} WithoutDistinct(q: seq<Op>, kind: Kind, device: string)
    requires Distinct(q)
    ensures Distinct(Without(q, kind, device))
  {
    if q != [] {
      var n := |q| - 1;
      WithoutDistinct(q[..n], kind, device);
      WithoutMembers(q[..n], kind, device);
      var w := Without(q[..n], kind, device);
      forall i | 0 <= i < |w| && w[i].kind == q[n].kind
        ensures w[i].device != q[n].device
      {
        assert w[i] in q[..n];
      }
    }
  }

  lemma {:induction false} WithoutBackgroundParts(x: seq<Op>, b: seq<Op>)
    requires forall i :: 0 <= i < |x| ==> !IsBackground(x[i])
    requires forall i :: 0 <= i < |b| ==> IsBackground(b[i])
    ensures WithoutBackground(x + b) == x
    decreases |x| + |b|
  {
    var q := x + b;
    if q != [] {
      var n := |q| - 1;
      if b == [] {
        assert q == x && q[..n] == x[..n] + [];
        WithoutBackgroundParts(x[..n], []);
      } else {
        assert q[..n] == x + b[..|b| - 1];
        WithoutBackgroundParts(x, b[..|b| - 1]);
      }
    }
  }

  lemma FindBackgroundParts(x: seq<Op>, b: seq<Op>)
    requires forall i :: 0 <= i < |x| ==> !IsBackground(x[i])
    requires forall i :: 0 <= i < |b| ==> IsBackground(b[i])
    ensures FindBackground(x + b) == |x|
  {
    assert forall i :: 0 <= i < |x| ==> (x + b)[i] == x[i];
    if b != [] {
      assert (x + b)[|x|] == b[0];
    }
  }

  // ---- What each operation does to the parts

  /** A pushed control operation goes behind all earlier ones and ahead of all polls, and takes the
      device's status poll out of the queue. */
  lemma PushControlParts(q: seq<Op>, d: seq<Op>, c: seq<Op>, b: seq<Op>, op: Op)
    requires Parts(q, d, c, b) && IsControl(op)
    ensures Parts(PushControl(q, op), d, c + [op], Without(b, RequestStatus, op.device))
  {
    hide Without, FindBackground, Distinct;
    var x := d + c;
    var w := Without(b, RequestStatus, op.device);
    WithoutConcat(x, b, RequestStatus, op.device);
    WithoutNone(x, RequestStatus, op.device);
    PollsWithout(b, RequestStatus, op.device);
    FindBackgroundParts(x, w);
    assert (x + w)[..|x|] == x && (x + w)[|x|..] == w;
    assert x + [op] + w == d + (c + [op]) + w;
  }

  lemma PollsWithout(b: seq<Op>, kind: Kind, device: string)
    requires Distinct(b) && forall i :: 0 <= i < |b| ==> IsBackground(b[i])
    ensures var w := Without(b, kind, device); Distinct(w) && forall i :: 0 <= i < |w| ==> IsBackground(w[i])
  {
    var w := Without(b, kind, device);
    WithoutMembers(b, kind, device);
    WithoutDistinct(b, kind, device);
    forall i | 0 <= i < |w|
      ensures IsBackground(w[i])
    {
      assert w[i] in b;
    }
  }

  /** A coalescing call rewrites one control entry where it stands and leaves the polls alone. */
  lemma CoalesceParts(q: seq<Op>, d: seq<Op>, c: seq<Op>, b: seq<Op>, i: nat, op: Op)
    requires Parts(q, d, c, b) && i < |q| && IsControl(q[i]) && IsControl(op)
    ensures |d| <= i < |d| + |c| && Parts(q[i := op], d, c[i - |d| := op], b)
  {
    assert forall k :: 0 <= k < |d| ==> q[k] == d[k];
    assert forall k :: |d| + |c| <= k < |q| ==> q[k] == b[k - |d| - |c|];
    assert q[i := op] == d + c[i - |d| := op] + b;
  }

  lemma RequestParts(q: seq<Op>, d: seq<Op>, c: seq<Op>, b: seq<Op>, kind: Kind, device: string)
    requires Parts(q, d, c, b) && (kind == RequestStatus || kind == RequestName)
    ensures Parts(AfterRequest(q, kind, device), d, c,
                  if Pending(q, kind, device) then b else b + [Plain(kind, device, 0)])
  {
    if !Pending(q, kind, device) {
      var op := Plain(kind, device, 0);
      assert q + [op] == d + c + (b + [op]);
      forall i | 0 <= i < |b|
        ensures !Is(b[i], kind, device)
      {
        assert q[|d| + |c| + i] == b[i];
      }
    }
  }

  lemma DiscoverParts(q: seq<Op>, d: seq<Op>, c: seq<Op>, b: seq<Op>)
    requires Parts(q, d, c, b)
    ensures DiscoverPending(q) <==> d != []
    ensures if d != [] then AfterDiscover(q) == q else Parts(AfterDiscover(q), [Plain(DiscoverAndPair, "", 0)], c, [])
  {
    if d != [] {
      assert q[0] == d[0];
    } else {
      forall i | 0 <= i < |q|
        ensures q[i].kind != DiscoverAndPair
      {
        assert q[i] == if i < |c| then c[i] else b[i - |c|];
      }
      assert q == c + b;
      WithoutBackgroundParts(c, b);
      var op := Plain(DiscoverAndPair, "", 0);
      assert [op] + c == [op] + c + [];
    }
  }

  lemma PopParts(q: seq<Op>, d: seq<Op>, c: seq<Op>, b: seq<Op>)
    requires Parts(q, d, c, b) && q != []
    ensures d == [] && c == [] ==> b != []
    ensures if d != [] then Parts(q[1..], [], c, b)
            else if c != [] then Parts(q[1..], [], c[1..], b)
            else Parts(q[1..], [], [], b[1..])
  {
    if d != [] {
      assert q[1..] == [] + c + b;
    } else if c != [] {
      assert q[1..] == [] + c[1..] + b;
    } else {
      assert q[1..] == [] + [] + b[1..];
    }
  }

  lemma CoalesceKeepsShape(q: seq<Op>, d: seq<Op>, c: seq<Op>, b: seq<Op>, call: Call)
    requires Parts(q, d, c, b) && Control(call) && Coalesces(q, call)
    ensures Shape(AfterCall(q, call))
  {
    hide Parts;
    if call.CallSetPosition? {
      var i := Find(q, SetTilt, call.device);
      CoalesceParts(q, d, c, b, i,
                    q[i].(kind := SetPositionAndTilt, position := call.position, tilt := q[i].position));
    } else {
      var i := Find(q, SetPosition, call.device);
      CoalesceParts(q, d, c, b, i, q[i].(kind := SetPositionAndTilt, tilt := call.tilt));
    }
  }

  lemma BackgroundKeepsShape(q: seq<Op>, d: seq<Op>, c: seq<Op>, b: seq<Op>, call: Call)
    requires Parts(q, d, c, b) && (call.CallStatus? || call.CallName?)
    ensures Shape(AfterCall(q, call))
  {
    hide Parts;
    RequestParts(q, d, c, b, if call.CallStatus? then RequestStatus else RequestName, call.device);
  }

  lemma ShapePreserved(q: seq<Op>, call: Call)
    requires Shape(q)
    ensures Shape(AfterCall(q, call))
  {
    hide Parts;
    var d, c, b :| Parts(q, d, c, b);
    if Control(call) {
      if Coalesces(q, call) {
        CoalesceKeepsShape(q, d, c, b, call);
      } else {
        ControlCall(q, call);
        PushControlParts(q, d, c, b, Requested(call));
      }
    } else if call.CallStatus? || call.CallName? {
      BackgroundKeepsShape(q, d, c, b, call);
    } else if call.CallDiscover? {
      DiscoverParts(q, d, c, b);
    } else if q == [] {
      assert AfterCall(q, call) == q;
    } else {
      PopParts(q, d, c, b);
    }
  }

  /** Every reachable queue has the shape. */
  lemma {:induction false} ReachableShape(calls: seq<Call>)
    ensures Shape(After(calls))
  {
    if calls == [] {
      assert Parts([], [], [], []);
    } else {
      ReachableShape(calls[..|calls| - 1]);
      ShapePreserved(After(calls[..|calls| - 1]), calls[|calls| - 1]);
    }
  }

  // ---- Where an accepted status request can go

  /** The calls that take the device's pending status poll out of the queue. */
  predicate Removes(q: seq<Op>, c: Call, device: string) {
    || (c.CallPop? && q != [] && Is(q[0], RequestStatus, device))
    || (Control(c) && c.device == device && !Coalesces(q, c))
    || (c.CallDiscover? && !DiscoverPending(q))
  }

  lemma PendingIsMember(q: seq<Op>, kind: Kind, device: string)
    ensures Pending(q, kind, device) <==> exists op :: op in q && Is(op, kind, device)
  {
    var i := Find(q, kind, device);
    if i < |q| {
      assert q[i] in q;
    }
  }

  /** A pending status poll leaves the queue exactly through these calls.  In particular a coalescing
      call keeps it, although the command it merges into will supersede it. */
  lemma StatusLeavesOnlyBy(q: seq<Op>, c: Call, device: string)
    requires Shape(q) && Pending(q, RequestStatus, device)
    ensures !Pending(AfterCall(q, c), RequestStatus, device) <==> Removes(q, c, device)
  {
    var r := AfterCall(q, c);
    PendingIsMember(q, RequestStatus, device);
    PendingIsMember(r, RequestStatus, device);
    var poll :| poll in q && Is(poll, RequestStatus, device);
    var d, k, b :| Parts(q, d, k, b);
    PollIsBackground(q, d, k, b, poll);
    hide Parts, Find, PushControl;
    if Control(c) {
      if Coalesces(q, c) {
        CoalesceKeepsPoll(q, c, d, k, b, poll);
      } else {
        ControlCall(q, c);
        PushPoll(q, d, k, b, poll, Requested(c));
      }
    } else if c.CallDiscover? {
      DiscoverPoll(q, d, k, b);
    } else if c.CallPop? {
      PopPoll(q, poll, device);
    } else {
      RequestKeepsPoll(q, c, poll);
    }
  }

  lemma RequestKeepsPoll(q: seq<Op>, c: Call, poll: Op)
    requires (c.CallStatus? || c.CallName?) && poll in q
    ensures poll in AfterCall(q, c)
  {
  }

  lemma CoalesceKeepsPoll(q: seq<Op>, c: Call, d: seq<Op>, k: seq<Op>, b: seq<Op>, poll: Op)
    requires Parts(q, d, k, b) && Coalesces(q, c) && poll in b
    ensures poll in AfterCall(q, c)
  {
    var i := if c.CallSetPosition? then Find(q, SetTilt, c.device) else Find(q, SetPosition, c.device);
    CoalesceParts(q, d, k, b, i, AfterCall(q, c)[i]);
  }

  lemma PushPoll(q: seq<Op>, d: seq<Op>, k: seq<Op>, b: seq<Op>, poll: Op, op: Op)
    requires Parts(q, d, k, b) && poll in b && Is(poll, RequestStatus, poll.device) && IsControl(op)
    ensures (exists x :: x in PushControl(q, op) && Is(x, RequestStatus, poll.device)) <==> op.device != poll.device
  {
    hide PushControl, Without;
    PushControlParts(q, d, k, b, op);
    var w := Without(b, RequestStatus, op.device);
    WithoutMembers(b, RequestStatus, op.device);
    var r := PushControl(q, op);
    if op.device == poll.device {
      forall x | x in r && Is(x, RequestStatus, poll.device)
        ensures false
      {
        PollIsBackground(r, d, k + [op], w, x);
      }
    } else {
      assert poll in w;
      assert poll in r;
    }
  }

  lemma DiscoverPoll(q: seq<Op>, d: seq<Op>, k: seq<Op>, b: seq<Op>)
    requires Parts(q, d, k, b)
    ensures if DiscoverPending(q) then AfterDiscover(q) == q
            else forall op :: op in AfterDiscover(q) ==> !IsBackground(op)
  {
    DiscoverParts(q, d, k, b);
  }

  lemma PollIsBackground(q: seq<Op>, d: seq<Op>, c: seq<Op>, b: seq<Op>, poll: Op)
    requires Parts(q, d, c, b) && poll in q && IsBackground(poll)
    ensures poll in b
  {
  }

  lemma PopPoll(q: seq<Op>, poll: Op, device: string)
    requires Shape(q) && poll in q && Is(poll, RequestStatus, device)
    ensures (exists op :: op in q[1..] && Is(op, RequestStatus, device)) <==> !Is(q[0], RequestStatus, device)
  {
    var d, c, b :| Parts(q, d, c, b);
    if d == [] && c == [] {
      assert q == b;
      PopDistinct(b, poll, device);
    } else {
      assert q[0] == if d != [] then d[0] else c[0];
      assert q == [q[0]] + q[1..];
      assert poll in q[1..];
    }
  }

  lemma PopDistinct(b: seq<Op>, poll: Op, device: string)
    requires Distinct(b) && poll in b && Is(poll, RequestStatus, device)
    ensures (exists op :: op in b[1..] && Is(op, RequestStatus, device)) <==> !Is(b[0], RequestStatus, device)
  {
    assert b == [b[0]] + b[1..];
    if Is(b[0], RequestStatus, device) {
      forall op | op in b[1..]
        ensures !Is(op, RequestStatus, device)
      {
        var k: nat :| k < |b| - 1 && op == b[1..][k];
        assert b[k + 1] == op;
      }
    } else {
      assert poll in b[1..];
    }
  }

  lemma AfterLast(calls: seq<Call>)
    requires calls != []
    ensures After(calls) == AfterCall(After(calls[..|calls| - 1]), calls[|calls| - 1])
  {
  }

  /** Over a whole run: a status poll pending after `i` calls is still pending at the end, or one of the
      later calls popped it, pushed a control operation for its device, or started a discovery. */
  lemma {:induction false} StatusFate(calls: seq<Call>, i: nat, device: string)
    requires i <= |calls| && Pending(After(calls[..i]), RequestStatus, device)
    ensures Pending(After(calls), RequestStatus, device)
         || exists j :: i <= j < |calls| && Removes(After(calls[..j]), calls[j], device)
    decreases |calls|
  {
    hide After, Removes, Pending, Shape, AfterCall;
    if i == |calls| {
      assert calls[..i] == calls;
    } else {
      AfterLast(calls);
      var n := |calls| - 1;
      var prefix := calls[..n];
      assert prefix[..i] == calls[..i];
      StatusFate(prefix, i, device);
      if Pending(After(prefix), RequestStatus, device) {
        ReachableShape(prefix);
        StatusLeavesOnlyBy(After(prefix), calls[n], device);
      } else {
        var j :| i <= j < |prefix| && Removes(After(prefix[..j]), prefix[j], device);
        assert prefix[..j] == calls[..j];
      }
    }
  }
}
