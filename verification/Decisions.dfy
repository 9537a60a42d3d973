/** The frame classifiers of hub_decisions.h. */
module Decisions {
  import opened Bytes
  import opened Commands
  import opened Frame

  datatype FirstResponse = IgnoreFirst | CompleteDirect | RequireAuth
  datatype Discovery = NoResponse | Invalid | Accept

  predicate MatchesNodes(f: IoFrame, src: seq<byte>, dst: seq<byte>) {
    f.src == src && f.dst == dst
  }

  /** The candidate's endpoints reverse the request's. */
  predicate MatchesExchange(request: IoFrame, candidate: IoFrame) {
    MatchesNodes(candidate, request.dst, request.src)
  }

  /** What to do with a packet while a first response is awaited. */
  function ClassifyFirst(request: IoFrame, candidate: IoFrame): (r: FirstResponse)
    ensures r != IgnoreFirst <==> candidate.src == request.dst && candidate.dst == request.src
    ensures r == RequireAuth <==> r != IgnoreFirst && candidate.cmd == 0x3C
  {
    if !MatchesExchange(request, candidate) then IgnoreFirst
    else if candidate.cmd == CMD_CHALLENGE_REQ then RequireAuth
    else CompleteDirect
  }

  /** A discovery answer, of the standard or of the alternate kind. */
  predicate IsDiscoveryResponse(f: IoFrame): (r: bool)
    ensures r <==> f.cmd == 0x29 || f.cmd == 0x2F
  {
    f.cmd == CMD_DISCOVER_RESP || f.cmd == CMD_DISCOVER_ALT_RESP
  }

  predicate IsKeyChallenge(f: IoFrame, device: seq<byte>, controller: seq<byte>) {
    f.cmd == CMD_CHALLENGE_REQ && f.dataLen == 6 && MatchesNodes(f, device, controller)
  }

  predicate IsKeyConfirm(f: IoFrame, device: seq<byte>, controller: seq<byte>) {
    f.cmd == CMD_KEY_CONFIRM && MatchesNodes(f, device, controller)
  }
}
