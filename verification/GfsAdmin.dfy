/** The GFS drain client (crates/cluster-operator/src/gfs_admin.rs): the mock, or arbitrary scripted replies. */
module GfsAdmin {
  import opened Common

  datatype DrainStatus = InProgress(remaining: nat) | Drained | DrainFailed(reason: string)

  datatype Backend =
    | Mock(drains: map<string, DrainStatus>, delays: map<string, nat>)
    | Scripted(handles: seq<Result<string, string>>, statuses: seq<Result<DrainStatus, string>>)

  /** A reply the operator received. */
  datatype Reply =
    | DrainReply(node: string, handle: Result<string, string>)
    | StatusReply(polled: string, status: Result<DrainStatus, string>)

  datatype Gfs = Gfs(backend: Backend, log: seq<Reply>)

  function MockHandle(node: string): string {
    "mock-drain-" + node
  }

  /** A new drain is complete at once when there is nothing to move. */
  function FreshDrain(chunks: nat): DrainStatus {
    if chunks == 0 then Drained else InProgress(chunks)
  }

  /** What a poll reports and stores. */
  function Polled(s: DrainStatus): DrainStatus {
    if s.InProgress? then (if s.remaining <= 1 then Drained else InProgress(s.remaining - 1)) else s
  }

  function DrainReplyOf(b: Backend, node: string): Result<string, string> {
    match b
    case Mock(drains, _) =>
      if node in drains && drains[node].DrainFailed? then Err("Drain operation failed: " + drains[node].reason)
      else Ok(MockHandle(node))
    case Scripted(handles, _) => if handles == [] then Err("gRPC transport error") else handles[0]
  }

  function AfterDrain(b: Backend, node: string): Backend {
    match b
    case Mock(drains, delays) =>
      if DrainReplyOf(b, node).Err? then b
      else b.(drains := drains[MockHandle(node) := FreshDrain(if node in delays then delays[node] else 0)])
    case Scripted(handles, _) => if handles == [] then b else b.(handles := handles[1..])
  }

  function StatusReplyOf(b: Backend, handle: string): Result<DrainStatus, string> {
    match b
    case Mock(drains, _) => Ok(if handle in drains then Polled(drains[handle]) else Drained)
    case Scripted(_, statuses) => if statuses == [] then Err("gRPC transport error") else statuses[0]
  }

  function AfterStatus(b: Backend, handle: string): Backend {
    match b
    case Mock(drains, _) => if handle in drains then b.(drains := drains[handle := Polled(drains[handle])]) else b
    case Scripted(_, statuses) => if statuses == [] then b else b.(statuses := statuses[1..])
  }

  function Drain(g: Gfs, node: string): Gfs {
    Gfs(AfterDrain(g.backend, node), g.log + [DrainReply(node, DrainReplyOf(g.backend, node))])
  }

  function Poll(g: Gfs, handle: string): Gfs {
    Gfs(AfterStatus(g.backend, handle), g.log + [StatusReply(handle, StatusReplyOf(g.backend, handle))])
  }

  function PollTimes(g: Gfs, handle: string, n: nat): Gfs {
    if n == 0 then g else Poll(PollTimes(g, handle, n - 1), handle)
  }

  /** A mock drain of c chunks reports completion from its max(1, c)-th poll on, and not before. */
  lemma {:induction false} MockDrainsInExactlyItsChunks(b: Backend, node: string, c: nat, n: nat)
    requires b.Mock? && DrainReplyOf(b, node).Ok?
    requires c == if node in b.delays then b.delays[node] else 0
    ensures var g := PollTimes(Drain(Gfs(b, []), node), MockHandle(node), n);
            && g.backend.Mock?
            && MockHandle(node) in g.backend.drains
            && g.backend.drains[MockHandle(node)] == (if n >= c then Drained else InProgress(c - n))
            && (StatusReplyOf(g.backend, MockHandle(node)) == Ok(Drained) <==> n + 1 >= c)
  {
    if n > 0 {
      MockDrainsInExactlyItsChunks(b, node, c, n - 1);
    }
  }

  /**
    A node marked as failing is refused and nothing starts; a failed drain stays
    failed; an unknown handle counts as done.
   */
  lemma MockEdgeCases(b: Backend, node: string, handle: string)
    requires b.Mock?
    ensures node in b.drains && b.drains[node].DrainFailed? ==> DrainReplyOf(b, node).Err? && AfterDrain(b, node) == b
    ensures (node in b.drains ==> !b.drains[node].DrainFailed?) ==> DrainReplyOf(b, node).Ok?
    ensures handle in b.drains && b.drains[handle].DrainFailed? ==>
              StatusReplyOf(b, handle) == Ok(b.drains[handle]) && AfterStatus(b, handle) == b
    ensures handle !in b.drains ==> StatusReplyOf(b, handle) == Ok(Drained) && AfterStatus(b, handle) == b
  {
    if handle in b.drains && b.drains[handle].DrainFailed? {
      assert b.drains[handle := b.drains[handle]] == b.drains;
    }
  }

  class GfsAdminClient {
    var backend: Backend
    ghost var log: seq<Reply>

    constructor (backend: Backend)
      ensures State() == Gfs(backend, [])
    {
      this.backend := backend;
      log := [];
    }

    ghost function State(): (g: Gfs)
      reads this
    {
      Gfs(backend, log)
    }

    method DrainNode(node: string) returns (r: Result<string, string>)
      modifies this
      ensures r == DrainReplyOf(old(backend), node)
      ensures State() == Drain(old(State()), node)
    {
      match backend {
      case Mock(drains, delays) =>
        var handle := MockHandle(node);
        if node in drains && drains[node].DrainFailed? {
          r := Err("Drain operation failed: " + drains[node].reason);
        } else {
          var chunks := if node in delays then delays[node] else 0;
          if chunks == 0 {
            backend := Mock(drains[handle := Drained], delays);
          } else {
            backend := Mock(drains[handle := InProgress(chunks)], delays);
          }
          r := Ok(handle);
        }
      case Scripted(handles, statuses) =>
        if handles == [] {
          r := Err("gRPC transport error");
        } else {
          r := handles[0];
          backend := Scripted(handles[1..], statuses);
        }
      }
      log := log + [DrainReply(node, r)];
    }

    method QueryStatus(handle: string) returns (r: Result<DrainStatus, string>)
      modifies this
      ensures r == StatusReplyOf(old(backend), handle)
      ensures State() == Poll(old(State()), handle)
    {
      match backend {
      case Mock(drains, delays) =>
        if handle in drains {
          var status := drains[handle];
          if status.InProgress? {
            if status.remaining <= 1 {
              status := Drained;
            } else {
              status := InProgress(status.remaining - 1);
            }
            backend := Mock(drains[handle := status], delays);
          } else {
            assert drains == drains[handle := Polled(status)];
          }
          r := Ok(status);
        } else {
          r := Ok(Drained);
        }
      case Scripted(handles, statuses) =>
        if statuses == [] {
          r := Err("gRPC transport error");
        } else {
          r := statuses[0];
          backend := Scripted(handles, statuses[1..]);
        }
      }
      log := log + [StatusReply(handle, r)];
    }
  }
}
