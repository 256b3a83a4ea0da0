/**
 The heap registry of module Daemon driven through whole runs of the mesh: its
 contents follow the registry of the model step by step, so what is proved of
 every run of the model is true of the objects.
 */
module Execution {
  import opened Wrappers
  import opened Peers
  import opened HostMachine
  import opened Mesh
  import Daemon

  /**
   A region of a task already running, or its step without the lock. What the
   task turns into follows from the answer of the region alone.
   */
  method PerformReaction(reg: PeerRegistry, m: Mesh, h: Host, id: TaskId, e: Event) returns (next: Option<Task>)
    requires reg.Valid() && reg.Contents() == m.registry
    requires MeshEnabled(m, On(h, Act(id, e))) && h in m.registry
    modifies reg, reg.peers.Values
    ensures reg.Valid() && fresh(reg.peers.Values - old(reg.peers.Values))
    ensures reg.Contents() == m.registry[h := React(At(m.registry, h), id, m.tasks[id].1, e).0]
    ensures next == React(At(m.registry, h), id, m.tasks[id].1, e).1
  {
    var t := m.tasks[id].1;
    next := None;
    match e {
      case Fires => Daemon.HandlePidExit(reg, h, t.pid);
      case Decides =>
        var shouldConnect := Daemon.ClaimAttempt(reg, h);
        next := if shouldConnect then Some(Probing) else None;
      case Probed(reachable) =>
        if reachable {
          next := Some(Dialling);
        } else {
          Daemon.MarkProbeMissed(reg, h);
        }
      case Dialled(ok) =>
        if ok {
          var keep := Daemon.RegisterConnection(reg, h, id);
          next := if keep then Some(Sender(true, true)) else None;
        } else {
          Daemon.MarkDialFailed(reg, h);
        }
      case Sweeps => Daemon.ClearConnection(reg, h);
      case Looks =>
        var probe := Daemon.LookAt(reg, h, t.check);
        next := if probe.Some? then Some(Checking(probe.value)) else None;
      case Answered(up) =>
        if !up {
          Daemon.LivenessUnreachable(reg, h, t.snapshot);
        } else if !t.snapshot {
          var shouldConnect := Daemon.LivenessReachable(reg, h);
          next := if shouldConnect then Some(Dialling) else None;
        }
      case Closes => next := Some(t.(running := false));
      case RemoteEnds => next := Some(t.(running := false));
      case CleansUp => Daemon.ClearConnection(reg, h);
      case InboundEnds => Daemon.EndInbound(reg, h);
      case Lost =>
    }
  }

  /** A Connect message; the answers of the region are the tasks the model spawns. */
  method PerformNotify(reg: PeerRegistry, m: Mesh, h: Host, pid: Pid, watcher: TaskId, decider: TaskId)
    returns (isNew: bool, needConnect: bool)
    requires reg.Valid() && reg.Contents() == m.registry
    requires MeshEnabled(m, On(h, Notify(pid, watcher, decider)))
    modifies reg, reg.peers.Values
    ensures reg.Valid() && fresh(reg.peers.Values - old(reg.peers.Values))
    ensures var d := Change(At(m.registry, h), None, Notify(pid, watcher, decider));
      && reg.Contents() == m.registry[h := d.peer]
      && (isNew <==> watcher in d.put) && (needConnect <==> decider in d.put)
  {
    assert NewIds(Notify(pid, watcher, decider))[0] != NewIds(Notify(pid, watcher, decider))[1];
    isNew, needConnect := Daemon.TrackSession(reg, h, pid);
  }

  lemma {:induction false} NewPidsAreCounted(p: Peer, pids: seq<Pid>)
    ensures var counted := Daemon.NewPids(p.watched, pids); var q := TrackedAll(p, pids);
      && (forall pid :: pid in counted <==> pid in q.watched && pid !in p.watched)
      && |counted| == q.sessionCount - p.sessionCount
    decreases pids
  {
    if pids != [] {
      NewPidsAreCounted(Tracked(p, pids[0]), pids[1..]);
      TrackedAllGrows(Tracked(p, pids[0]), pids[1..]);
    }
  }

  lemma {:induction false} TrackedAllGrows(p: Peer, pids: seq<Pid>)
    ensures p.watched <= TrackedAll(p, pids).watched
    decreases pids
  {
    if pids != [] {
      TrackedAllGrows(Tracked(p, pids[0]), pids[1..]);
    }
  }

  /** The startup scan of a host; each pid it returns is newly watched and is one more session. */
  method PerformDiscover(reg: PeerRegistry, m: Mesh, h: Host, pids: seq<Pid>, watchers: seq<TaskId>, attempt: TaskId)
    returns (newPids: seq<Pid>, shouldConnect: bool)
    requires reg.Valid() && reg.Contents() == m.registry
    requires MeshEnabled(m, On(h, Discover(pids, watchers, attempt)))
    modifies reg, reg.peers.Values
    ensures reg.Valid() && fresh(reg.peers.Values - old(reg.peers.Values))
    ensures var p := At(m.registry, h); var d := Change(p, None, Discover(pids, watchers, attempt));
      && reg.Contents() == m.registry[h := d.peer]
      && (forall pid :: pid in newPids <==> pid in d.peer.watched && pid !in p.watched)
      && |newPids| == d.peer.sessionCount - p.sessionCount
      && (shouldConnect <==> MayClaim(p))
  {
    NewPidsAreCounted(At(m.registry, h), pids);
    newPids, shouldConnect := Daemon.RegisterDiscovered(reg, h, pids);
  }

  /** What a pass reads from the registry: exactly the hosts for which the model spawns an entry. */
  method PerformScan(reg: PeerRegistry, m: Mesh, a: MeshAction) returns (hosts: set<Host>)
    requires reg.Valid() && reg.Contents() == m.registry
    requires MeshEnabled(m, a) && !a.On?
    ensures forall h :: h in hosts <==> exists id :: id in Scanned(m, a) && Scanned(m, a)[id].0 == h
  {
    if a.IdleScanAll? {
      hosts := reg.ConnectedHostsWithoutSessions();
    } else {
      hosts := reg.HostsWithSessions();
    }
    forall h | h in hosts
      ensures exists id :: id in Scanned(m, a) && Scanned(m, a)[id].0 == h
    {
      assert h in m.registry;
      var id :| id in a.ids && a.ids[id] == h;
      assert id in Scanned(m, a);
    }
  }

  /** One step of the mesh, carried out by the daemon's regions. */
  method Perform(reg: PeerRegistry, m: Mesh, a: MeshAction)
    requires reg.Valid() && reg.Contents() == m.registry
    requires MeshEnabled(m, a) && MeshInv(m)
    modifies reg, reg.peers.Values
    ensures reg.Valid() && fresh(reg.peers.Values - old(reg.peers.Values))
    ensures reg.Contents() == MeshApply(m, a).registry
  {
    if a.On? {
      match a.action {
        case Act(id, e) => var _ := PerformReaction(reg, m, a.host, id, e);
        case Notify(pid, watcher, decider) => var _, _ := PerformNotify(reg, m, a.host, pid, watcher, decider);
        case Disconnect(pid) => Daemon.HandlePidExit(reg, a.host, pid);
        case Discover(pids, watchers, attempt) =>
          var _, _ := PerformDiscover(reg, m, a.host, pids, watchers, attempt);
        case Accept(_) => Daemon.AcceptInbound(reg, a.host);
        case _ =>
      }
    } else {
      var _ := PerformScan(reg, m, a);
    }
  }

  /**
   A whole run from the start of the daemon, ending with a status reply. The
   registry object ends with the contents the model predicts, and what the reply
   says of a host is backed by that host's tasks.
   */
  method Serve(acts: seq<MeshAction>) returns (reg: PeerRegistry, status: map<Host, PeerInfo>)
    requires MeshRun(INIT_MESH, acts).Some?
    ensures fresh(reg) && reg.Valid()
    ensures reg.Contents() == MeshRun(INIT_MESH, acts).value.registry
    ensures status == Listing(MeshRun(INIT_MESH, acts).value.registry)
    ensures var m := MeshRun(INIT_MESH, acts).value;
      forall h :: h in status ==> (status[h].connected <==> exists id :: Serves(m, id, h))
  {
    reg := new PeerRegistry();
    var m := INIT_MESH;
    InitMeshInv();
    for i := 0 to |acts|
      invariant fresh(reg) && fresh(reg.peers.Values)
      invariant reg.Valid() && reg.Contents() == m.registry && MeshInv(m)
      invariant MeshRun(m, acts[i..]) == MeshRun(INIT_MESH, acts)
    {
      assert acts[i..][0] == acts[i] && acts[i..][1..] == acts[i + 1..];
      ProjectStep(m, acts[i]);
      Perform(reg, m, acts[i]);
      m := MeshApply(m, acts[i]);
    }
    status := reg.ListPeers();
    forall h | h in status
      ensures status[h].connected <==> exists id :: Serves(m, id, h)
    {
      ListingIsTruthful(acts, h);
    }
  }
}
