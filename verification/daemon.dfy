/**
 The lock-held regions of the daemon, carried out on the heap. Each method is
 one critical section: between two of them any other task may run. The
 post-states are the functions of module Peers applied to one host's record;
 every other host's record is unchanged.
 */
module Daemon {
  import opened Wrappers
  import opened Peers

  /** Watch and count a pid unless it is watched already; the host has a record. */
  method CountPid(reg: PeerRegistry, host: Host, pid: Pid) returns (isNew: bool)
    requires reg.Valid() && host in reg.peers
    modifies reg.peers[host]
    ensures reg.Valid()
    ensures reg.Contents() == old(reg.Contents())[host := Tracked(old(reg.Contents())[host], pid)]
    ensures isNew <==> pid !in old(reg.Contents())[host].watched
  {
    var peer := reg.peers[host];
    isNew := pid !in peer.watchedPids;
    if isNew {
      peer.watchedPids := peer.watchedPids + {pid};
      peer.sessionCount := peer.sessionCount + 1;
    }
  }

  /** First region of a Connect message: count and watch the pid unless it is watched. */
  method TrackSession(reg: PeerRegistry, host: Host, pid: Pid) returns (isNew: bool, needConnect: bool)
    requires reg.Valid()
    modifies reg, reg.peers.Values
    ensures reg.Valid() && fresh(reg.peers.Values - old(reg.peers.Values))
    ensures reg.Contents() == old(reg.Contents())[host := Tracked(At(old(reg.Contents()), host), pid)]
    ensures isNew <==> pid !in At(old(reg.Contents()), host).watched
    ensures needConnect <==> isNew && !At(old(reg.Contents()), host).connected
  {
    var peer := reg.GetOrCreate(host);
    var connected := peer.connected;
    isNew := CountPid(reg, host, pid);
    needConnect := isNew && !connected;
  }

  /** Check and set the connecting flag of a host that has a record. */
  method SetConnecting(reg: PeerRegistry, host: Host) returns (shouldConnect: bool)
    requires reg.Valid() && host in reg.peers
    modifies reg.peers[host]
    ensures reg.Valid()
    ensures reg.Contents() == old(reg.Contents())[host := Claimed(old(reg.Contents())[host])]
    ensures shouldConnect <==> MayClaim(old(reg.Contents())[host])
  {
    var peer := reg.peers[host];
    if peer.connecting || peer.connected {
      shouldConnect := false;
    } else {
      peer.connecting := true;
      shouldConnect := true;
    }
  }

  /** Second region of a Connect message. */
  method ClaimAttempt(reg: PeerRegistry, host: Host) returns (shouldConnect: bool)
    requires reg.Valid()
    modifies reg, reg.peers.Values
    ensures reg.Valid() && fresh(reg.peers.Values - old(reg.peers.Values))
    ensures reg.Contents() == old(reg.Contents())[host := Claimed(At(old(reg.Contents()), host))]
    ensures shouldConnect <==> MayClaim(At(old(reg.Contents()), host))
  {
    var _ := reg.GetOrCreate(host);
    shouldConnect := SetConnecting(reg, host);
  }

  /** The pids that a startup scan counts: those not watched already, each once. */
  function NewPids(watched: set<Pid>, pids: seq<Pid>): seq<Pid>
    decreases pids
  {
    if pids == [] then []
    else if pids[0] in watched then NewPids(watched, pids[1..])
    else [pids[0]] + NewPids(watched + {pids[0]}, pids[1..])
  }

  lemma ScanNext(p: Peer, pids: seq<Pid>, i: nat)
    requires i < |pids|
    ensures TrackedAll(p, pids[i..]) == TrackedAll(Tracked(p, pids[i]), pids[i + 1..])
    ensures NewPids(p.watched, pids[i..])
         == (if pids[i] in p.watched then [] else [pids[i]]) + NewPids(Tracked(p, pids[i]).watched, pids[i + 1..])
  {
    assert pids[i..][1..] == pids[i + 1..];
  }

  lemma LastPutWins(reg: Registry, host: Host, p: Peer, q: Peer)
    ensures reg[host := p][host := q] == reg[host := q] && reg[host := p][host] == p
  {
  }

  /** The scan's loop over the pids of one host. */
  method CountPids(reg: PeerRegistry, host: Host, pids: seq<Pid>) returns (newPids: seq<Pid>)
    requires reg.Valid() && host in reg.peers
    modifies reg.peers[host]
    ensures reg.Valid()
    ensures reg.Contents() == old(reg.Contents())[host := TrackedAll(old(reg.Contents())[host], pids)]
    ensures newPids == NewPids(old(reg.Contents())[host].watched, pids)
  {
    ghost var base := reg.Contents();
    ghost var before := base[host];
    ghost var current := before;
    newPids := [];
    for i := 0 to |pids|
      invariant reg.Valid()
      invariant reg.Contents() == base[host := current]
      invariant TrackedAll(current, pids[i..]) == TrackedAll(before, pids)
      invariant newPids + NewPids(current.watched, pids[i..]) == NewPids(before.watched, pids)
    {
      ScanNext(current, pids, i);
      LastPutWins(base, host, current, Tracked(current, pids[i]));
      var isNew := CountPid(reg, host, pids[i]);
      current := Tracked(current, pids[i]);
      if isNew {
        newPids := newPids + [pids[i]];
      }
    }
  }

  lemma TrackedAllKeepsFlags(p: Peer, pids: seq<Pid>)
    ensures var q := TrackedAll(p, pids);
      q.connected == p.connected && q.connecting == p.connecting && q.closeTx == p.closeTx
      && q.inbound == p.inbound && q.probeFailed == p.probeFailed
    decreases pids
  {
    if pids != [] {
      TrackedAllKeepsFlags(Tracked(p, pids[0]), pids[1..]);
    }
  }

  method CountAndClaim(reg: PeerRegistry, host: Host, pids: seq<Pid>)
    returns (newPids: seq<Pid>, shouldConnect: bool)
    requires reg.Valid() && host in reg.peers
    modifies reg.peers[host]
    ensures reg.Valid()
    ensures reg.Contents() == old(reg.Contents())[host := Claimed(TrackedAll(old(reg.Contents())[host], pids))]
    ensures newPids == NewPids(old(reg.Contents())[host].watched, pids)
    ensures shouldConnect <==> MayClaim(old(reg.Contents())[host])
  {
    TrackedAllKeepsFlags(reg.Contents()[host], pids);
    newPids := CountPids(reg, host, pids);
    shouldConnect := SetConnecting(reg, host);
  }

  /** The single region of the startup scan for one host. */
  method RegisterDiscovered(reg: PeerRegistry, host: Host, pids: seq<Pid>)
    returns (newPids: seq<Pid>, shouldConnect: bool)
    requires reg.Valid()
    modifies reg, reg.peers.Values
    ensures reg.Valid() && fresh(reg.peers.Values - old(reg.peers.Values))
    ensures reg.Contents() == old(reg.Contents())[host := Claimed(TrackedAll(At(old(reg.Contents()), host), pids))]
    ensures newPids == NewPids(At(old(reg.Contents()), host).watched, pids)
    ensures shouldConnect <==> MayClaim(At(old(reg.Contents()), host))
  {
    var _ := reg.GetOrCreate(host);
    newPids, shouldConnect := CountAndClaim(reg, host, pids);
  }

  /** A watched process ended, or an explicit Disconnect named its pid. */
  method HandlePidExit(reg: PeerRegistry, host: Host, pid: Pid)
    requires reg.Valid()
    modifies reg.peers.Values
    ensures reg.Valid() && reg.peers == old(reg.peers)
    ensures reg.Contents() == Modified(old(reg.Contents()), host, PidExited(At(old(reg.Contents()), host), pid))
  {
    if host in reg.peers {
      var peer := reg.peers[host];
      peer.watchedPids := peer.watchedPids - {pid};
      peer.sessionCount := Pred(peer.sessionCount);
      if peer.sessionCount == 0 {
        peer.closeTx := None;
        peer.connected := false;
      }
    }
  }

  /** A probe made before dialling found no daemon. */
  method MarkProbeMissed(reg: PeerRegistry, host: Host)
    requires reg.Valid()
    modifies reg.peers.Values
    ensures reg.Valid() && reg.peers == old(reg.peers)
    ensures reg.Contents() == Modified(old(reg.Contents()), host, ProbeMissed(At(old(reg.Contents()), host)))
  {
    if host in reg.peers {
      var peer := reg.peers[host];
      peer.probeFailed := true;
      peer.connecting := false;
    }
  }

  /** A dialled connection is offered to the registry; `id` is the task that will serve it. */
  method RegisterConnection(reg: PeerRegistry, host: Host, id: TaskId) returns (keep: bool)
    requires reg.Valid()
    modifies reg.peers.Values
    ensures reg.Valid() && reg.peers == old(reg.peers)
    ensures reg.Contents() == Modified(old(reg.Contents()), host, Registered(At(old(reg.Contents()), host), id))
    ensures keep <==> host in old(reg.Contents()) && old(reg.Contents())[host].sessionCount > 0
  {
    keep := false;
    if host in reg.peers {
      var peer := reg.peers[host];
      if peer.sessionCount == 0 {
        peer.connecting := false;
        peer.closeTx := None;
      } else {
        peer.connected := true;
        peer.connecting := false;
        peer.probeFailed := false;
        peer.closeTx := Some(id);
        keep := true;
      }
    }
  }

  method MarkDialFailed(reg: PeerRegistry, host: Host)
    requires reg.Valid()
    modifies reg.peers.Values
    ensures reg.Valid() && reg.peers == old(reg.peers)
    ensures reg.Contents() == Modified(old(reg.Contents()), host, DialFailed(At(old(reg.Contents()), host)))
  {
    if host in reg.peers {
      reg.peers[host].connecting := false;
    }
  }

  /** The end of a sender task, and equally the sweep of one idle host. */
  method ClearConnection(reg: PeerRegistry, host: Host)
    requires reg.Valid()
    modifies reg.peers.Values
    ensures reg.Valid() && reg.peers == old(reg.peers)
    ensures reg.Contents() == Modified(old(reg.Contents()), host, Cleared(At(old(reg.Contents()), host)))
  {
    if host in reg.peers {
      var peer := reg.peers[host];
      peer.connected := false;
      peer.connecting := false;
      peer.closeTx := None;
    }
  }

  /**
   A liveness pass looks at one of its hosts: the connected flag to start a probe
   with, or nothing if the host is not to be probed. The registry is only read.
   */
  method LookAt(reg: PeerRegistry, host: Host, check: bool) returns (probe: Option<bool>)
    requires reg.Valid()
    ensures probe.Some? <==>
      && host in reg.Contents()
      && !reg.Contents()[host].connecting && (reg.Contents()[host].connected ==> check)
    ensures probe.Some? ==> probe.value == reg.Contents()[host].connected
  {
    if host !in reg.peers {
      return None;
    }
    var connected, connecting := reg.peers[host].connected, reg.peers[host].connecting;
    if connecting {
      return None;
    }
    if connected && !check {
      return None;
    }
    return Some(connected);
  }

  /** A liveness probe that had seen the host disconnected found it reachable. */
  method LivenessReachable(reg: PeerRegistry, host: Host) returns (shouldConnect: bool)
    requires reg.Valid()
    modifies reg.peers.Values
    ensures reg.Valid() && reg.peers == old(reg.peers)
    ensures reg.Contents() == Modified(old(reg.Contents()), host, Reconnecting(At(old(reg.Contents()), host)))
    ensures shouldConnect <==> host in old(reg.Contents()) && MayReconnect(old(reg.Contents())[host])
  {
    shouldConnect := false;
    if host in reg.peers {
      var peer := reg.peers[host];
      if peer.connected || peer.connecting || peer.sessionCount == 0 {
      } else {
        peer.connecting := true;
        peer.probeFailed := false;
        shouldConnect := true;
      }
    }
  }

  /** A liveness probe failed; `snapshot` is the connected flag it was started with. */
  method LivenessUnreachable(reg: PeerRegistry, host: Host, snapshot: bool)
    requires reg.Valid()
    modifies reg.peers.Values
    ensures reg.Valid() && reg.peers == old(reg.peers)
    ensures reg.Contents() == Modified(old(reg.Contents()), host, LivenessLost(At(old(reg.Contents()), host), snapshot))
  {
    if host in reg.peers {
      var peer := reg.peers[host];
      if snapshot {
        peer.closeTx := None;
        peer.connected := false;
      }
      peer.connecting := false;
      peer.probeFailed := true;
    }
  }

  method CountInbound(reg: PeerRegistry, host: Host)
    requires reg.Valid() && host in reg.peers
    modifies reg.peers[host]
    ensures reg.Valid()
    ensures reg.Contents() == old(reg.Contents())[host := Accepted(old(reg.Contents())[host])]
  {
    var peer := reg.peers[host];
    peer.inboundConnections := peer.inboundConnections + 1;
    peer.probeFailed := false;
  }

  /** An inbound connection is accepted under the key resolved for its address. */
  method AcceptInbound(reg: PeerRegistry, host: Host)
    requires reg.Valid()
    modifies reg, reg.peers.Values
    ensures reg.Valid() && fresh(reg.peers.Values - old(reg.peers.Values))
    ensures reg.Contents() == old(reg.Contents())[host := Accepted(At(old(reg.Contents()), host))]
  {
    var _ := reg.GetOrCreate(host);
    CountInbound(reg, host);
  }

  method EndInbound(reg: PeerRegistry, host: Host)
    requires reg.Valid()
    modifies reg.peers.Values
    ensures reg.Valid() && reg.peers == old(reg.peers)
    ensures reg.Contents() == Modified(old(reg.Contents()), host, InboundEnded(At(old(reg.Contents()), host)))
  {
    if host in reg.peers {
      var peer := reg.peers[host];
      peer.inboundConnections := Pred(peer.inboundConnections);
    }
  }
}
