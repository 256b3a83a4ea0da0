/**
 The registry of peers: what is stored for one host, what each region of code
 that runs under the registry lock does to it, and the mutable registry itself.
 A region is given as a function on the stored record; the methods of module
 Daemon carry the regions out on the heap and are proved against these functions.
 */
module Peers {
  import opened Wrappers

  type Host = string
  type Pid = int
  /** Identifies a background task. */
  type TaskId = int

  /** The value of one PeerState. `closeTx` names the task that holds the matching receiver. */
  datatype Peer = Peer(
    sessionCount: nat,
    inbound: nat,
    connected: bool,
    connecting: bool,
    probeFailed: bool,
    watched: set<Pid>,
    closeTx: Option<TaskId>)

  const NEW_PEER := Peer(0, 0, false, false, false, {}, None)

  function Pred(n: nat): nat {
    if n == 0 then 0 else n - 1
  }

  // ----- Lock-held regions ------------------------------------------------

  /** A session of a pid that is not watched yet is counted and watched. */
  function Tracked(p: Peer, pid: Pid): Peer {
    if pid in p.watched then p
    else p.(sessionCount := p.sessionCount + 1, watched := p.watched + {pid})
  }

  function TrackedAll(p: Peer, pids: seq<Pid>): Peer
    decreases pids
  {
    if pids == [] then p else TrackedAll(Tracked(p, pids[0]), pids[1..])
  }

  function PidExited(p: Peer, pid: Pid): Peer {
    var q := p.(watched := p.watched - {pid}, sessionCount := Pred(p.sessionCount));
    if q.sessionCount == 0 then q.(closeTx := None, connected := false) else q
  }

  /** The check-and-set that lets one handler start a connection attempt. */
  predicate MayClaim(p: Peer) {
    !p.connecting && !p.connected
  }

  function Claimed(p: Peer): Peer {
    if MayClaim(p) then p.(connecting := true) else p
  }

  function ProbeMissed(p: Peer): Peer {
    p.(probeFailed := true, connecting := false)
  }

  /** A dialled socket is kept only while sessions exist; `id` is the sender task to be. */
  function Registered(p: Peer, id: TaskId): Peer {
    if p.sessionCount == 0 then p.(connecting := false, closeTx := None)
    else p.(connected := true, connecting := false, probeFailed := false, closeTx := Some(id))
  }

  function DialFailed(p: Peer): Peer {
    p.(connecting := false)
  }

  /** What both the idle sweep and the end of a sender task write. */
  function Cleared(p: Peer): Peer {
    p.(connected := false, connecting := false, closeTx := None)
  }

  /** A liveness probe that found the remote may start a connection without a second probe. */
  predicate MayReconnect(p: Peer) {
    MayClaim(p) && p.sessionCount > 0
  }

  function Reconnecting(p: Peer): Peer {
    if MayReconnect(p) then p.(connecting := true, probeFailed := false) else p
  }

  /** A failed liveness probe acts on the `connected` value it saw when it was started. */
  function LivenessLost(p: Peer, snapshot: bool): Peer {
    var q := p.(connecting := false, probeFailed := true);
    if snapshot then q.(closeTx := None, connected := false) else q
  }

  function Accepted(p: Peer): Peer {
    p.(inbound := p.inbound + 1, probeFailed := false)
  }

  function InboundEnded(p: Peer): Peer {
    p.(inbound := Pred(p.inbound))
  }

  // ----- The registry as a value -------------------------------------------

  type Registry = map<Host, Peer>

  function At(reg: Registry, host: Host): Peer {
    if host in reg then reg[host] else NEW_PEER
  }

  /** An update through `get_mut`: a missing host is left missing. */
  function Modified(reg: Registry, host: Host, p: Peer): Registry {
    if host in reg then reg[host := p] else reg
  }

  datatype PeerInfo = PeerInfo(connected: bool, noDaemon: bool, sessions: nat)

  function Total(p: Peer): nat {
    p.sessionCount + p.inbound
  }

  function Info(p: Peer): PeerInfo {
    PeerInfo(p.connected || p.inbound > 0, p.probeFailed && p.inbound == 0, Total(p))
  }

  function Listing(reg: Registry): map<Host, PeerInfo> {
    map h | h in reg && Total(reg[h]) > 0 :: Info(reg[h])
  }

  // ----- The registry on the heap -------------------------------------------

  class PeerState {
    var sessionCount: nat
    var inboundConnections: nat
    var connected: bool
    var connecting: bool
    var probeFailed: bool
    var watchedPids: set<Pid>
    var closeTx: Option<TaskId>

    function Record(): Peer
      reads this
    {
      Peer(sessionCount, inboundConnections, connected, connecting, probeFailed, watchedPids, closeTx)
    }

    constructor ()
      ensures Record() == NEW_PEER
    {
      sessionCount, inboundConnections := 0, 0;
      connected, connecting, probeFailed := false, false, false;
      watchedPids, closeTx := {}, None;
    }
  }

  class PeerRegistry {
    var peers: map<Host, PeerState>

    /** No two hosts share a record. */
    ghost predicate Valid()
      reads this
    {
      forall h, k :: h in peers && k in peers && peers[h] == peers[k] ==> h == k
    }

    ghost function Contents(): Registry
      reads this, peers.Values
    {
      map h | h in peers :: peers[h].Record()
    }

    constructor ()
      ensures Valid() && peers == map[] && Contents() == map[]
    {
      peers := map[];
    }

    method GetOrCreate(host: Host) returns (peer: PeerState)
      requires Valid()
      modifies this
      ensures Valid() && host in peers && peers[host] == peer
      ensures host in old(peers) ==> peers == old(peers)
      ensures host !in old(peers) ==> fresh(peer) && peers == old(peers)[host := peer]
      ensures peer.Record() == At(old(Contents()), host)
      ensures Contents() == old(Contents())[host := At(old(Contents()), host)]
    {
      if host !in peers {
        var created := new PeerState();
        peers := peers[host := created];
      }
      peer := peers[host];
    }

    /** The hosts reported by a status request, with what is said of each. */
    function ListPeers(): (r: map<Host, PeerInfo>)
      reads this, peers.Values
      ensures r == Listing(Contents())
    {
      map h | h in peers && peers[h].sessionCount + peers[h].inboundConnections > 0 ::
        PeerInfo(
          peers[h].connected || peers[h].inboundConnections > 0,
          peers[h].probeFailed && peers[h].inboundConnections == 0,
          peers[h].sessionCount + peers[h].inboundConnections)
    }

    function HostsWithSessions(): (r: set<Host>)
      reads this, peers.Values
      ensures r == set h | h in Contents() && Contents()[h].sessionCount > 0
    {
      set h | h in peers && peers[h].sessionCount > 0
    }

    function ConnectedHostsWithoutSessions(): (r: set<Host>)
      reads this, peers.Values
      ensures r == set h | h in Contents() && Contents()[h].connected && Contents()[h].sessionCount == 0
    {
      set h | h in peers && peers[h].connected && peers[h].sessionCount == 0
    }
  }
}
