/** Safety over whole runs of one host, stated for every reachable state. */
module HostSafety {
  import opened Wrappers
  import opened Peers
  import opened HostMachine
  import opened HostInvariants

  ghost predicate Reachable(s: State) {
    exists acts :: Run(INIT, acts) == Some(s)
  }

  lemma ReachableInv(s: State)
    requires Reachable(s)
    ensures Inv(s)
  {
    var acts :| Run(INIT, acts) == Some(s);
    assert Receivers(INIT.tasks) == {};
    InvAlways(INIT, acts);
  }

  lemma ReachableStep(s: State, a: Action)
    requires Reachable(s) && Enabled(s, a)
    ensures Reachable(Apply(s, a))
  {
    var acts :| Run(INIT, acts) == Some(s);
    RunConcat(INIT, acts, [a]);
    assert Run(INIT, acts + [a]) == Some(Apply(s, a));
  }

  // ----- One connection per host -----------------------------------------------

  /**
   However many attempts overlapped, every live sender except one has been told
   to close, and that one is the task whose close sender sits in the slot; it
   has not run its cleanup, since it is still in the task table.
   */
  lemma SingleOpenConnection(s: State)
    requires Reachable(s)
    ensures forall id :: IsOpen(s.tasks, id) <==> s.peer.closeTx == Some(id)
    ensures forall id, other :: IsOpen(s.tasks, id) && IsOpen(s.tasks, other) ==> id == other
    ensures s.peer.connected <==> exists id :: IsOpen(s.tasks, id)
  {
    ReachableInv(s);
    if s.peer.connected {
      assert IsOpen(s.tasks, s.peer.closeTx.value);
    }
  }

  /** A connection implies a session, so the end of the last session tells every sender to close. */
  lemma NoSessionNoConnection(s: State)
    requires Reachable(s) && s.peer.sessionCount == 0
    ensures !s.peer.connected && s.peer.closeTx == None
    ensures forall id :: id in s.tasks && s.tasks[id].Sender? ==> !s.tasks[id].open
  {
    ReachableInv(s);
    forall id | id in s.tasks && s.tasks[id].Sender?
      ensures !s.tasks[id].open
    {
      assert IsOpen(s.tasks, id) <==> s.peer.closeTx == Some(id);
    }
  }

  /** A dial that succeeds after the last session ended leaves nothing behind but its own end. */
  lemma LateDialDiscarded(s: State, id: TaskId)
    requires Reachable(s) && s.peer.sessionCount == 0 && Enabled(s, Act(id, Dialled(true)))
    ensures Apply(s, Act(id, Dialled(true))) == State(s.peer.(connecting := false), s.tasks - {id})
  {
    NoSessionNoConnection(s);
  }

  /** The idle sweep never finds a host to clear. */
  lemma IdleSweepFindsNothing(s: State, a: Action)
    requires Reachable(s) && Enabled(s, a)
    ensures a.IdleScan? ==> Apply(s, a) == s
    ensures !(a.Act? && a.event.Sweeps?)
  {
    ReachableInv(s);
    if a.IdleScan? {
      assert (s.tasks - {}) + map[] == s.tasks;
    }
  }

  /** The flag that blocks new attempts is never left set without an attempt in flight, nor on a connected host. */
  lemma NoStuckFlag(s: State)
    requires Reachable(s) && s.peer.connecting
    ensures !s.peer.connected && exists id :: IsAttempt(s.tasks, id)
  {
    ReachableInv(s);
  }

  // ----- What moves the flags ------------------------------------------------------

  /** A host becomes connected exactly when a dial succeeds while it has a session. */
  lemma ConnectionUp(s: State, a: Action)
    requires Reachable(s) && Enabled(s, a) && !s.peer.connected
    ensures Apply(s, a).peer.connected <==> a.Act? && a.event == Dialled(true) && s.peer.sessionCount > 0
  {
    ReachableInv(s);
    if a.Discover? {
      DiscoveredFacts(s.peer, a.pids, a.watchers);
    }
  }

  predicate EndsLastSession(s: State, a: Action) {
    s.peer.sessionCount == 1 && (a.Disconnect? || (a.Act? && a.event.Fires?))
  }

  /**
   It stops being connected exactly when its last session ends, when a liveness
   probe that saw it connected fails, or when any of its sender tasks cleans up.
   */
  lemma ConnectionDown(s: State, a: Action)
    requires Reachable(s) && Enabled(s, a) && s.peer.connected
    ensures !Apply(s, a).peer.connected <==>
      || EndsLastSession(s, a)
      || (a.Act? && a.event == Answered(false) && s.tasks[a.id].snapshot)
      || (a.Act? && a.event.CleansUp?)
  {
    ReachableInv(s);
    if a.Discover? {
      DiscoveredFacts(s.peer, a.pids, a.watchers);
    }
  }

  /** The flag against double attempts goes up only on an idle host, and only with an attempt. */
  lemma AttemptFlagUp(s: State, a: Action)
    requires Enabled(s, a) && !s.peer.connecting
    ensures Apply(s, a).peer.connecting <==>
      && !s.peer.connected
      && (a.Discover? || (a.Act? && a.event.Decides?)
          || (a.Act? && a.event == Answered(true) && !s.tasks[a.id].snapshot && s.peer.sessionCount > 0))
  {
    if a.Discover? {
      DiscoveredFacts(s.peer, a.pids, a.watchers);
    }
  }

  /** It goes down with the end of any attempt, with any failed liveness probe and with any cleanup. */
  lemma AttemptFlagDown(s: State, a: Action)
    requires Reachable(s) && Enabled(s, a) && s.peer.connecting
    ensures !Apply(s, a).peer.connecting <==>
      a.Act? && (a.event == Probed(false) || a.event.Dialled? || a.event == Answered(false) || a.event.CleansUp?)
  {
    ReachableInv(s);
    if a.Discover? {
      DiscoveredFacts(s.peer, a.pids, a.watchers);
    }
  }

  predicate FailsProbe(a: Action) {
    a.Act? && (a.event == Probed(false) || a.event == Answered(false))
  }

  /** An inbound connection, a dial that is kept, or a liveness probe that leads to a new attempt. */
  ghost predicate ShowsLife(s: State, a: Action) {
    && Enabled(s, a)
    && (|| a.Accept?
        || (a.Act? && a.event == Dialled(true) && s.peer.sessionCount > 0)
        || (a.Act? && a.event == Answered(true) && !s.tasks[a.id].snapshot && MayReconnect(s.peer)))
  }

  /** "No daemon" is concluded from failed probes only, and withdrawn on any sign of the remote daemon. */
  lemma NoDaemonFlag(s: State, a: Action)
    requires Enabled(s, a)
    ensures Apply(s, a).peer.probeFailed <==> FailsProbe(a) || (s.peer.probeFailed && !ShowsLife(s, a))
  {
    if a.Discover? {
      DiscoveredFacts(s.peer, a.pids, a.watchers);
    }
  }

  ghost predicate LifeShownAt(acts: seq<Action>, j: nat) {
    j < |acts| && Run(INIT, acts[..j]).Some? && ShowsLife(Run(INIT, acts[..j]).value, acts[j])
  }

  /** Some probe of the run failed at index `i`, and no sign of life came after it. */
  ghost predicate SilentSince(acts: seq<Action>, i: nat) {
    i < |acts| && FailsProbe(acts[i]) && forall j :: i < j < |acts| ==> !LifeShownAt(acts, j)
  }

  ghost predicate Silent(acts: seq<Action>) {
    exists i :: SilentSince(acts, i)
  }

  lemma LifeShownEarlier(acts: seq<Action>, a: Action, j: nat)
    requires j < |acts|
    ensures LifeShownAt(acts + [a], j) <==> LifeShownAt(acts, j)
  {
    assert (acts + [a])[..j] == acts[..j];
  }

  lemma {:induction false} SilentStep(acts: seq<Action>, a: Action)
    requires Run(INIT, acts).Some? && Enabled(Run(INIT, acts).value, a)
    ensures Silent(acts + [a]) <==> FailsProbe(a) || (Silent(acts) && !ShowsLife(Run(INIT, acts).value, a))
  {
    var all := acts + [a];
    assert all[..|acts|] == acts && all[|acts|] == a;
    assert LifeShownAt(all, |acts|) <==> ShowsLife(Run(INIT, acts).value, a);
    assert SilentSince(all, |acts|) <==> FailsProbe(a);
    forall i | 0 <= i < |acts|
      ensures SilentSince(all, i) <==> SilentSince(acts, i) && !LifeShownAt(all, |acts|)
    {
      forall j | 0 <= j < |acts|
        ensures LifeShownAt(all, j) <==> LifeShownAt(acts, j)
      {
        LifeShownEarlier(acts, a, j);
      }
    }
  }

  /**
   At the end of any run "no daemon" is recorded exactly when some probe of the run
   failed and nothing showed a sign of life after it, however the two overlapped.
   */
  lemma {:induction false} NoDaemonHistory(acts: seq<Action>, s: State)
    requires Run(INIT, acts) == Some(s)
    ensures s.peer.probeFailed <==> Silent(acts)
    decreases |acts|
  {
    if acts != [] {
      var first, a := acts[..|acts| - 1], acts[|acts| - 1];
      assert acts == first + [a];
      RunConcat(INIT, first, [a]);
      var before := Run(INIT, first).value;
      assert Run(before, [a]) == Some(s);
      assert [a][1..] == [] && Enabled(before, a) && s == Apply(before, a);
      NoDaemonHistory(first, before);
      NoDaemonFlag(before, a);
      SilentStep(first, a);
    }
  }

  // ----- Session accounting ------------------------------------------------------

  lemma SessionsNeverExceedWatched(s: State)
    requires Reachable(s)
    ensures s.peer.sessionCount <= |s.peer.watched|
    ensures forall pid :: pid in s.peer.watched ==> exists id :: Watches(s.tasks, id, pid)
  {
    ReachableInv(s);
  }

  ghost function Watchers(tasks: map<TaskId, Task>): set<TaskId> {
    set id | id in tasks && tasks[id].Watcher?
  }

  ghost predicate DistinctPids(tasks: map<TaskId, Task>) {
    forall id, other ::
      id in tasks && other in tasks && tasks[id].Watcher? && tasks[id] == tasks[other] ==> id == other
  }

  /** Watched pids and live watchers correspond one to one, and each is one session. */
  ghost predicate ExactSessions(s: State) {
    && s.peer.sessionCount == |s.peer.watched|
    && (forall id :: id in s.tasks && s.tasks[id].Watcher? ==> s.tasks[id].pid in s.peer.watched)
    && DistinctPids(s.tasks)
  }

  lemma {:induction false} DiscoveredDistinct(p: Peer, pids: seq<Pid>, ids: seq<TaskId>)
    requires |pids| == |ids|
    ensures var put := DiscoveredWatchers(p, pids, ids);
      && (forall id :: id in put ==>
            put[id].Watcher? && put[id].pid in TrackedAll(p, pids).watched && put[id].pid !in p.watched)
      && DistinctPids(put)
    decreases pids
  {
    if pids != [] {
      DiscoveredFacts(Tracked(p, pids[0]), pids[1..], ids[1..]);
      DiscoveredDistinct(Tracked(p, pids[0]), pids[1..], ids[1..]);
    }
  }

  /** The watchers after a spawning action: the old ones, and new ones for pids not watched before. */
  lemma SpawnedWatchers(s: State, a: Action)
    requires Inv(s) && Enabled(s, a) && !a.Act? && !a.Disconnect?
    ensures var d := Written(s, a);
      && (forall id :: id in d.put && d.put[id].Watcher? ==>
            d.put[id].pid in d.peer.watched && d.put[id].pid !in s.peer.watched)
      && DistinctPids(d.put)
      && s.peer.watched <= d.peer.watched
      && d.peer.sessionCount - s.peer.sessionCount == |d.peer.watched| - |s.peer.watched|
  {
    if a.Discover? {
      DiscoveredFacts(s.peer, a.pids, a.watchers);
      DiscoveredDistinct(s.peer, a.pids, a.watchers);
    }
  }

  lemma ExactStepSpawn(s: State, a: Action)
    requires Inv(s) && ExactSessions(s) && Enabled(s, a) && !a.Act? && !a.Disconnect?
    ensures ExactSessions(Apply(s, a))
  {
    SpawnFacts(s, a);
    SpawnedWatchers(s, a);
    var d, after := Written(s, a), Apply(s, a).tasks;
    forall id | id in after && after[id].Watcher?
      ensures || (id in d.put && d.put[id] == after[id])
        || (id in s.tasks && id !in d.put && s.tasks[id] == after[id])
    {
      EntryAfter(s, a, id);
    }
  }

  /** Of all reactions only the end of a process touches watchers, and it ends one. */
  lemma ReactWatchers(p: Peer, id: TaskId, t: Task, e: Event)
    requires Can(t, e)
    ensures var (q, next) := React(p, id, t, e);
      && (t.Watcher? <==> e.Fires?)
      && (next.Some? ==> !next.value.Watcher?)
      && q.watched == (if t.Watcher? then p.watched - {t.pid} else p.watched)
      && q.sessionCount == if t.Watcher? then Pred(p.sessionCount) else p.sessionCount
  {
  }

  lemma ExactStepAct(s: State, a: Action)
    requires Inv(s) && ExactSessions(s) && Enabled(s, a) && a.Act?
    ensures ExactSessions(Apply(s, a))
    ensures a.event.Fires? ==> s.peer.sessionCount > 0
  {
    var t := s.tasks[a.id];
    ReactWatchers(s.peer, a.id, t, a.event);
    forall id
      ensures id in Apply(s, a).tasks && Apply(s, a).tasks[id].Watcher? <==>
        id in s.tasks && s.tasks[id].Watcher? && id != a.id
      ensures id in Apply(s, a).tasks && Apply(s, a).tasks[id].Watcher? ==> s.tasks[id] == Apply(s, a).tasks[id]
    {
      EntryAfter(s, a, id);
    }
    if t.Watcher? {
      assert t.pid in s.peer.watched;
    }
  }

  lemma {:induction false} ExactAlways(s: State, acts: seq<Action>)
    requires Inv(s) && ExactSessions(s) && Run(s, acts).Some?
    requires forall a :: a in acts ==> !a.Disconnect?
    ensures ExactSessions(Run(s, acts).value)
    decreases acts
  {
    if acts != [] {
      var a := acts[0];
      assert !a.Disconnect?;
      if a.Act? {
        ExactStepAct(s, a);
      } else {
        ExactStepSpawn(s, a);
      }
      InvStep(s, a);
      ExactAlways(Apply(s, a), acts[1..]);
    }
  }

  lemma {:induction false} OneWatcherEach(tasks: map<TaskId, Task>, ids: set<TaskId>, pids: set<Pid>)
    requires forall id :: id in ids ==> id in tasks && tasks[id].Watcher? && tasks[id].pid in pids
    requires forall pid :: pid in pids ==> exists id :: id in ids && Watches(tasks, id, pid)
    requires DistinctPids(tasks)
    ensures |ids| == |pids|
    decreases pids
  {
    if ids != {} {
      var first := Member(ids);
      var pid := tasks[first].pid;
      assert pid in pids;
      var id :| id in ids && Watches(tasks, id, pid);
      forall other | other in pids - {pid}
        ensures exists i :: i in ids - {id} && Watches(tasks, i, other)
      {
        var i :| i in ids && Watches(tasks, i, other);
        assert i in ids - {id};
      }
      OneWatcherEach(tasks, ids - {id}, pids - {pid});
    } else if pids != {} {
      var pid := Member(pids);
      assert false;
    }
  }

  /**
   Without an explicit Disconnect the session count, the watched pids and the
   live watchers agree in number, and the end of a process always finds a
   session to subtract, however notifications and the startup scan interleave.
   */
  lemma SessionsExact(acts: seq<Action>, s: State)
    requires Run(INIT, acts) == Some(s)
    requires forall a :: a in acts ==> !a.Disconnect?
    ensures s.peer.sessionCount == |s.peer.watched| == |Watchers(s.tasks)|
    ensures forall id :: Enabled(s, Act(id, Fires)) ==> s.peer.sessionCount > 0
  {
    assert Receivers(INIT.tasks) == {};
    InvAlways(INIT, acts);
    ExactAlways(INIT, acts);
    forall pid | pid in s.peer.watched
      ensures exists id :: id in Watchers(s.tasks) && Watches(s.tasks, id, pid)
    {
      var id :| Watches(s.tasks, id, pid);
      assert id in Watchers(s.tasks);
    }
    OneWatcherEach(s.tasks, Watchers(s.tasks), s.peer.watched);
    forall id | Enabled(s, Act(id, Fires))
      ensures s.peer.sessionCount > 0
    {
      ExactStepAct(s, Act(id, Fires));
    }
  }

  // ----- Status ----------------------------------------------------------------

  /**
   What a status request says of a host is backed by tasks: it is listed iff it
   has a counted session or a live inbound task, and it is called connected iff
   an untold sender or an inbound task is live. Its sessions are the counted ones
   and the live inbound tasks. The end of an inbound task always finds a connection
   to subtract.
   */
  lemma StatusIsTruthful(s: State)
    requires Reachable(s)
    ensures s.peer.inbound == |Receivers(s.tasks)|
    ensures Total(s.peer) > 0 <==> s.peer.sessionCount > 0 || exists id :: id in s.tasks && s.tasks[id].Receiver?
    ensures Info(s.peer).connected <==> exists id :: id in s.tasks && (IsOpen(s.tasks, id) || s.tasks[id].Receiver?)
    ensures Info(s.peer).sessions == s.peer.sessionCount + |Receivers(s.tasks)|
    ensures forall id :: Enabled(s, Act(id, InboundEnds)) ==> s.peer.inbound > 0
  {
    ReachableInv(s);
    SingleOpenConnection(s);
    ReceiversCounted(s);
  }

  lemma ReceiversCounted(s: State)
    requires Reachable(s)
    ensures s.peer.inbound > 0 <==> exists id :: id in s.tasks && s.tasks[id].Receiver?
  {
    ReachableInv(s);
    forall id | id in s.tasks && s.tasks[id].Receiver?
      ensures s.peer.inbound > 0
    {
      assert id in Receivers(s.tasks);
    }
    if s.peer.inbound > 0 {
      assert Receivers(s.tasks) != {};
      var id := Member(Receivers(s.tasks));
      assert id in s.tasks && s.tasks[id].Receiver?;
    }
  }

  /**
   It says "no daemon" iff some probe of the run failed, nothing showed a sign of
   life after it, and no inbound task is live.
   */
  lemma StatusNoDaemon(acts: seq<Action>, s: State)
    requires Run(INIT, acts) == Some(s)
    ensures Info(s.peer).noDaemon <==> Silent(acts) && Receivers(s.tasks) == {}
  {
    NoDaemonHistory(acts, s);
    ReachableInv(s);
  }

  /** Where nobody sends Disconnect, the sessions it gives are the live watchers and the live inbound tasks. */
  lemma StatusSessions(acts: seq<Action>, s: State)
    requires Run(INIT, acts) == Some(s)
    requires forall a :: a in acts ==> !a.Disconnect?
    ensures Info(s.peer).sessions == |Watchers(s.tasks)| + |Receivers(s.tasks)|
  {
    SessionsExact(acts, s);
    StatusIsTruthful(s);
  }
}
