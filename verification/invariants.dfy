/** What every reachable state of one host satisfies. */
module HostInvariants {
  import opened Wrappers
  import opened Peers
  import opened HostMachine

  ghost predicate IsOpen(tasks: map<TaskId, Task>, id: TaskId) {
    id in tasks && tasks[id].Sender? && tasks[id].open
  }

  ghost predicate IsAttempt(tasks: map<TaskId, Task>, id: TaskId) {
    id in tasks && (tasks[id].Probing? || tasks[id].Dialling?)
  }

  ghost predicate Watches(tasks: map<TaskId, Task>, id: TaskId, pid: Pid) {
    id in tasks && tasks[id] == Watcher(pid)
  }

  ghost function Receivers(tasks: map<TaskId, Task>): set<TaskId> {
    set id | id in tasks && tasks[id].Receiver?
  }

  /** The slot holds the close sender of exactly the tasks that were not told to close. */
  ghost predicate SlotOwnsOpenTask(s: State) {
    forall id :: IsOpen(s.tasks, id) <==> s.peer.closeTx == Some(id)
  }

  ghost predicate ConnectedMeansSlot(s: State) {
    && (s.peer.connected <==> s.peer.closeTx.Some?)
    && (s.peer.connected ==> s.peer.sessionCount > 0)
  }

  ghost predicate FlagHasAttempt(s: State) {
    s.peer.connecting ==> exists id :: IsAttempt(s.tasks, id)
  }

  ghost predicate FlagOnlyUnconnected(s: State) {
    s.peer.connecting ==> !s.peer.connected
  }

  ghost predicate SessionsCovered(s: State) {
    && s.peer.sessionCount <= |s.peer.watched|
    && (forall pid :: pid in s.peer.watched ==> exists id :: Watches(s.tasks, id, pid))
  }

  ghost predicate NothingSwept(s: State) {
    forall id :: id in s.tasks ==> !s.tasks[id].Swept?
  }

  ghost predicate InboundCounted(s: State) {
    s.peer.inbound == |Receivers(s.tasks)|
  }

  ghost predicate Inv(s: State) {
    && SlotOwnsOpenTask(s)
    && ConnectedMeansSlot(s)
    && FlagHasAttempt(s)
    && FlagOnlyUnconnected(s)
    && SessionsCovered(s)
    && NothingSwept(s)
    && InboundCounted(s)
  }

  // ----- The startup scan's loop ---------------------------------------------

  lemma {:induction false} DiscoveredFacts(p: Peer, pids: seq<Pid>, ids: seq<TaskId>)
    requires |pids| == |ids|
    ensures var q := TrackedAll(p, pids);
      && q == p.(sessionCount := q.sessionCount, watched := q.watched)
      && p.sessionCount <= q.sessionCount && q.sessionCount - p.sessionCount == |q.watched| - |p.watched|
      && p.watched <= q.watched
    ensures forall id :: id in DiscoveredWatchers(p, pids, ids) ==>
      id in ids && DiscoveredWatchers(p, pids, ids)[id].Watcher?
    decreases pids
  {
    if pids != [] {
      DiscoveredFacts(Tracked(p, pids[0]), pids[1..], ids[1..]);
    }
  }

  /** With distinct ids, every pid that becomes watched gets a watcher of its own. */
  lemma {:induction false} DiscoveredCover(p: Peer, pids: seq<Pid>, ids: seq<TaskId>, pid: Pid) returns (id: TaskId)
    requires |pids| == |ids| && Fresh(ids, {})
    requires pid in TrackedAll(p, pids).watched && pid !in p.watched
    ensures Watches(DiscoveredWatchers(p, pids, ids), id, pid)
    decreases pids
  {
    DiscoveredFacts(Tracked(p, pids[0]), pids[1..], ids[1..]);
    if pids[0] == pid {
      id := ids[0];
    } else {
      id := DiscoveredCover(Tracked(p, pids[0]), pids[1..], ids[1..], pid);
    }
  }

  // ----- One step -------------------------------------------------------------

  /** An action other than a reaction only adds entries, none of them a sender. */
  lemma SpawnFacts(s: State, a: Action)
    requires ConnectedMeansSlot(s) && Enabled(s, a) && !a.Act?
    ensures var d := Written(s, a);
      && d.drop == {}
      && (forall id :: id in d.put ==> id !in s.tasks && !d.put[id].Sender? && !d.put[id].Swept?)
      && (d.peer.connected ==> d.peer.closeTx == s.peer.closeTx && s.peer.connected)
      && (!a.Disconnect? ==> d.peer.closeTx == s.peer.closeTx && d.peer.connected == s.peer.connected)
      && (!a.Disconnect? ==> d.peer.sessionCount >= s.peer.sessionCount)
  {
    if a.Discover? {
      DiscoveredFacts(s.peer, a.pids, a.watchers);
    }
    forall id | id in Written(s, a).put
      ensures id !in s.tasks
    {
      assert id in NewIds(a);
    }
  }

  lemma SlotStepSpawn(s: State, a: Action)
    requires Inv(s) && Enabled(s, a) && !a.Act?
    ensures SlotOwnsOpenTask(Apply(s, a)) && ConnectedMeansSlot(Apply(s, a))
  {
    SpawnFacts(s, a);
    forall id
      ensures IsOpen(Apply(s, a).tasks, id) <==> Apply(s, a).peer.closeTx == Some(id)
    {
      EntryAfter(s, a, id);
      assert IsOpen(s.tasks, id) <==> s.peer.closeTx == Some(id);
    }
  }

  lemma SlotStepAct(s: State, a: Action)
    requires Inv(s) && Enabled(s, a) && a.Act?
    ensures SlotOwnsOpenTask(Apply(s, a)) && ConnectedMeansSlot(Apply(s, a))
  {
    assert IsOpen(s.tasks, a.id) <==> s.peer.closeTx == Some(a.id);
    forall id
      ensures IsOpen(Apply(s, a).tasks, id) <==> Apply(s, a).peer.closeTx == Some(id)
    {
      EntryAfter(s, a, id);
      assert IsOpen(s.tasks, id) <==> s.peer.closeTx == Some(id);
    }
  }

  lemma SweepStep(s: State, a: Action)
    requires Inv(s) && Enabled(s, a)
    ensures NothingSwept(Apply(s, a))
  {
    if !a.Act? {
      SpawnFacts(s, a);
    }
    forall id | id in Apply(s, a).tasks
      ensures !Apply(s, a).tasks[id].Swept?
    {
      EntryAfter(s, a, id);
    }
  }

  /** If a step leaves the flag set, an attempt is in flight after it. */
  lemma FlagStep(s: State, a: Action)
    requires Inv(s) && Enabled(s, a)
    ensures FlagHasAttempt(Apply(s, a))
  {
    if Apply(s, a).peer.connecting {
      var id: TaskId;
      if s.peer.connecting {
        id :| IsAttempt(s.tasks, id);
        if !a.Act? {
          SpawnFacts(s, a);
        }
      } else if a.Act? {
        id := a.id;
      } else {
        id := LaunchedAtStartup(s, a);
      }
      EntryAfter(s, a, id);
      assert IsAttempt(Apply(s, a).tasks, id);
    }
  }

  lemma LaunchedAtStartup(s: State, a: Action) returns (id: TaskId)
    requires Enabled(s, a) && !a.Act? && !s.peer.connecting && Written(s, a).peer.connecting
    ensures id in Written(s, a).put && Written(s, a).put[id].Probing?
  {
    assert a.Discover?;
    DiscoveredFacts(s.peer, a.pids, a.watchers);
    id := a.attempt;
  }

  /** No region sets the flag of a connected host, and the one that connects clears it. */
  lemma FlagConnectedStep(s: State, a: Action)
    requires Inv(s) && Enabled(s, a)
    ensures FlagOnlyUnconnected(Apply(s, a))
  {
    if a.Discover? {
      DiscoveredFacts(s.peer, a.pids, a.watchers);
    }
  }

  lemma CoverStep(s: State, a: Action)
    requires Inv(s) && Enabled(s, a)
    ensures SessionsCovered(Apply(s, a))
  {
    CountStep(s, a);
    forall pid | pid in Apply(s, a).peer.watched
      ensures exists id :: Watches(Apply(s, a).tasks, id, pid)
    {
      var id: TaskId;
      if pid in s.peer.watched {
        id :| Watches(s.tasks, id, pid);
        if !a.Act? {
          SpawnFacts(s, a);
        }
      } else {
        id := NewWatcher(s, a, pid);
      }
      EntryAfter(s, a, id);
      assert Watches(Apply(s, a).tasks, id, pid);
    }
  }

  lemma PidExitedCovers(p: Peer, pid: Pid)
    requires p.sessionCount <= |p.watched|
    ensures PidExited(p, pid).sessionCount <= |PidExited(p, pid).watched|
  {
    if pid in p.watched {
      assert p.watched == (p.watched - {pid}) + {pid};
    } else {
      assert p.watched == p.watched - {pid};
    }
  }

  lemma ReactCovers(p: Peer, id: TaskId, t: Task, e: Event)
    requires Can(t, e) && p.sessionCount <= |p.watched|
    ensures React(p, id, t, e).0.sessionCount <= |React(p, id, t, e).0.watched|
  {
    if e.Fires? {
      PidExitedCovers(p, t.pid);
    }
  }

  lemma CountStep(s: State, a: Action)
    requires Inv(s) && Enabled(s, a)
    ensures Written(s, a).peer.sessionCount <= |Written(s, a).peer.watched|
  {
    match a {
      case Act(id, e) => ReactCovers(s.peer, id, s.tasks[id], e);
      case Disconnect(pid) => PidExitedCovers(s.peer, pid);
      case Discover(pids, watchers, _) => DiscoveredFacts(s.peer, pids, watchers);
      case _ =>
    }
  }

  lemma NewWatcher(s: State, a: Action, pid: Pid) returns (id: TaskId)
    requires Enabled(s, a) && pid in Written(s, a).peer.watched && pid !in s.peer.watched
    ensures Watches(Written(s, a).put, id, pid)
  {
    if a.Notify? {
      id := a.watcher;
      assert NewIds(a)[0] != NewIds(a)[1];
    } else {
      assert a.Discover?;
      forall i, j | 0 <= i < j < |a.watchers|
        ensures a.watchers[i] != a.watchers[j]
      {
        assert NewIds(a)[i] != NewIds(a)[j];
      }
      id := DiscoveredCover(s.peer, a.pids, a.watchers, pid);
      assert id in a.watchers by { DiscoveredFacts(s.peer, a.pids, a.watchers); }
      var k :| 0 <= k < |a.watchers| && a.watchers[k] == id;
      assert NewIds(a)[k] != NewIds(a)[|a.watchers|];
    }
  }

  lemma ReactInbound(p: Peer, id: TaskId, t: Task, e: Event)
    requires Can(t, e)
    ensures var (q, next) := React(p, id, t, e);
      && (t.Receiver? <==> e.InboundEnds?)
      && (next.Some? ==> !next.value.Receiver?)
      && q.inbound == if t.Receiver? then Pred(p.inbound) else p.inbound
  {
  }

  lemma InboundStepAct(s: State, a: Action)
    requires InboundCounted(s) && Enabled(s, a) && a.Act?
    ensures InboundCounted(Apply(s, a))
  {
    var before, after := Receivers(s.tasks), Receivers(Apply(s, a).tasks);
    ReactInbound(s.peer, a.id, s.tasks[a.id], a.event);
    assert after == before - {a.id} by {
      forall id
        ensures id in after <==> id in before && id != a.id
      {
        EntryAfter(s, a, id);
      }
    }
    if !s.tasks[a.id].Receiver? {
      assert before - {a.id} == before;
    }
  }

  lemma InboundStepSpawn(s: State, a: Action)
    requires Inv(s) && Enabled(s, a) && !a.Act?
    ensures InboundCounted(Apply(s, a))
  {
    var before, after := Receivers(s.tasks), Receivers(Apply(s, a).tasks);
    SpawnFacts(s, a);
    if a.Discover? {
      DiscoveredFacts(s.peer, a.pids, a.watchers);
    }
    forall id
      ensures id in after <==> id in before || (a.Accept? && id == a.receiver)
    {
      EntryAfter(s, a, id);
    }
    if a.Accept? {
      assert a.receiver in NewIds(a);
      assert after == before + {a.receiver};
    } else {
      assert after == before;
    }
  }

  lemma InvStep(s: State, a: Action)
    requires Inv(s) && Enabled(s, a)
    ensures Inv(Apply(s, a))
  {
    if a.Act? {
      SlotStepAct(s, a);
      InboundStepAct(s, a);
    } else {
      SlotStepSpawn(s, a);
      InboundStepSpawn(s, a);
    }
    SweepStep(s, a);
    FlagStep(s, a);
    FlagConnectedStep(s, a);
    CoverStep(s, a);
  }

  /** Every state of every run satisfies the invariant. */
  lemma {:induction false} InvAlways(s: State, acts: seq<Action>)
    requires Inv(s) && Run(s, acts).Some?
    ensures Inv(Run(s, acts).value)
    decreases acts
  {
    if acts != [] {
      InvStep(s, acts[0]);
      InvAlways(Apply(s, acts[0]), acts[1..]);
    }
  }
}
