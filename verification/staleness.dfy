/**
 Tempting statements that stale knowledge makes false. For each: a run in which
 it fails, and the exact step that breaks it, given that it held before.
 */
module HostStaleness {
  import opened Wrappers
  import opened Peers
  import opened HostMachine
  import opened HostInvariants
  import opened HostSafety

  ghost function Attempts(tasks: map<TaskId, Task>): set<TaskId> {
    set id | id in tasks && IsAttempt(tasks, id)
  }

  // ----- "connecting means exactly one attempt" -----------------------------------

  ghost predicate OneAttemptIffFlag(s: State) {
    |Attempts(s.tasks)| == if s.peer.connecting then 1 else 0
  }

  lemma ReactAttempts(p: Peer, id: TaskId, t: Task, e: Event)
    requires Can(t, e) && !e.Sweeps?
    ensures var (q, next) := React(p, id, t, e);
      var was := t.Probing? || t.Dialling?;
      var stays := next.Some? && (next.value.Probing? || next.value.Dialling?);
      && (was && stays ==> q.connecting == p.connecting)
      && (was && !stays ==> !q.connecting)
      && (!was && stays ==> !p.connecting && q.connecting)
      && (!was && !stays ==> q.connecting == (p.connecting && e != Answered(false) && !e.CleansUp?))
  {
  }

  lemma AttemptsAfterReaction(s: State, id: TaskId, e: Event)
    requires Enabled(s, Act(id, e))
    ensures var next := React(s.peer, id, s.tasks[id], e).1;
      Attempts(Apply(s, Act(id, e)).tasks)
      == Attempts(s.tasks) - {id} + (if next.Some? && (next.value.Probing? || next.value.Dialling?) then {id} else {})
  {
    forall k
      ensures k in Attempts(Apply(s, Act(id, e)).tasks) <==> IsAttempt(Apply(s, Act(id, e)).tasks, k)
    {
      EntryAfter(s, Act(id, e), k);
    }
    var next := React(s.peer, id, s.tasks[id], e).1;
    forall k
      ensures k in Attempts(Apply(s, Act(id, e)).tasks) <==>
        k in Attempts(s.tasks) - {id}
          + (if next.Some? && (next.value.Probing? || next.value.Dialling?) then {id} else {})
    {
      EntryAfter(s, Act(id, e), k);
    }
  }

  lemma AttemptsAfterSpawn(s: State, a: Action)
    requires Inv(s) && Enabled(s, a) && !a.Act?
    ensures var starts := a.Discover? && MayClaim(s.peer);
      && Attempts(Apply(s, a).tasks) == Attempts(s.tasks) + (if starts then {a.attempt} else {})
      && Apply(s, a).peer.connecting == (s.peer.connecting || starts)
      && (starts ==> a.attempt !in Attempts(s.tasks))
  {
    SpawnFacts(s, a);
    var starts := a.Discover? && MayClaim(s.peer);
    if a.Discover? {
      DiscoveredFacts(s.peer, a.pids, a.watchers);
      assert a.attempt in NewIds(a);
    }
    forall k
      ensures k in Attempts(Apply(s, a).tasks) <==> k in Attempts(s.tasks) + (if starts then {a.attempt} else {})
    {
      EntryAfter(s, a, k);
    }
  }

  /** Only a failed liveness probe and a sender's cleanup break it, and only while the flag is set. */
  lemma OneAttemptBreaks(s: State, a: Action)
    requires Reachable(s) && OneAttemptIffFlag(s) && Enabled(s, a)
    ensures !OneAttemptIffFlag(Apply(s, a)) <==>
      s.peer.connecting && a.Act? && (a.event == Answered(false) || a.event.CleansUp?)
  {
    ReachableInv(s);
    if a.Act? {
      IdleSweepFindsNothing(s, a);
      ReactAttempts(s.peer, a.id, s.tasks[a.id], a.event);
      AttemptsAfterReaction(s, a.id, a.event);
      if a.id !in Attempts(s.tasks) {
        assert Attempts(s.tasks) - {a.id} == Attempts(s.tasks);
      }
    } else {
      AttemptsAfterSpawn(s, a);
    }
  }

  // ----- "connected excludes probe_failed" ------------------------------------------

  ghost predicate NoContradiction(s: State) {
    !(s.peer.connected && s.peer.probeFailed)
  }

  lemma ContradictionByReaction(p: Peer, id: TaskId, t: Task, e: Event)
    requires Can(t, e) && !e.Sweeps? && !(p.connected && p.probeFailed)
    ensures var q := React(p, id, t, e).0;
      q.connected && q.probeFailed <==>
        p.connected && (e == Probed(false) || (e == Answered(false) && !t.snapshot))
  {
  }

  /** A probe started before the connection came up reports its failure after it. */
  lemma ContradictionArises(s: State, a: Action)
    requires Reachable(s) && NoContradiction(s) && Enabled(s, a)
    ensures !NoContradiction(Apply(s, a)) <==>
      && s.peer.connected && a.Act?
      && (a.event == Probed(false) || (a.event == Answered(false) && !s.tasks[a.id].snapshot))
  {
    IdleSweepFindsNothing(s, a);
    if a.Act? {
      ContradictionByReaction(s.peer, a.id, s.tasks[a.id], a.event);
    } else if a.Discover? {
      DiscoveredFacts(s.peer, a.pids, a.watchers);
    }
  }

  // ----- "an old task's cleanup never disturbs a newer connection" --------------------

  ghost predicate Disturbs(s: State, id: TaskId)
    requires Enabled(s, Act(id, CleansUp))
  {
    exists other :: other != id && IsOpen(s.tasks, other) && !IsOpen(Apply(s, Act(id, CleansUp)).tasks, other)
  }

  /** It does exactly when the cleaning task had been told to close and a connection is up. */
  lemma CleanupDisturbs(s: State, id: TaskId)
    requires Reachable(s) && Enabled(s, Act(id, CleansUp))
    ensures Disturbs(s, id) <==> s.peer.connected && !s.tasks[id].open
  {
    ReachableInv(s);
    assert IsOpen(s.tasks, id) <==> s.peer.closeTx == Some(id);
    forall other | IsOpen(s.tasks, other)
      ensures s.peer.closeTx == Some(other)
    {
    }
    if s.peer.connected && !s.tasks[id].open {
      var other := s.peer.closeTx.value;
      assert IsOpen(s.tasks, other);
      EntryAfter(s, Act(id, CleansUp), other);
      assert other != id && !IsOpen(Apply(s, Act(id, CleansUp)).tasks, other);
    }
  }

  // ----- "session_count equals the number of watched pids" ----------------------------

  ghost predicate CountsWatched(s: State) {
    s.peer.sessionCount == |s.peer.watched|
  }

  function ExitedPid(s: State, a: Action): Option<Pid> {
    if a.Disconnect? then Some(a.gone)
    else if a.Act? && a.event.Fires? && a.id in s.tasks && s.tasks[a.id].Watcher? then Some(s.tasks[a.id].pid)
    else None
  }

  lemma PidExitedCounts(p: Peer, pid: Pid)
    requires p.sessionCount == |p.watched|
    ensures PidExited(p, pid).sessionCount != |PidExited(p, pid).watched| <==> pid !in p.watched && p.sessionCount > 0
  {
    if pid !in p.watched {
      assert p.watched - {pid} == p.watched;
    }
  }

  /** An exit of a pid that is not watched subtracts a session that belongs to another pid. */
  lemma CountBreaks(s: State, a: Action)
    requires Reachable(s) && CountsWatched(s) && Enabled(s, a)
    ensures !CountsWatched(Apply(s, a)) <==>
      ExitedPid(s, a).Some? && ExitedPid(s, a).value !in s.peer.watched && s.peer.sessionCount > 0
  {
    if a.Act? {
      ReactWatchers(s.peer, a.id, s.tasks[a.id], a.event);
      if a.event.Fires? {
        PidExitedCounts(s.peer, s.tasks[a.id].pid);
      }
    } else if a.Disconnect? {
      PidExitedCounts(s.peer, a.gone);
    } else if a.Discover? {
      DiscoveredFacts(s.peer, a.pids, a.watchers);
    }
  }

  // ----- Witness runs ------------------------------------------------------------------

  lemma Step(s: State, a: Action, t: State)
    requires Reachable(s) && Enabled(s, a) && Apply(s, a) == t
    ensures Reachable(t)
  {
    ReachableStep(s, a);
  }

  lemma ActStep(s: State, id: TaskId, e: Event, t: State)
    requires Reachable(s) && id in s.tasks && Can(s.tasks[id], e)
    requires var (q, next) := React(s.peer, id, s.tasks[id], e);
      t == State(q, Told(if next.Some? then s.tasks[id := next.value] else s.tasks - {id}, s.peer.closeTx, q.closeTx))
    ensures Reachable(t)
  {
    Reaction(s, id, e);
    Step(s, Act(id, e), t);
  }

  lemma InitReachable()
    ensures Reachable(INIT)
  {
    assert Run(INIT, []) == Some(INIT);
  }

  lemma FirstNotified() returns (s: State)
    ensures Reachable(s)
    ensures s == State(Peer(1, 0, false, false, false, {7}, None), map[0 := Watcher(7), 1 := Deciding])
  {
    InitReachable();
    s := State(Peer(1, 0, false, false, false, {7}, None), map[0 := Watcher(7), 1 := Deciding]);
    assert Apply(INIT, Notify(7, 0, 1)) == s;
    Step(INIT, Notify(7, 0, 1), s);
  }

  lemma FirstListed() returns (s: State)
    ensures Reachable(s)
    ensures s == State(Peer(1, 0, false, false, false, {7}, None),
      map[0 := Watcher(7), 1 := Deciding, 2 := Listed(false)])
  {
    var s0 := FirstNotified();
    s := State(s0.peer, map[0 := Watcher(7), 1 := Deciding, 2 := Listed(false)]);
    assert Apply(s0, ListHost(false, 2)) == s;
    Step(s0, ListHost(false, 2), s);
  }

  /** A liveness probe in flight next to an attempt that was started after it. */
  lemma ProbeBesideAttempt() returns (s: State)
    ensures Reachable(s)
    ensures s == State(Peer(1, 0, false, true, false, {7}, None),
      map[0 := Watcher(7), 1 := Probing, 2 := Checking(false)])
  {
    var s0 := FirstListed();
    var s1 := State(s0.peer, s0.tasks[2 := Checking(false)]);
    ActStep(s0, 2, Looks, s1);
    s := State(s0.peer.(connecting := true), s1.tasks[1 := Probing]);
    ActStep(s1, 1, Decides, s);
  }

  /** A failed liveness probe clears the flag under a running attempt. */
  lemma FlagClearedUnderAttempt() returns (s: State)
    ensures Reachable(s) && !s.peer.connecting && IsAttempt(s.tasks, 1)
    ensures s == State(Peer(1, 0, false, false, true, {7}, None), map[0 := Watcher(7), 1 := Probing])
  {
    var s0 := ProbeBesideAttempt();
    s := State(Peer(1, 0, false, false, true, {7}, None), map[0 := Watcher(7), 1 := Probing]);
    assert s0.tasks - {2} == s.tasks;
    ActStep(s0, 2, Answered(false), s);
  }

  lemma SecondNotified() returns (s: State)
    ensures Reachable(s)
    ensures s == State(Peer(2, 0, false, false, true, {7, 8}, None),
      map[0 := Watcher(7), 1 := Probing, 3 := Watcher(8), 4 := Deciding])
  {
    var s0 := FlagClearedUnderAttempt();
    s := State(Peer(2, 0, false, false, true, {7, 8}, None),
      map[0 := Watcher(7), 1 := Probing, 3 := Watcher(8), 4 := Deciding]);
    assert Apply(s0, Notify(8, 3, 4)) == s;
    Step(s0, Notify(8, 3, 4), s);
  }

  /** So a second attempt starts beside the first. */
  lemma TwoAttempts() returns (s: State)
    ensures Reachable(s) && s.peer.connecting && IsAttempt(s.tasks, 1) && IsAttempt(s.tasks, 4)
    ensures s == State(Peer(2, 0, false, true, true, {7, 8}, None),
      map[0 := Watcher(7), 1 := Probing, 3 := Watcher(8), 4 := Probing])
  {
    var s0 := SecondNotified();
    s := State(s0.peer.(connecting := true), s0.tasks[4 := Probing]);
    ActStep(s0, 4, Decides, s);
  }

  lemma FirstConnects() returns (s: State)
    ensures Reachable(s)
    ensures s == State(Peer(2, 0, true, false, false, {7, 8}, Some(1)),
      map[0 := Watcher(7), 1 := Sender(true, true), 3 := Watcher(8), 4 := Probing])
  {
    var s0 := TwoAttempts();
    var s1 := State(s0.peer, s0.tasks[1 := Dialling]);
    ActStep(s0, 1, Probed(true), s1);
    s := State(Peer(2, 0, true, false, false, {7, 8}, Some(1)), s1.tasks[1 := Sender(true, true)]);
    ActStep(s1, 1, Dialled(true), s);
  }

  /** Status then says both "connected" and "no daemon" of a host. */
  lemma ConnectedYetNoDaemon() returns (s: State)
    ensures Reachable(s) && !NoContradiction(s)
    ensures Info(s.peer).connected && Info(s.peer).noDaemon
  {
    var s0 := FirstConnects();
    s := State(s0.peer.(probeFailed := true), s0.tasks - {4});
    ActStep(s0, 4, Probed(false), s);
  }

  lemma SecondReplacesFirst() returns (s: State)
    ensures Reachable(s)
    ensures s == State(Peer(2, 0, true, false, false, {7, 8}, Some(4)),
      map[0 := Watcher(7), 1 := Sender(false, true), 3 := Watcher(8), 4 := Sender(true, true)])
  {
    var s0 := FirstConnects();
    var s1 := State(s0.peer, s0.tasks[4 := Dialling]);
    ActStep(s0, 4, Probed(true), s1);
    s := State(Peer(2, 0, true, false, false, {7, 8}, Some(4)),
      map[0 := Watcher(7), 1 := Sender(false, true), 3 := Watcher(8), 4 := Sender(true, true)]);
    assert s.tasks == s1.tasks[4 := Sender(true, true)][1 := Sender(false, true)];
    ActStep(s1, 4, Dialled(true), s);
  }

  /** The second attempt replaced the first connection; the first one's cleanup then closes the second. */
  lemma NewerConnectionKnockedOut() returns (s: State)
    ensures Reachable(s) && Enabled(s, Act(1, CleansUp)) && Disturbs(s, 1)
    ensures IsOpen(s.tasks, 4) && !Apply(s, Act(1, CleansUp)).peer.connected
  {
    var s0 := SecondReplacesFirst();
    s := State(s0.peer, s0.tasks[1 := Sender(false, false)]);
    ActStep(s0, 1, Closes, s);
    CleanupDisturbs(s, 1);
  }

  /** An explicit Disconnect for an unknown pid takes a session away from a watched one. */
  lemma DisconnectMiscounts() returns (s: State)
    ensures Reachable(s) && s.peer.sessionCount == 0 && s.peer.watched == {7}
  {
    var s1 := FirstNotified();
    s := State(s1.peer.(sessionCount := 0), s1.tasks);
    assert Apply(s1, Disconnect(9)) == s;
    Step(s1, Disconnect(9), s);
  }
}
