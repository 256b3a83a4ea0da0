/**
 Settling and recovery of one host. Internal actions are those the daemon owes:
 outcomes of probes and dials already started, decisions already scheduled,
 the exit of tasks that were told to close, and cleanups.
 */
module HostDrain {
  import opened Wrappers
  import opened MapSum
  import opened Peers
  import opened HostMachine
  import opened HostInvariants
  import opened HostSafety

  predicate Internal(a: Action) {
    a.Act? && !a.event.Fires? && !a.event.RemoteEnds? && !a.event.InboundEnds?
  }

  predicate AllInternal(acts: seq<Action>) {
    forall a :: a in acts ==> Internal(a)
  }

  /** Steps a task can still cause before nothing internal is left of it. */
  function Weight(t: Task): nat {
    match t
    case Watcher(_) => 0
    case Receiver => 0
    case Swept => 1
    case Sender(_, running) => if running then 2 else 1
    case Dialling => 3
    case Probing => 4
    case Checking(_) => 4
    case Deciding => 5
    case Listed(_) => 5
  }

  ghost function Work(tasks: map<TaskId, Task>): nat {
    Sum(tasks, Weight)
  }

  lemma WorkTold(tasks: map<TaskId, Task>, before: Option<TaskId>, after: Option<TaskId>)
    ensures Work(Told(tasks, before, after)) == Work(tasks)
  {
    if before.Some? && after != before && before.value in tasks && tasks[before.value].Sender? {
      SumUpdate(tasks, Weight, before.value, tasks[before.value].(open := false));
    }
  }

  lemma ReactLighter(p: Peer, id: TaskId, t: Task, e: Event)
    requires Can(t, e) && Internal(Act(id, e))
    ensures var next := React(p, id, t, e).1;
      (if next.Some? then Weight(next.value) else 0) < Weight(t)
  {
  }

  /** Every internal step strictly lowers the remaining work. */
  lemma InternalDecreases(s: State, a: Action)
    requires Enabled(s, a) && Internal(a)
    ensures Work(Apply(s, a).tasks) < Work(s.tasks)
  {
    ReactLighter(s.peer, a.id, s.tasks[a.id], a.event);
    var d := Written(s, a);
    WorkTold((s.tasks - d.drop) + d.put, s.peer.closeTx, d.peer.closeTx);
    var next := React(s.peer, a.id, s.tasks[a.id], a.event).1;
    if next.Some? {
      assert (s.tasks - d.drop) + d.put == s.tasks[a.id := next.value];
      SumUpdate(s.tasks, Weight, a.id, next.value);
    } else {
      assert (s.tasks - d.drop) + d.put == s.tasks - {a.id};
      SumSplit(s.tasks, Weight, a.id);
    }
  }

  /** Any internal schedule ends: it is no longer than the work at its start. */
  lemma {:induction false} DrainBounded(s: State, acts: seq<Action>)
    requires Run(s, acts).Some? && AllInternal(acts)
    ensures Work(Run(s, acts).value.tasks) + |acts| <= Work(s.tasks)
    decreases acts
  {
    if acts != [] {
      assert Internal(acts[0]);
      InternalDecreases(s, acts[0]);
      DrainBounded(Apply(s, acts[0]), acts[1..]);
    }
  }

  /** Nothing internal is left: what remains waits for the outside world. */
  predicate Settled(t: Task) {
    t.Watcher? || t.Receiver? || (t.Sender? && t.open && t.running)
  }

  ghost predicate Quiescent(s: State) {
    forall id :: id in s.tasks ==> Settled(s.tasks[id])
  }

  /** The internal event a task that is not settled can take now. */
  function Owed(t: Task): Event
    requires !Settled(t)
    ensures Can(t, Owed(t))
  {
    match t
    case Swept => Sweeps
    case Sender(_, running) => if running then Closes else CleansUp
    case Dialling => Dialled(false)
    case Probing => Probed(false)
    case Checking(_) => Lost
    case Deciding => Decides
    case Listed(_) => Looks
  }

  /** Quiescent states are exactly those with no internal action enabled. */
  lemma QuiescentMeansDone(s: State)
    ensures Quiescent(s) <==> forall a :: Internal(a) ==> !Enabled(s, a)
  {
    forall id | id in s.tasks && !Settled(s.tasks[id])
      ensures exists a :: Internal(a) && Enabled(s, a)
    {
      assert Internal(Act(id, Owed(s.tasks[id]))) && Enabled(s, Act(id, Owed(s.tasks[id])));
    }
  }

  /** From every state some internal schedule reaches quiescence. */
  lemma {:induction false} DrainExists(s: State) returns (acts: seq<Action>)
    ensures AllInternal(acts) && Run(s, acts).Some? && Quiescent(Run(s, acts).value)
    decreases Work(s.tasks)
  {
    if Quiescent(s) {
      acts := [];
    } else {
      QuiescentMeansDone(s);
      var a :| Internal(a) && Enabled(s, a);
      InternalDecreases(s, a);
      var rest := DrainExists(Apply(s, a));
      acts := [a] + rest;
      assert acts[1..] == rest;
    }
  }

  ghost function Senders(tasks: map<TaskId, Task>): set<TaskId> {
    set id | id in tasks && tasks[id].Sender?
  }

  lemma ReactSessions(p: Peer, id: TaskId, t: Task, e: Event)
    requires Can(t, e) && !e.Fires?
    ensures React(p, id, t, e).0.sessionCount == p.sessionCount
  {
  }

  lemma {:induction false} DrainKeepsSessions(s: State, acts: seq<Action>)
    requires Run(s, acts).Some? && AllInternal(acts)
    ensures Run(s, acts).value.peer.sessionCount == s.peer.sessionCount
    decreases acts
  {
    if acts != [] {
      assert Internal(acts[0]);
      ReactSessions(s.peer, acts[0].id, s.tasks[acts[0].id], acts[0].event);
      DrainKeepsSessions(Apply(s, acts[0]), acts[1..]);
    }
  }

  /**
   What a quiescent state looks like: no attempt is in flight and the flag is
   clear; at most one sender is live, and the host is connected exactly when
   there is one.
   */
  lemma QuiescentShape(s: State)
    requires Inv(s) && Quiescent(s)
    ensures !s.peer.connecting
    ensures forall id :: !IsAttempt(s.tasks, id)
    ensures Senders(s.tasks) == if s.peer.connected then {s.peer.closeTx.value} else {}
    ensures s.peer.connected ==> s.tasks[s.peer.closeTx.value] == Sender(true, true)
  {
    forall id
      ensures id in Senders(s.tasks) <==> s.peer.closeTx == Some(id)
    {
      assert IsOpen(s.tasks, id) <==> s.peer.closeTx == Some(id);
      if id in s.tasks && s.tasks[id].Sender? {
        assert Settled(s.tasks[id]);
      }
    }
    if s.peer.connected {
      assert IsOpen(s.tasks, s.peer.closeTx.value);
    }
  }

  /**
   From any reachable state every internal schedule is bounded, some internal
   schedule settles, and wherever one settles the host is in order.
   */
  lemma DrainSettles(s: State, acts: seq<Action>)
    requires Reachable(s) && Run(s, acts).Some? && AllInternal(acts)
    ensures |acts| <= Work(s.tasks)
    ensures exists more :: AllInternal(more) && Run(s, acts + more).Some? && Quiescent(Run(s, acts + more).value)
    ensures var t := Run(s, acts).value;
      && t.peer.sessionCount == s.peer.sessionCount
      && (Quiescent(t) ==>
            && !t.peer.connecting
            && (forall id :: !IsAttempt(t.tasks, id))
            && |Senders(t.tasks)| == (if t.peer.connected then 1 else 0))
  {
    var t := Run(s, acts).value;
    DrainBounded(s, acts);
    DrainKeepsSessions(s, acts);
    var more := DrainExists(t);
    RunConcat(s, acts, more);
    ReachableInv(s);
    InvAlways(s, acts);
    if Quiescent(t) {
      QuiescentShape(t);
    }
  }

  // ----- Recovery ------------------------------------------------------------------

  /**
   One reconcile pass over the host, uninterrupted: the idle scan, the listing,
   the look, and, if the host is not connected, a probe that succeeds and a dial
   that succeeds.
   */
  function ReconcilePass(connected: bool, id: TaskId): seq<Action> {
    [IdleScan(id), ListHost(false, id), Act(id, Looks)]
    + (if connected then [] else [Act(id, Answered(true)), Act(id, Dialled(true))])
  }

  lemma PassLists(s: State, check: bool, id: TaskId, rest: seq<Action>)
    requires Inv(s) && s.peer.sessionCount > 0 && id !in s.tasks
    ensures Run(s, [IdleScan(id), ListHost(check, id)] + rest)
         == Run(s.(tasks := s.tasks[id := Listed(check)]), rest)
  {
    assert (s.tasks - {}) + map[] == s.tasks;
    assert Apply(s, IdleScan(id)) == s;
    assert (s.tasks - {}) + map[id := Listed(check)] == s.tasks[id := Listed(check)];
    RunTwo(s, IdleScan(id), ListHost(check, id), rest);
  }

  lemma PassLooks(s: State, id: TaskId)
    requires Inv(s) && Quiescent(s) && s.peer.sessionCount > 0 && id !in s.tasks
    ensures Run(s, [IdleScan(id), ListHost(false, id), Act(id, Looks)])
         == Some(if s.peer.connected then s else s.(tasks := s.tasks[id := Checking(false)]))
  {
    QuiescentShape(s);
    PassLists(s, false, id, [Act(id, Looks)]);
    var pass := [IdleScan(id), ListHost(false, id), Act(id, Looks)];
    assert [IdleScan(id), ListHost(false, id)] + [Act(id, Looks)] == pass;
    var listed := s.(tasks := s.tasks[id := Listed(false)]);
    var after := Apply(listed, Act(id, Looks));
    assert after.tasks == if s.peer.connected then s.tasks else s.tasks[id := Checking(false)];
    assert [Act(id, Looks)][1..] == [];
  }

  lemma PassConnects(s: State, id: TaskId)
    requires Inv(s) && Quiescent(s) && s.peer.sessionCount > 0 && !s.peer.connected && id !in s.tasks
    ensures var t := s.(tasks := s.tasks[id := Checking(false)]);
      Run(t, [Act(id, Answered(true)), Act(id, Dialled(true))])
      == Some(State(s.peer.(connected := true, probeFailed := false, closeTx := Some(id)),
                    s.tasks[id := Sender(true, true)]))
  {
    QuiescentShape(s);
    var t := s.(tasks := s.tasks[id := Checking(false)]);
    var t1 := Apply(t, Act(id, Answered(true)));
    assert t1.tasks == s.tasks[id := Dialling];
    var t2 := Apply(t1, Act(id, Dialled(true)));
    assert t2.tasks == s.tasks[id := Sender(true, true)];
    RunTwo(t, Act(id, Answered(true)), Act(id, Dialled(true)), []);
    assert [Act(id, Answered(true)), Act(id, Dialled(true))] + [] == [Act(id, Answered(true)), Act(id, Dialled(true))];
  }

  /**
   Whatever happened before, failed probes included: once drained, a host with
   sessions is connected again by one uninterrupted pass that finds the remote
   up, and exactly one sender serves it.
   */
  lemma Recovery(s: State, drain: seq<Action>, t: State, id: TaskId)
    requires Reachable(s) && s.peer.sessionCount > 0
    requires AllInternal(drain) && Run(s, drain) == Some(t) && Quiescent(t) && id !in t.tasks
    ensures var r := Run(t, ReconcilePass(t.peer.connected, id));
      && r.Some?
      && r.value.peer.connected && r.value.peer.sessionCount == s.peer.sessionCount
      && Quiescent(r.value)
      && |Senders(r.value.tasks)| == 1
      && (exists open :: IsOpen(r.value.tasks, open))
      && (!t.peer.connected ==> !r.value.peer.probeFailed)
  {
    ReachableInv(s);
    InvAlways(s, drain);
    DrainKeepsSessions(s, drain);
    QuiescentShape(t);
    PassLooks(t, id);
    var look := [IdleScan(id), ListHost(false, id), Act(id, Looks)];
    if t.peer.connected {
      assert look + [] == look;
      assert IsOpen(t.tasks, t.peer.closeTx.value);
    } else {
      PassConnects(t, id);
      RunConcat(t, look, [Act(id, Answered(true)), Act(id, Dialled(true))]);
      var r := Run(t, ReconcilePass(false, id)).value;
      assert Senders(r.tasks) == {id} && IsOpen(r.tasks, id);
    }
  }

  // ----- Status requests ---------------------------------------------------------------

  /** The pass of a status request over a connected host, with the outcome of its probe. */
  function StatusPass(id: TaskId, up: bool): seq<Action> {
    [IdleScan(id), ListHost(true, id)] + [Act(id, Looks), Act(id, Answered(up))]
  }

  lemma StatusLooks(s: State, id: TaskId, up: bool)
    requires Inv(s) && s.peer.connected && id !in s.tasks
    ensures Run(s, StatusPass(id, up))
         == Run(s.(tasks := s.tasks[id := Checking(true)]), [Act(id, Answered(up))])
  {
    PassLists(s, true, id, [Act(id, Looks), Act(id, Answered(up))]);
    var listed := s.(tasks := s.tasks[id := Listed(true)]);
    var checking := s.(tasks := s.tasks[id := Checking(true)]);
    assert Apply(listed, Act(id, Looks)).tasks == checking.tasks;
    assert [Act(id, Looks), Act(id, Answered(up))][1..] == [Act(id, Answered(up))];
  }

  /** The host after a liveness probe that saw it connected has failed. */
  ghost function LossNoticed(s: State): State
    requires s.peer.closeTx.Some? && IsOpen(s.tasks, s.peer.closeTx.value)
  {
    var slot := s.peer.closeTx.value;
    State(s.peer.(connected := false, probeFailed := true, closeTx := None),
          s.tasks[slot := s.tasks[slot].(open := false)])
  }

  /**
   A status request does not go on calling a host connected after its daemon is
   gone, whatever else is in flight: the probe of its pass fails, the sender is told
   to close and "no daemon" is recorded. If the probe succeeds the pass changes nothing.
   */
  lemma StatusNoticesLoss(s: State, id: TaskId, up: bool)
    requires Reachable(s) && s.peer.connected && id !in s.tasks
    ensures s.peer.closeTx.Some? && IsOpen(s.tasks, s.peer.closeTx.value)
    ensures Run(s, StatusPass(id, up)) == Some(if up then s else LossNoticed(s))
  {
    ReachableInv(s);
    assert IsOpen(s.tasks, s.peer.closeTx.value);
    StatusLooks(s, id, up);
    var checking := s.(tasks := s.tasks[id := Checking(true)]);
    var act := Act(id, Answered(up));
    assert [act][1..] == [];
    assert (checking.tasks - {id}) + map[] == s.tasks;
    assert Run(checking, [act]) == Some(Apply(checking, act));
  }
}
