/**
 Settling and recovery of the whole daemon. That one host settles or recovers
 when left alone says nothing yet of a schedule all hosts share; here the
 schedules are those of the mesh, in which the hosts' steps interleave freely.
 */
module MeshDrain {
  import opened Wrappers
  import opened MapSum
  import opened Peers
  import opened HostMachine
  import opened HostInvariants
  import opened HostDrain
  import opened Mesh

  predicate OnInternal(a: MeshAction) {
    a.On? && Internal(a.action)
  }

  ghost predicate AllOnInternal(acts: seq<MeshAction>) {
    forall a :: a in acts ==> OnInternal(a)
  }

  function EntryWeight(entry: (Host, Task)): nat {
    Weight(entry.1)
  }

  /** The work left on all hosts together. */
  ghost function MeshWork(m: Mesh): nat {
    Sum(m.tasks, EntryWeight)
  }

  lemma WorkToldIn(tasks: Table, before: Option<TaskId>, after: Option<TaskId>)
    ensures Sum(ToldIn(tasks, before, after), EntryWeight) == Sum(tasks, EntryWeight)
  {
    if before.Some? && after != before && before.value in tasks && tasks[before.value].1.Sender? {
      var (h, t) := tasks[before.value];
      SumUpdate(tasks, EntryWeight, before.value, (h, t.(open := false)));
    }
  }

  lemma EntryLighter(tasks: Table, id: TaskId, h: Host, next: Option<Task>)
    requires id in tasks && (if next.Some? then Weight(next.value) else 0) < Weight(tasks[id].1)
    ensures var after := if next.Some? then tasks[id := (h, next.value)] else tasks - {id};
      Sum(after, EntryWeight) < Sum(tasks, EntryWeight)
  {
    if next.Some? {
      SumUpdate(tasks, EntryWeight, id, (h, next.value));
    } else {
      SumSplit(tasks, EntryWeight, id);
    }
  }

  /** Every internal step, on whatever host, strictly lowers the work of the daemon. */
  lemma MeshInternalDecreases(m: Mesh, a: MeshAction)
    requires MeshEnabled(m, a) && OnInternal(a)
    ensures MeshWork(MeshApply(m, a)) < MeshWork(m)
  {
    var id, h := a.action.id, a.host;
    var t := m.tasks[id].1;
    if h in m.registry || Creates(a.action) {
      var before := At(m.registry, h);
      ReactLighter(before, id, t, a.action.event);
      var next := React(before, id, t, a.action.event).1;
      EntryLighter(m.tasks, id, h, next);
      var d := Change(before, Some(t), a.action);
      var written := (m.tasks - d.drop) + Tagged(h, d.put);
      assert written == if next.Some? then m.tasks[id := (h, next.value)] else m.tasks - {id};
      WorkToldIn(written, before.closeTx, d.peer.closeTx);
    } else {
      EntryLighter(m.tasks, id, h, Orphaned(t, a.action.event));
    }
  }

  lemma {:induction false} MeshDrainBounded(m: Mesh, acts: seq<MeshAction>)
    requires MeshRun(m, acts).Some? && AllOnInternal(acts)
    ensures MeshWork(MeshRun(m, acts).value) + |acts| <= MeshWork(m)
    decreases acts
  {
    if acts != [] {
      assert OnInternal(acts[0]);
      MeshInternalDecreases(m, acts[0]);
      MeshDrainBounded(MeshApply(m, acts[0]), acts[1..]);
    }
  }

  // ----- Schedules that settle ------------------------------------------------------

  ghost predicate MeshQuiescent(m: Mesh) {
    forall id :: id in m.tasks ==> Settled(m.tasks[id].1)
  }

  lemma QuiescentOnHost(m: Mesh, h: Host)
    requires MeshQuiescent(m)
    ensures Quiescent(HostState(m, h))
  {
  }

  /** An internal step that meets a remote which is up: no probe, dial or liveness probe fails. */
  predicate Benign(a: Action) {
    && Internal(a)
    && a.event != Probed(false) && a.event != Dialled(false) && a.event != Answered(false) && !a.event.Lost?
  }

  ghost predicate AllOnBenign(acts: seq<MeshAction>) {
    forall a :: a in acts ==> a.On? && Benign(a.action)
  }

  /** The event a task that is not settled can take now, with the remote up. */
  function OwedBenign(t: Task): Event
    requires !Settled(t)
    ensures Can(t, OwedBenign(t)) && Benign(Act(0, OwedBenign(t)))
  {
    if t.Dialling? then Dialled(true)
    else if t.Probing? then Probed(true)
    else if t.Checking? then Answered(true)
    else Owed(t)
  }

  /** From every state of the daemon some schedule of its own settles all hosts, even with every remote up. */
  lemma {:induction false} MeshDrainExists(m: Mesh) returns (acts: seq<MeshAction>)
    ensures AllOnBenign(acts) && AllOnInternal(acts)
    ensures MeshRun(m, acts).Some? && MeshQuiescent(MeshRun(m, acts).value)
    decreases MeshWork(m)
  {
    if MeshQuiescent(m) {
      acts := [];
    } else {
      var id :| id in m.tasks && !Settled(m.tasks[id].1);
      var (h, t) := m.tasks[id];
      var a := On(h, Act(id, OwedBenign(t)));
      MeshInternalDecreases(m, a);
      var rest := MeshDrainExists(MeshApply(m, a));
      acts := [a] + rest;
      assert acts[1..] == rest;
    }
  }

  lemma {:induction false} MeshRunConcat(m: Mesh, first: seq<MeshAction>, second: seq<MeshAction>)
    ensures MeshRun(m, first + second)
         == match MeshRun(m, first) case Some(t) => MeshRun(t, second) case None => None
    decreases first
  {
    if first == [] {
      assert first + second == second;
    } else {
      assert (first + second)[1..] == first[1..] + second;
      if MeshEnabled(m, first[0]) {
        MeshRunConcat(MeshApply(m, first[0]), first[1..], second);
      }
    }
  }

  lemma {:induction false} InternalProjected(acts: seq<MeshAction>, h: Host)
    requires AllOnInternal(acts)
    ensures AllInternal(ProjectRun(acts, h))
    decreases acts
  {
    if acts != [] {
      assert OnInternal(acts[0]);
      InternalProjected(acts[1..], h);
    }
  }

  /** Host `h` at rest: the flag clear, no attempt, and one sender if it is connected, else none. */
  ghost predicate InOrder(m: Mesh, h: Host) {
    && !At(m.registry, h).connecting
    && (forall id :: !IsAttempt(HostTasks(m.tasks, h), id))
    && |Senders(HostTasks(m.tasks, h))| == if At(m.registry, h).connected then 1 else 0
  }

  lemma DrainedHost(m: Mesh, acts: seq<MeshAction>, h: Host)
    requires MeshInv(m) && MeshRun(m, acts).Some? && AllOnInternal(acts)
    ensures var t := MeshRun(m, acts).value;
      && MeshInv(t)
      && At(t.registry, h).sessionCount == At(m.registry, h).sessionCount
      && (MeshQuiescent(t) ==> InOrder(t, h))
  {
    var t := MeshRun(m, acts).value;
    ProjectRuns(m, acts, h);
    InternalProjected(acts, h);
    DrainKeepsSessions(HostState(m, h), ProjectRun(acts, h));
    if MeshQuiescent(t) {
      QuiescentOnHost(t, h);
      assert Inv(HostState(t, h));
      QuiescentShape(HostState(t, h));
    }
  }

  /**
   After any run of the daemon every internal schedule of all its hosts is bounded,
   some continuation settles them all, and wherever one does, each host is in
   order. No internal schedule changes a session count.
   */
  lemma MeshDrainSettles(start: seq<MeshAction>, m: Mesh, acts: seq<MeshAction>)
    requires MeshRun(INIT_MESH, start) == Some(m) && MeshRun(m, acts).Some? && AllOnInternal(acts)
    ensures |acts| <= MeshWork(m)
    ensures exists more ::
      AllOnInternal(more) && MeshRun(m, acts + more).Some? && MeshQuiescent(MeshRun(m, acts + more).value)
    ensures var t := MeshRun(m, acts).value;
      forall h :: At(t.registry, h).sessionCount == At(m.registry, h).sessionCount
        && (MeshQuiescent(t) ==> InOrder(t, h))
  {
    InitMeshInv();
    ProjectRuns(INIT_MESH, start, "");
    MeshDrainBounded(m, acts);
    var more := MeshDrainExists(MeshRun(m, acts).value);
    MeshRunConcat(m, acts, more);
    forall h
      ensures var t := MeshRun(m, acts).value;
        At(t.registry, h).sessionCount == At(m.registry, h).sessionCount && (MeshQuiescent(t) ==> InOrder(t, h))
    {
      DrainedHost(m, acts, h);
    }
  }

  // ----- The passes over all hosts ---------------------------------------------------

  /** In a state that satisfies the invariant the idle scan of all hosts changes nothing. */
  lemma IdleScanAllFindsNothing(m: Mesh, ids: map<TaskId, Host>)
    requires MeshInv(m) && MeshEnabled(m, IdleScanAll(ids))
    ensures MeshApply(m, IdleScanAll(ids)) == m
  {
    forall id | id in ids
      ensures !(m.registry[ids[id]].connected && m.registry[ids[id]].sessionCount == 0)
    {
      assert Inv(HostState(m, ids[id]));
    }
    assert Scanned(m, IdleScanAll(ids)) == map[];
    assert m.tasks + map[] == m.tasks;
  }

  /** One host after the listing of all: an entry of its own if it has sessions, else nothing new. */
  lemma ListedOnHost(m: Mesh, check: bool, ids: map<TaskId, Host>, id: TaskId)
    requires MeshInv(m) && MeshEnabled(m, ListAll(check, ids)) && id in ids
    ensures var s := HostState(m, ids[id]);
      HostState(MeshApply(m, ListAll(check, ids)), ids[id])
        == if s.peer.sessionCount > 0 then s.(tasks := s.tasks[id := Listed(check)]) else s
  {
    var a, h := ListAll(check, ids), ids[id];
    SpawnOnHost(m.tasks, Scanned(m, a), h);
    ScanOnHost(m, a, h, id);
    var s := HostState(m, h);
    assert s.tasks + map[] == s.tasks;
    assert s.tasks + map[id := Listed(check)] == s.tasks[id := Listed(check)];
  }

  lemma ListedInvariant(m: Mesh, check: bool, ids: map<TaskId, Host>)
    requires MeshInv(m) && MeshEnabled(m, ListAll(check, ids))
    ensures MeshInv(MeshApply(m, ListAll(check, ids)))
  {
    ProjectStep(m, ListAll(check, ids));
  }

  /** The two scans at the start of a pass, and what follows them. */
  function Pass(check: bool, idle: map<TaskId, Host>, ids: map<TaskId, Host>, acts: seq<MeshAction>): seq<MeshAction> {
    [IdleScanAll(idle), ListAll(check, ids)] + acts
  }

  lemma PassScans(m: Mesh, check: bool, idle: map<TaskId, Host>, ids: map<TaskId, Host>, acts: seq<MeshAction>)
    requires MeshInv(m) && MeshEnabled(m, IdleScanAll(idle)) && MeshEnabled(m, ListAll(check, ids))
    ensures MeshRun(m, Pass(check, idle, ids, acts)) == MeshRun(MeshApply(m, ListAll(check, ids)), acts)
  {
    IdleScanAllFindsNothing(m, idle);
    assert Pass(check, idle, ids, acts)[1..] == [ListAll(check, ids)] + acts;
    assert ([ListAll(check, ids)] + acts)[1..] == acts;
  }

  /** A pass that ran has begun with two scans that were enabled in its first state. */
  lemma PassBegins(m: Mesh, check: bool, idle: map<TaskId, Host>, ids: map<TaskId, Host>, acts: seq<MeshAction>)
    requires MeshInv(m) && MeshRun(m, Pass(check, idle, ids, acts)).Some?
    ensures MeshEnabled(m, IdleScanAll(idle)) && MeshEnabled(m, ListAll(check, ids))
  {
    IdleScanAllFindsNothing(m, idle);
    assert Pass(check, idle, ids, acts)[1..] == [ListAll(check, ids)] + acts;
  }

  // ----- Recovery of all hosts ------------------------------------------------------------

  /** How far a pass has got with one host that was at rest in `s`; `id` is the host's entry. */
  function Stage(s: State, id: TaskId, k: nat): State {
    if k == 0 then s.(tasks := s.tasks[id := Listed(false)])
    else if s.peer.connected then s
    else if k == 1 then s.(tasks := s.tasks[id := Checking(false)])
    else if k == 2 then State(s.peer.(connecting := true, probeFailed := false), s.tasks[id := Dialling])
    else State(s.peer.(connected := true, probeFailed := false, closeTx := Some(id)), s.tasks[id := Sender(true, true)])
  }

  function LastStage(s: State): nat {
    if s.peer.connected then 1 else 3
  }

  /** With the remote up the host can only go on to the next stage, and at the last it is at rest. */
  lemma NextStage(s: State, id: TaskId, k: nat, a: Action)
    requires Inv(s) && Quiescent(s) && s.peer.sessionCount > 0 && id !in s.tasks && k <= LastStage(s)
    requires Enabled(Stage(s, id, k), a) && Benign(a)
    ensures k < LastStage(s) && Apply(Stage(s, id, k), a) == Stage(s, id, k + 1)
  {
    QuiescentShape(s);
    var now := Stage(s, id, k);
    assert Settled(now.tasks[a.id]) ==> !Enabled(now, a);
    assert a.id == id;
    if k == 0 {
      assert Apply(now, a).tasks == Stage(s, id, 1).tasks;
    } else if k == 1 {
      assert Apply(now, a).tasks == Stage(s, id, 2).tasks;
    } else {
      assert Apply(now, a).tasks == Stage(s, id, 3).tasks;
    }
  }

  lemma StagesQuiescent(s: State, id: TaskId, k: nat)
    requires Quiescent(s) && k <= LastStage(s) && Quiescent(Stage(s, id, k))
    ensures k == LastStage(s)
  {
    assert k < LastStage(s) ==> id in Stage(s, id, k).tasks;
  }

  ghost predicate AllBenign(acts: seq<Action>) {
    forall a :: a in acts ==> Benign(a)
  }

  lemma {:induction false} StagesRun(s: State, id: TaskId, k: nat, acts: seq<Action>)
    requires Inv(s) && Quiescent(s) && s.peer.sessionCount > 0 && id !in s.tasks && k <= LastStage(s)
    requires AllBenign(acts) && Run(Stage(s, id, k), acts).Some? && Quiescent(Run(Stage(s, id, k), acts).value)
    ensures Run(Stage(s, id, k), acts).value == Stage(s, id, LastStage(s))
    decreases acts
  {
    if acts == [] {
      StagesQuiescent(s, id, k);
    } else {
      assert Benign(acts[0]);
      NextStage(s, id, k, acts[0]);
      StagesRun(s, id, k + 1, acts[1..]);
    }
  }

  lemma {:induction false} BenignProjected(acts: seq<MeshAction>, h: Host)
    requires AllOnBenign(acts)
    ensures AllBenign(ProjectRun(acts, h))
    decreases acts
  {
    if acts != [] {
      assert acts[0].On? && Benign(acts[0].action);
      BenignProjected(acts[1..], h);
    }
  }

  /** A pass over all hosts, from a daemon at rest to a daemon at rest, as one host sees it. */
  lemma PassOnHost(m: Mesh, idle: map<TaskId, Host>, ids: map<TaskId, Host>, acts: seq<MeshAction>, r: Mesh, id: TaskId)
    requires MeshInv(m) && MeshQuiescent(m) && id in ids && At(m.registry, ids[id]).sessionCount > 0
    requires AllOnBenign(acts) && MeshRun(m, Pass(false, idle, ids, acts)) == Some(r) && MeshQuiescent(r)
    ensures id !in m.tasks
    ensures HostState(r, ids[id]) == Stage(HostState(m, ids[id]), id, LastStage(HostState(m, ids[id])))
  {
    PassBegins(m, false, idle, ids, acts);
    PassScans(m, false, idle, ids, acts);
    var listed, h := MeshApply(m, ListAll(false, ids)), ids[id];
    ListedOnHost(m, false, ids, id);
    ListedInvariant(m, false, ids);
    ProjectRuns(listed, acts, h);
    BenignProjected(acts, h);
    QuiescentOnHost(m, h);
    QuiescentOnHost(r, h);
    assert Inv(HostState(m, h));
    StagesRun(HostState(m, h), id, 0, ProjectRun(acts, h));
  }

  lemma LastStageShape(s: State, id: TaskId)
    requires Inv(s) && Quiescent(s) && s.peer.sessionCount > 0 && id !in s.tasks
    ensures var t := Stage(s, id, LastStage(s));
      && t.peer.connected && t.peer.sessionCount == s.peer.sessionCount
      && |Senders(t.tasks)| == 1 && (exists open :: IsOpen(t.tasks, open))
      && (!s.peer.connected ==> !t.peer.probeFailed)
  {
    QuiescentShape(s);
    var t := Stage(s, id, LastStage(s));
    if s.peer.connected {
      assert IsOpen(t.tasks, s.peer.closeTx.value);
    } else {
      assert Senders(t.tasks) == {id} && IsOpen(t.tasks, id);
    }
  }

  /** Host `h` is served by exactly one sender, which has not been told to close. */
  ghost predicate Served(m: Mesh, h: Host) {
    && At(m.registry, h).connected
    && |Senders(HostTasks(m.tasks, h))| == 1 && (exists open :: IsOpen(HostTasks(m.tasks, h), open))
  }

  /**
   Whatever happened before, failed probes on any hosts included: once the daemon
   has settled, one liveness pass that finds the remotes up, its steps for different
   hosts in any order, leaves every host with sessions connected and served.
   */
  lemma MeshRecovery(start: seq<MeshAction>, before: Mesh, drain: seq<MeshAction>, m: Mesh,
                     idle: map<TaskId, Host>, ids: map<TaskId, Host>, acts: seq<MeshAction>, r: Mesh)
    requires MeshRun(INIT_MESH, start) == Some(before)
    requires AllOnInternal(drain) && MeshRun(before, drain) == Some(m) && MeshQuiescent(m)
    requires AllOnBenign(acts) && MeshRun(m, Pass(false, idle, ids, acts)) == Some(r) && MeshQuiescent(r)
    ensures forall h :: At(before.registry, h).sessionCount > 0 ==>
      && Served(r, h) && At(r.registry, h).sessionCount == At(before.registry, h).sessionCount
      && (!At(m.registry, h).connected ==> !At(r.registry, h).probeFailed)
  {
    InitMeshInv();
    ProjectRuns(INIT_MESH, start, "");
    ProjectRuns(before, drain, "");
    forall h | At(before.registry, h).sessionCount > 0
      ensures Served(r, h) && At(r.registry, h).sessionCount == At(before.registry, h).sessionCount
      ensures !At(m.registry, h).connected ==> !At(r.registry, h).probeFailed
    {
      DrainedHost(before, drain, h);
      PassBegins(m, false, idle, ids, acts);
      assert h in m.registry;
      var id :| id in ids && ids[id] == h;
      PassOnHost(m, idle, ids, acts, r, id);
      QuiescentOnHost(m, h);
      assert Inv(HostState(m, h));
      LastStageShape(HostState(m, h), id);
    }
  }

  // ----- Such a pass exists -----------------------------------------------------------------

  lemma {:induction false} Above(used: set<TaskId>) returns (bound: int)
    ensures forall id :: id in used ==> id < bound
    decreases used
  {
    if used == {} {
      bound := 0;
    } else {
      var id := Member(used);
      var below := Above(used - {id});
      bound := if id < below then below else id + 1;
      forall other | other in used
        ensures other < bound
      {
        assert other == id || other in used - {id};
      }
    }
  }

  lemma {:induction false} Numbered(hosts: set<Host>, first: int) returns (ids: map<TaskId, Host>)
    ensures forall id :: id in ids ==> first <= id && ids[id] in hosts
    ensures forall h :: h in hosts ==> exists id :: id in ids && ids[id] == h
    ensures forall id, other :: id in ids && other in ids && ids[id] == ids[other] ==> id == other
    decreases hosts
  {
    if hosts == {} {
      ids := map[];
    } else {
      var host := Member(hosts);
      var rest := Numbered(hosts - {host}, first + 1);
      ids := rest[first := host];
      forall h | h in hosts
        ensures exists id :: id in ids && ids[id] == h
      {
        if h == host {
          assert ids[first] == h;
        } else {
          assert h in hosts - {host};
          var id :| id in rest && rest[id] == h;
          assert ids[id] == h;
        }
      }
    }
  }

  /** From every state that satisfies the invariant a whole pass can run until the daemon is at rest. */
  lemma MeshPassExists(m: Mesh) returns (ids: map<TaskId, Host>, acts: seq<MeshAction>)
    requires MeshInv(m)
    ensures AllOnBenign(acts) && MeshRun(m, Pass(false, ids, ids, acts)).Some?
    ensures MeshQuiescent(MeshRun(m, Pass(false, ids, ids, acts)).value)
  {
    var bound := Above(m.tasks.Keys);
    ids := Numbered(m.registry.Keys, bound);
    assert EachHostOnce(ids, m.registry, m.tasks.Keys);
    acts := MeshDrainExists(MeshApply(m, ListAll(false, ids)));
    PassScans(m, false, ids, ids, acts);
  }

  // ----- Status requests --------------------------------------------------------------------

  /** The steps of a status request's pass that concern one of the listed hosts. */
  function LookAndAnswer(h: Host, id: TaskId, up: bool): seq<MeshAction> {
    [On(h, Act(id, Looks)), On(h, Act(id, Answered(up)))]
  }

  /** A reaction on one host: the others do not change. */
  lemma ReactionOnHost(m: Mesh, h: Host, id: TaskId, e: Event)
    requires MeshInv(m) && Enabled(HostState(m, h), Act(id, e))
    ensures MeshEnabled(m, On(h, Act(id, e))) && MeshInv(MeshApply(m, On(h, Act(id, e))))
    ensures forall k ::
      HostState(MeshApply(m, On(h, Act(id, e))), k) ==
        if k == h then Apply(HostState(m, h), Act(id, e)) else HostState(m, k)
  {
    assert id in HostTasks(m.tasks, h);
    forall k
      ensures HostState(MeshApply(m, On(h, Act(id, e))), k) ==
        if k == h then Apply(HostState(m, h), Act(id, e)) else HostState(m, k)
    {
      ProjectOn(m, h, Act(id, e), k);
    }
    ProjectStep(m, On(h, Act(id, e)));
  }

  lemma LookStep(s: State, id: TaskId)
    requires Inv(s) && s.peer.connected && id !in s.tasks
    ensures var listed := s.(tasks := s.tasks[id := Listed(true)]);
      && Enabled(listed, Act(id, Looks))
      && Apply(listed, Act(id, Looks)) == s.(tasks := s.tasks[id := Checking(true)])
  {
    var listed := s.(tasks := s.tasks[id := Listed(true)]);
    assert Apply(listed, Act(id, Looks)).tasks == s.tasks[id := Checking(true)];
  }

  lemma AnswerStep(s: State, id: TaskId, up: bool)
    requires Inv(s) && s.peer.connected && id !in s.tasks
    ensures IsOpen(s.tasks, s.peer.closeTx.value)
    ensures var checking := s.(tasks := s.tasks[id := Checking(true)]);
      && Enabled(checking, Act(id, Answered(up)))
      && Apply(checking, Act(id, Answered(up))) == if up then s else LossNoticed(s)
  {
    var checking := s.(tasks := s.tasks[id := Checking(true)]);
    assert IsOpen(s.tasks, s.peer.closeTx.value);
    assert (checking.tasks - {id}) + map[] == s.tasks;
  }

  /**
   The pass of a status request notices on every connected host, whatever is in
   flight there and on other hosts, that the remote daemon is gone. These steps
   leave every other host as the listing left it.
   */
  lemma MeshStatusNoticesLoss(m: Mesh, idle: map<TaskId, Host>, ids: map<TaskId, Host>, id: TaskId, up: bool)
    requires MeshInv(m) && MeshEnabled(m, IdleScanAll(idle)) && MeshEnabled(m, ListAll(true, ids))
    requires id in ids && At(m.registry, ids[id]).connected
    ensures var h := ids[id]; var s := HostState(m, h);
      var r := MeshRun(m, Pass(true, idle, ids, LookAndAnswer(h, id, up)));
      && r.Some? && s.peer.closeTx.Some? && IsOpen(s.tasks, s.peer.closeTx.value)
      && HostState(r.value, h) == (if up then s else LossNoticed(s))
      && forall k :: k != h ==> HostState(r.value, k) == HostState(MeshApply(m, ListAll(true, ids)), k)
  {
    var h := ids[id];
    var s := HostState(m, h);
    assert Inv(s);
    PassScans(m, true, idle, ids, LookAndAnswer(h, id, up));
    ListedOnHost(m, true, ids, id);
    ListedInvariant(m, true, ids);
    LookStep(s, id);
    AnswerStep(s, id, up);
    LookAndAnswerOnHost(MeshApply(m, ListAll(true, ids)), h, id, up);
  }

  lemma {:induction false} MeshRunTwo(m: Mesh, a: MeshAction, b: MeshAction)
    requires MeshEnabled(m, a) && MeshEnabled(MeshApply(m, a), b)
    ensures MeshRun(m, [a, b]) == Some(MeshApply(MeshApply(m, a), b))
  {
    var n := MeshApply(m, a);
    assert [a, b][1..] == [b] && [b][1..] == [];
    assert MeshRun(n, [b]) == MeshRun(MeshApply(n, b), []);
  }

  lemma {:induction false} LookAndAnswerOnHost(m: Mesh, h: Host, id: TaskId, up: bool)
    requires MeshInv(m) && Enabled(HostState(m, h), Act(id, Looks))
    requires Enabled(Apply(HostState(m, h), Act(id, Looks)), Act(id, Answered(up)))
    ensures var r := MeshRun(m, LookAndAnswer(h, id, up));
      && r.Some?
      && HostState(r.value, h) == Apply(Apply(HostState(m, h), Act(id, Looks)), Act(id, Answered(up)))
      && forall k :: k != h ==> HostState(r.value, k) == HostState(m, k)
  {
    ReactionOnHost(m, h, id, Looks);
    var looked := MeshApply(m, On(h, Act(id, Looks)));
    ReactionOnHost(looked, h, id, Answered(up));
    MeshRunTwo(m, On(h, Act(id, Looks)), On(h, Act(id, Answered(up))));
  }
}
