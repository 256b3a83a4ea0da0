/**
 The whole daemon: one registry for all hosts, one task table, and passes that
 read every host at once. Its runs are shown to be, host by host, runs of
 HostMachine, so what holds in every run of one host holds of each host in the
 mesh. Which schedules of the mesh exist is the matter of module MeshDrain.
 */
module Mesh {
  import opened Wrappers
  import opened Peers
  import opened HostMachine
  import opened HostInvariants
  import opened HostSafety
  import opened HostLifecycle

  type Table = map<TaskId, (Host, Task)>

  datatype Mesh = Mesh(registry: Registry, tasks: Table)

  const INIT_MESH := Mesh(map[], map[])

  /** Either something that concerns one host, or a pass reading the registry as a whole. */
  datatype MeshAction =
    | On(host: Host, action: Action)
    | IdleScanAll(ids: map<TaskId, Host>)
    | ListAll(check: bool, ids: map<TaskId, Host>)

  /** Regions that go through `get_or_create`; all others use `get_mut`. */
  predicate Creates(a: Action) {
    a.Notify? || a.Discover? || a.Accept? || (a.Act? && a.event.Decides?)
  }

  ghost predicate EachHostOnce(ids: map<TaskId, Host>, registry: Registry, used: set<TaskId>) {
    && (forall id :: id in ids ==> id !in used && ids[id] in registry)
    && (forall h :: h in registry ==> exists id :: id in ids && ids[id] == h)
    && (forall id, other :: id in ids && other in ids && ids[id] == ids[other] ==> id == other)
  }

  ghost predicate MeshEnabled(m: Mesh, a: MeshAction) {
    match a
    case On(h, act) =>
      && !act.IdleScan? && !act.ListHost?
      && Fresh(NewIds(act), m.tasks.Keys)
      && (act.Act? ==> act.id in m.tasks && m.tasks[act.id].0 == h && Can(m.tasks[act.id].1, act.event))
      && (act.Discover? ==> |act.pids| == |act.watchers|)
    case IdleScanAll(ids) => EachHostOnce(ids, m.registry, m.tasks.Keys)
    case ListAll(_, ids) => EachHostOnce(ids, m.registry, m.tasks.Keys)
  }

  function Tagged(h: Host, put: map<TaskId, Task>): Table {
    map id | id in put :: (h, put[id])
  }

  function ToldIn(tasks: Table, before: Option<TaskId>, after: Option<TaskId>): Table {
    if before.Some? && after != before && before.value in tasks && tasks[before.value].1.Sender?
    then tasks[before.value := (tasks[before.value].0, tasks[before.value].1.(open := false))]
    else tasks
  }

  /** What becomes of a task whose region finds no record: only steps without the lock go on. */
  function Orphaned(t: Task, e: Event): Option<Task>
    requires Can(t, e)
  {
    match e
    case Probed(reachable) => if reachable then Some(Dialling) else None
    case Closes => Some(t.(running := false))
    case RemoteEnds => Some(t.(running := false))
    case _ => None
  }

  function ActingIn(tasks: Table, a: Action): Option<Task> {
    if a.Act? && a.id in tasks then Some(tasks[a.id].1) else None
  }

  /** What a pass over all hosts spawns. */
  function Scanned(m: Mesh, a: MeshAction): Table
    requires !a.On? && MeshEnabled(m, a)
  {
    if a.IdleScanAll? then
      map id | id in a.ids && m.registry[a.ids[id]].connected && m.registry[a.ids[id]].sessionCount == 0 ::
        (a.ids[id], Swept)
    else
      map id | id in a.ids && m.registry[a.ids[id]].sessionCount > 0 :: (a.ids[id], Listed(a.check))
  }

  function MeshApply(m: Mesh, a: MeshAction): Mesh
    requires MeshEnabled(m, a)
  {
    match a
    case On(h, act) =>
      if h in m.registry || Creates(act) then
        var before := At(m.registry, h);
        var d := Change(before, ActingIn(m.tasks, act), act);
        Mesh(m.registry[h := d.peer], ToldIn((m.tasks - d.drop) + Tagged(h, d.put), before.closeTx, d.peer.closeTx))
      else if act.Act? then
        var next := Orphaned(m.tasks[act.id].1, act.event);
        m.(tasks := if next.Some? then m.tasks[act.id := (h, next.value)] else m.tasks - {act.id})
      else m
    case _ => m.(tasks := m.tasks + Scanned(m, a))
  }

  ghost function MeshRun(m: Mesh, acts: seq<MeshAction>): Option<Mesh>
    decreases acts
  {
    if acts == [] then Some(m)
    else if MeshEnabled(m, acts[0]) then MeshRun(MeshApply(m, acts[0]), acts[1..])
    else None
  }

  // ----- Projection to one host --------------------------------------------------

  ghost function HostTasks(tasks: Table, h: Host): map<TaskId, Task> {
    map id | id in tasks && tasks[id].0 == h :: tasks[id].1
  }

  ghost function HostState(m: Mesh, h: Host): State {
    State(At(m.registry, h), HostTasks(m.tasks, h))
  }

  ghost function Project(a: MeshAction, h: Host): seq<Action> {
    match a
    case On(k, act) => if k == h then [act] else []
    case IdleScanAll(ids) =>
      if exists id :: id in ids && ids[id] == h then
        var id :| id in ids && ids[id] == h; [IdleScan(id)]
      else []
    case ListAll(check, ids) =>
      if exists id :: id in ids && ids[id] == h then
        var id :| id in ids && ids[id] == h; [ListHost(check, id)]
      else []
  }

  ghost function ProjectRun(acts: seq<MeshAction>, h: Host): seq<Action> {
    if acts == [] then [] else Project(acts[0], h) + ProjectRun(acts[1..], h)
  }

  /** Every task's host has a record, and every host on its own satisfies the invariant. */
  ghost predicate MeshInv(m: Mesh) {
    && (forall id :: id in m.tasks ==> m.tasks[id].0 in m.registry)
    && (forall h :: Inv(HostState(m, h)))
  }

  lemma RunOne(s: State, a: Action)
    requires Enabled(s, a)
    ensures Run(s, [a]) == Some(Apply(s, a))
  {
    assert [a][1..] == [];
  }

  lemma EnabledOnHost(m: Mesh, h: Host, act: Action)
    requires MeshEnabled(m, On(h, act))
    ensures Enabled(HostState(m, h), act)
    ensures Acting(HostState(m, h), act) == ActingIn(m.tasks, act)
  {
  }

  /** And what one host can do it can do among the others, given ids that none of them uses. */
  lemma EnabledAmongOthers(m: Mesh, h: Host, act: Action)
    requires Enabled(HostState(m, h), act) && !act.IdleScan? && !act.ListHost?
    requires forall id :: id in NewIds(act) ==> id !in m.tasks
    ensures MeshEnabled(m, On(h, act))
  {
  }

  lemma PutOwnsIds(m: Mesh, h: Host, act: Action)
    requires MeshInv(m) && MeshEnabled(m, On(h, act))
    ensures var d := Written(HostState(m, h), act);
      && (forall id :: id in d.put ==> id in m.tasks ==> m.tasks[id].0 == h)
      && (forall id :: id in d.drop ==> id in m.tasks && m.tasks[id].0 == h)
  {
    EnabledOnHost(m, h, act);
    var s := HostState(m, h);
    assert Inv(s);
    if !act.Act? {
      SpawnFacts(s, act);
      if act.Discover? {
        DiscoveredFacts(s.peer, act.pids, act.watchers);
      }
      forall id | id in Written(s, act).put
        ensures id !in m.tasks
      {
        assert id in NewIds(act);
      }
    }
  }

  /** Writing entries of host `k`, seen in the task table of any host. */
  lemma WritesOnHost(tasks: Table, k: Host, h: Host, put: map<TaskId, Task>, drop: set<TaskId>)
    requires forall id :: id in put && id in tasks ==> tasks[id].0 == k
    requires forall id :: id in drop ==> id in tasks && tasks[id].0 == k
    ensures HostTasks((tasks - drop) + Tagged(k, put), h)
         == if h == k then (HostTasks(tasks, k) - drop) + put else HostTasks(tasks, h)
  {
    if h == k {
      assert HostTasks((tasks - drop) + Tagged(k, put), h) == (HostTasks(tasks, k) - drop) + put;
    } else {
      var after := (tasks - drop) + Tagged(k, put);
      forall id
        ensures id in HostTasks(after, h) <==> id in HostTasks(tasks, h)
        ensures id in HostTasks(after, h) ==> HostTasks(after, h)[id] == HostTasks(tasks, h)[id]
      {
        if id in put {
          assert after[id].0 == k;
        } else if id in drop {
          assert tasks[id].0 == k;
        }
      }
    }
  }

  lemma ToldOnHost(tasks: Table, k: Host, h: Host, before: Option<TaskId>, after: Option<TaskId>)
    requires before.Some? && before.value in tasks ==> tasks[before.value].0 == k
    ensures HostTasks(ToldIn(tasks, before, after), h)
         == if h == k then Told(HostTasks(tasks, k), before, after) else HostTasks(tasks, h)
  {
    if h == k {
      assert HostTasks(ToldIn(tasks, before, after), h) == Told(HostTasks(tasks, k), before, after);
    } else {
      assert HostTasks(ToldIn(tasks, before, after), h) == HostTasks(tasks, h);
    }
  }

  lemma ProjectOn(m: Mesh, k: Host, act: Action, h: Host)
    requires MeshInv(m) && MeshEnabled(m, On(k, act)) && (k in m.registry || Creates(act))
    ensures HostState(MeshApply(m, On(k, act)), h)
         == if h == k then (EnabledOnHost(m, k, act); Apply(HostState(m, k), act)) else HostState(m, h)
  {
    EnabledOnHost(m, k, act);
    PutOwnsIds(m, k, act);
    var s := HostState(m, k);
    assert Inv(s);
    var d := Written(s, act);
    if s.peer.closeTx.Some? {
      assert IsOpen(s.tasks, s.peer.closeTx.value);
    }
    WritesOnHost(m.tasks, k, h, d.put, d.drop);
    if h != k {
      WritesOnHost(m.tasks, k, k, d.put, d.drop);
    }
    ToldOnHost((m.tasks - d.drop) + Tagged(k, d.put), k, h, s.peer.closeTx, d.peer.closeTx);
  }

  lemma SpawnOnHost(tasks: Table, more: Table, h: Host)
    requires forall id :: id in more ==> id !in tasks
    ensures HostTasks(tasks + more, h) == HostTasks(tasks, h) + HostTasks(more, h)
  {
    var all, parts := HostTasks(tasks + more, h), HostTasks(tasks, h) + HostTasks(more, h);
    forall id
      ensures id in all <==> id in parts
      ensures id in all ==> all[id] == parts[id]
    {
      assert id in more ==> id !in tasks;
    }
  }

  /** The entries a pass spawns for one host are those of the host's own scan. */
  lemma ScanOnHost(m: Mesh, a: MeshAction, h: Host, id: TaskId)
    requires !a.On? && MeshEnabled(m, a) && id in a.ids && a.ids[id] == h
    ensures HostTasks(Scanned(m, a), h)
         == Change(At(m.registry, h), None, if a.IdleScanAll? then IdleScan(id) else ListHost(a.check, id)).put
  {
    var more := HostTasks(Scanned(m, a), h);
    forall k
      ensures k in more ==> k == id
    {
      assert k in a.ids && a.ids[k] == h ==> k == id;
    }
  }

  /** A scan of one host leaves the record alone and adds what it spawns. */
  lemma ScanStep(s: State, act: Action)
    requires (act.IdleScan? || act.ListHost?) && Enabled(s, act)
    ensures Run(s, [act]) == Some(State(s.peer, s.tasks + Change(s.peer, None, act).put))
  {
    RunOne(s, act);
    assert s.tasks - {} == s.tasks;
  }

  lemma ProjectScanKnown(m: Mesh, a: MeshAction, h: Host)
    requires MeshEnabled(m, a) && !a.On? && h in m.registry
    ensures Run(HostState(m, h), Project(a, h)) == Some(HostState(MeshApply(m, a), h))
  {
    SpawnOnHost(m.tasks, Scanned(m, a), h);
    var some :| some in a.ids && a.ids[some] == h;
    var act := Project(a, h)[0];
    var id := if a.IdleScanAll? then act.sweep else act.look;
    assert id in a.ids && a.ids[id] == h && id !in m.tasks;
    ScanOnHost(m, a, h, id);
    ScanStep(HostState(m, h), act);
  }

  lemma ProjectScanUnknown(m: Mesh, a: MeshAction, h: Host)
    requires MeshEnabled(m, a) && !a.On? && h !in m.registry
    ensures Run(HostState(m, h), Project(a, h)) == Some(HostState(MeshApply(m, a), h))
  {
    SpawnOnHost(m.tasks, Scanned(m, a), h);
    assert forall id :: id !in HostTasks(Scanned(m, a), h);
    assert HostTasks(m.tasks, h) + HostTasks(Scanned(m, a), h) == HostTasks(m.tasks, h);
  }

  /**
   One step of the daemon is, on every host, one step of that host's machine or
   no step at all. No key of the registry is removed, and no task loses its record.
   */
  lemma ProjectStep(m: Mesh, a: MeshAction)
    requires MeshInv(m) && MeshEnabled(m, a)
    ensures forall h :: Run(HostState(m, h), Project(a, h)) == Some(HostState(MeshApply(m, a), h))
    ensures MeshInv(MeshApply(m, a))
    ensures m.registry.Keys <= MeshApply(m, a).registry.Keys
  {
    forall h
      ensures Run(HostState(m, h), Project(a, h)) == Some(HostState(MeshApply(m, a), h))
    {
      if a.On? {
        EnabledOnHost(m, a.host, a.action);
        if a.host in m.registry || Creates(a.action) {
          ProjectOn(m, a.host, a.action, h);
        } else {
          DisconnectUnknown(m, a.host, a.action);
        }
        RunOne(HostState(m, a.host), a.action);
      } else if h in m.registry {
        ProjectScanKnown(m, a, h);
      } else {
        ProjectScanUnknown(m, a, h);
      }
    }
    forall h
      ensures Inv(HostState(MeshApply(m, a), h))
    {
      assert Inv(HostState(m, h));
      InvAlways(HostState(m, h), Project(a, h));
    }
    TasksKeepHosts(m, a);
  }

  /** Without a record the only action left is a Disconnect, which changes nothing. */
  lemma DisconnectUnknown(m: Mesh, h: Host, act: Action)
    requires MeshInv(m) && MeshEnabled(m, On(h, act)) && h !in m.registry && !Creates(act)
    ensures act.Disconnect? && MeshApply(m, On(h, act)) == m
    ensures Enabled(HostState(m, h), act) && Apply(HostState(m, h), act) == HostState(m, h)
  {
    EnabledOnHost(m, h, act);
    var s := HostState(m, h);
    assert act.Disconnect?;
    assert (s.tasks - {}) + map[] == s.tasks;
  }

  lemma TasksKeepHosts(m: Mesh, a: MeshAction)
    requires MeshInv(m) && MeshEnabled(m, a)
    ensures forall id :: id in MeshApply(m, a).tasks ==> MeshApply(m, a).tasks[id].0 in MeshApply(m, a).registry
    ensures m.registry.Keys <= MeshApply(m, a).registry.Keys
  {
  }

  lemma {:induction false} ProjectRuns(m: Mesh, acts: seq<MeshAction>, h: Host)
    requires MeshInv(m) && MeshRun(m, acts).Some?
    ensures Run(HostState(m, h), ProjectRun(acts, h)) == Some(HostState(MeshRun(m, acts).value, h))
    ensures MeshInv(MeshRun(m, acts).value)
    ensures m.registry.Keys <= MeshRun(m, acts).value.registry.Keys
    decreases acts
  {
    if acts != [] {
      ProjectStep(m, acts[0]);
      ProjectRuns(MeshApply(m, acts[0]), acts[1..], h);
      RunConcat(HostState(m, h), Project(acts[0], h), ProjectRun(acts[1..], h));
    }
  }

  lemma InitMeshInv()
    ensures MeshInv(INIT_MESH)
  {
    forall h
      ensures Inv(HostState(INIT_MESH, h))
    {
      assert Receivers(HostState(INIT_MESH, h).tasks) == {};
    }
  }

  /** Every run of the daemon, projected to any one host, is a run of that host's machine from its start. */
  lemma HostProjection(acts: seq<MeshAction>, h: Host)
    requires MeshRun(INIT_MESH, acts).Some?
    ensures Run(INIT, ProjectRun(acts, h)) == Some(HostState(MeshRun(INIT_MESH, acts).value, h))
  {
    InitMeshInv();
    ProjectRuns(INIT_MESH, acts, h);
    assert HostState(INIT_MESH, h) == INIT;
  }

  /** Every region that looks its host up finds the record: no path drops an entry a task still needs. */
  lemma EveryTaskFindsItsRecord(acts: seq<MeshAction>, id: TaskId)
    requires MeshRun(INIT_MESH, acts).Some? && id in MeshRun(INIT_MESH, acts).value.tasks
    ensures var m := MeshRun(INIT_MESH, acts).value; m.tasks[id].0 in m.registry
  {
    InitMeshInv();
    ProjectRuns(INIT_MESH, acts, "");
  }

  /**
   A task whose host had no record would change no record: it would go on only by the
   steps it takes without the lock, a probe that succeeds and the end of its loop.
   */
  lemma WithoutRecord(m: Mesh, h: Host, id: TaskId, e: Event)
    requires h !in m.registry && MeshEnabled(m, On(h, Act(id, e))) && !e.Decides?
    ensures var n := MeshApply(m, On(h, Act(id, e)));
      && n.registry == m.registry
      && (id in n.tasks <==> e == Probed(true) || e.Closes? || e.RemoteEnds?)
      && (e == Probed(true) ==> n.tasks == m.tasks[id := (h, Dialling)])
      && (e.Closes? || e.RemoteEnds? ==> n.tasks == m.tasks[id := (h, Sender(m.tasks[id].1.open, false))])
      && n.tasks - {id} == m.tasks - {id}
  {
  }

  /** A task that makes `h` connected in the eyes of a status request. */
  ghost predicate Serves(m: Mesh, id: TaskId, h: Host) {
    && id in m.tasks && m.tasks[id].0 == h
    && (m.tasks[id].1.Receiver? || (m.tasks[id].1.Sender? && m.tasks[id].1.open))
  }

  ghost function Inbound(m: Mesh, h: Host): set<TaskId> {
    set id | id in m.tasks && m.tasks[id] == (h, Receiver)
  }

  lemma ServesOnHost(m: Mesh, h: Host)
    ensures forall id :: Serves(m, id, h) <==>
      id in HostState(m, h).tasks && (IsOpen(HostState(m, h).tasks, id) || HostState(m, h).tasks[id].Receiver?)
    ensures forall id :: id in m.tasks && m.tasks[id] == (h, Receiver) <==>
      id in HostState(m, h).tasks && HostState(m, h).tasks[id].Receiver?
  {
  }

  lemma BackedOnHost(m: Mesh, s: State, h: Host)
    requires s == HostState(m, h)
    ensures (exists id :: id in s.tasks && (IsOpen(s.tasks, id) || s.tasks[id].Receiver?)) <==>
      exists id :: Serves(m, id, h)
    ensures (exists id :: id in s.tasks && s.tasks[id].Receiver?) <==>
      exists id :: id in m.tasks && m.tasks[id] == (h, Receiver)
    ensures Receivers(s.tasks) == Inbound(m, h)
  {
    ServesOnHost(m, h);
    InboundOnHost(m, s, h);
  }

  lemma InboundOnHost(m: Mesh, s: State, h: Host)
    requires s == HostState(m, h)
    ensures Receivers(s.tasks) == Inbound(m, h)
  {
  }

  /**
   The status reply of the daemon: a host is in it iff it has a counted session or
   a live inbound task. It is called connected iff a sender that was not told to
   close, or an inbound task, is live for it; its sessions are the counted ones and
   the live inbound tasks; and "no daemon" is said iff a probe of it failed with no
   sign of life since and no inbound task is live.
   */
  lemma ListingIsTruthful(acts: seq<MeshAction>, h: Host)
    requires MeshRun(INIT_MESH, acts).Some?
    ensures var m := MeshRun(INIT_MESH, acts).value;
      && (h in Listing(m.registry) <==>
            At(m.registry, h).sessionCount > 0 || exists id :: id in m.tasks && m.tasks[id] == (h, Receiver))
      && (h in Listing(m.registry) ==>
            && (Listing(m.registry)[h].connected <==> exists id :: Serves(m, id, h))
            && Listing(m.registry)[h].sessions == At(m.registry, h).sessionCount + |Inbound(m, h)|
            && (Listing(m.registry)[h].noDaemon <==> Silent(ProjectRun(acts, h)) && Inbound(m, h) == {}))
  {
    HostProjection(acts, h);
    ListingBacked(MeshRun(INIT_MESH, acts).value, ProjectRun(acts, h), h);
  }

  lemma {:induction false} ListingBacked(m: Mesh, run: seq<Action>, h: Host)
    requires Run(INIT, run) == Some(HostState(m, h))
    ensures h in Listing(m.registry) <==>
      At(m.registry, h).sessionCount > 0 || exists id :: id in m.tasks && m.tasks[id] == (h, Receiver)
    ensures h in Listing(m.registry) ==>
      && (Listing(m.registry)[h].connected <==> exists id :: Serves(m, id, h))
      && Listing(m.registry)[h].sessions == At(m.registry, h).sessionCount + |Inbound(m, h)|
      && (Listing(m.registry)[h].noDaemon <==> Silent(run) && Inbound(m, h) == {})
  {
    InfoBacked(m, HostState(m, h), h);
    NoDaemonBacked(m, HostState(m, h), run, h);
  }

  lemma {:induction false} InfoBacked(m: Mesh, s: State, h: Host)
    requires s == HostState(m, h) && Reachable(s)
    ensures Total(s.peer) > 0 <==> s.peer.sessionCount > 0 || exists id :: id in m.tasks && m.tasks[id] == (h, Receiver)
    ensures Info(s.peer).connected <==> exists id :: Serves(m, id, h)
    ensures Info(s.peer).sessions == s.peer.sessionCount + |Inbound(m, h)|
  {
    StatusBacked(s);
    BackedOnHost(m, s, h);
  }

  lemma {:induction false} NoDaemonBacked(m: Mesh, s: State, run: seq<Action>, h: Host)
    requires s == HostState(m, h) && Run(INIT, run) == Some(s)
    ensures Info(s.peer).noDaemon <==> Silent(run) && Inbound(m, h) == {}
  {
    StatusNoDaemon(run, s);
    InboundOnHost(m, s, h);
  }

  lemma StatusBacked(s: State)
    requires Reachable(s)
    ensures Total(s.peer) > 0 <==> s.peer.sessionCount > 0 || exists id :: id in s.tasks && s.tasks[id].Receiver?
    ensures Info(s.peer).connected <==> exists id :: id in s.tasks && (IsOpen(s.tasks, id) || s.tasks[id].Receiver?)
    ensures Info(s.peer).sessions == s.peer.sessionCount + |Receivers(s.tasks)|
  {
    StatusIsTruthful(s);
  }

  /** No two senders for one host are both left running unasked, anywhere in the mesh. */
  lemma OneOpenConnectionPerHost(acts: seq<MeshAction>, id: TaskId, other: TaskId)
    requires MeshRun(INIT_MESH, acts).Some?
    requires var m := MeshRun(INIT_MESH, acts).value;
      && id in m.tasks && other in m.tasks && m.tasks[id].0 == m.tasks[other].0
      && m.tasks[id].1.Sender? && m.tasks[id].1.open && m.tasks[other].1.Sender? && m.tasks[other].1.open
    ensures id == other
  {
    var m := MeshRun(INIT_MESH, acts).value;
    var h := m.tasks[id].0;
    HostProjection(acts, h);
    SingleOpenConnection(HostState(m, h));
    assert IsOpen(HostState(m, h).tasks, id) && IsOpen(HostState(m, h).tasks, other);
  }

  lemma {:induction false} NoDisconnectProjected(acts: seq<MeshAction>, h: Host)
    requires forall a :: a in acts && a.On? ==> !a.action.Disconnect?
    ensures forall a :: a in ProjectRun(acts, h) ==> !a.Disconnect?
    decreases acts
  {
    if acts != [] {
      NoDisconnectProjected(acts[1..], h);
      assert acts[0] in acts;
      forall a | a in Project(acts[0], h)
        ensures !a.Disconnect?
      {
      }
    }
  }

  ghost function Watching(m: Mesh, h: Host): set<TaskId> {
    set id | id in m.tasks && m.tasks[id].0 == h && m.tasks[id].1.Watcher?
  }

  /** Where nobody sends Disconnect, every host's session count is the number of its live watchers. */
  lemma SessionsExactPerHost(acts: seq<MeshAction>, h: Host)
    requires MeshRun(INIT_MESH, acts).Some?
    requires forall a :: a in acts && a.On? ==> !a.action.Disconnect?
    ensures var m := MeshRun(INIT_MESH, acts).value;
      At(m.registry, h).sessionCount == |Watching(m, h)|
  {
    var m := MeshRun(INIT_MESH, acts).value;
    HostProjection(acts, h);
    NoDisconnectProjected(acts, h);
    SessionsExact(ProjectRun(acts, h), HostState(m, h));
    assert Watchers(HostState(m, h).tasks) == Watching(m, h);
  }

  /** So are the sessions of its reply, inbound tasks added. */
  lemma ListedSessionsExact(acts: seq<MeshAction>, h: Host)
    requires MeshRun(INIT_MESH, acts).Some?
    requires forall a :: a in acts && a.On? ==> !a.action.Disconnect?
    ensures var m := MeshRun(INIT_MESH, acts).value;
      h in Listing(m.registry) ==> Listing(m.registry)[h].sessions == |Watching(m, h)| + |Inbound(m, h)|
  {
    ListingIsTruthful(acts, h);
    SessionsExactPerHost(acts, h);
  }

  /** A task that is still there still belongs to its host. */
  lemma TaskKeepsHost(m: Mesh, a: MeshAction, id: TaskId)
    requires MeshInv(m) && MeshEnabled(m, a) && id in m.tasks && id in MeshApply(m, a).tasks
    ensures MeshApply(m, a).tasks[id].0 == m.tasks[id].0
  {
    if a.On? {
      PutOwnsIds(m, a.host, a.action);
      EnabledOnHost(m, a.host, a.action);
    }
  }

  lemma {:induction false} SenderOnHost(s: State, acts: seq<Action>, t: State, id: TaskId)
    requires Inv(s) && Run(s, acts) == Some(t) && |acts| <= 1 && id in s.tasks && s.tasks[id].Sender?
    ensures id in t.tasks <==> acts != [Act(id, CleansUp)]
    ensures id in t.tasks ==> t.tasks[id].Sender?
  {
    if acts != [] {
      assert acts == [acts[0]] && acts[1..] == [];
      assert Enabled(s, acts[0]) && t == Apply(s, acts[0]);
      SenderEndsByCleanup(s, acts[0], id);
    }
  }

  /** No sender of any host vanishes: told or not, it is there until its own cleanup has run. */
  lemma {:induction false} MeshSenderEndsByCleanup(m: Mesh, a: MeshAction, id: TaskId)
    requires MeshInv(m) && MeshEnabled(m, a) && id in m.tasks && m.tasks[id].1.Sender?
    ensures id in MeshApply(m, a).tasks <==> !(a.On? && a.action == Act(id, CleansUp))
    ensures id in MeshApply(m, a).tasks ==>
      MeshApply(m, a).tasks[id].0 == m.tasks[id].0 && MeshApply(m, a).tasks[id].1.Sender?
  {
    var h := m.tasks[id].0;
    ProjectStep(m, a);
    assert Inv(HostState(m, h)) && HostState(m, h).tasks[id].Sender?;
    SenderOnHost(HostState(m, h), Project(a, h), HostState(MeshApply(m, a), h), id);
    if id in MeshApply(m, a).tasks {
      TaskKeepsHost(m, a, id);
    }
  }
}
