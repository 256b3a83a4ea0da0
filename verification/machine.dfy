/**
 One host as a state machine: its registry record and every background task
 that concerns it. One action is one lock-held region, or one step that a task
 takes without the lock. Outcomes of probes, dials and sends are part of the
 action, so every outcome and every interleaving is a run.
 */
module HostMachine {
  import opened Wrappers
  import opened Peers

  /**
   A background task. A task keeps its id while one piece of work turns into the
   next: a handler about to decide becomes a probe, then a dial, then a sender.
   */
  datatype Task =
    | Watcher(pid: Pid)                      // waits for a process to end
    | Deciding                               // a Connect handler between its two regions
    | Probing                                // an attempt that probes first
    | Dialling                               // an attempt that is connecting
    | Swept                                  // a host found idle and connected, to be cleared
    | Listed(check: bool)                    // a host a liveness pass has yet to look at
    | Checking(snapshot: bool)               // a liveness probe and the flag it saw
    | Sender(open: bool, running: bool)      // open: its close sender has not been dropped
    | Receiver                               // serves one inbound connection

  datatype Event =
    | Fires
    | Decides
    | Probed(reachable: bool)
    | Dialled(ok: bool)
    | Sweeps
    | Looks
    | Answered(up: bool)
    | Lost
    | Closes
    | RemoteEnds
    | CleansUp
    | InboundEnds

  datatype Action =
    | Act(id: TaskId, event: Event)
    | Notify(pid: Pid, watcher: TaskId, decider: TaskId)
    | Disconnect(gone: Pid)
    | Discover(pids: seq<Pid>, watchers: seq<TaskId>, attempt: TaskId)
    | IdleScan(sweep: TaskId)
    | ListHost(check: bool, look: TaskId)
    | Accept(receiver: TaskId)

  datatype State = State(peer: Peer, tasks: map<TaskId, Task>)

  const INIT := State(NEW_PEER, map[])

  /** What an action writes: the record, and the entries of the task table. */
  datatype Delta = Delta(peer: Peer, put: map<TaskId, Task>, drop: set<TaskId>)

  predicate Can(t: Task, e: Event) {
    match e
    case Fires => t.Watcher?
    case Decides => t.Deciding?
    case Probed(_) => t.Probing?
    case Dialled(_) => t.Dialling?
    case Sweeps => t.Swept?
    case Looks => t.Listed?
    case Answered(_) => t.Checking?
    case Lost => t.Checking?
    case Closes => t.Sender? && t.running && !t.open
    case RemoteEnds => t.Sender? && t.running
    case CleansUp => t.Sender? && !t.running
    case InboundEnds => t.Receiver?
  }

  /** The record after task `id` reacts to an event, and what the task turns into. */
  function React(p: Peer, id: TaskId, t: Task, e: Event): (Peer, Option<Task>)
    requires Can(t, e)
  {
    match e
    case Fires => (PidExited(p, t.pid), None)
    case Decides => (Claimed(p), if MayClaim(p) then Some(Probing) else None)
    case Probed(reachable) => if reachable then (p, Some(Dialling)) else (ProbeMissed(p), None)
    case Dialled(ok) =>
      if !ok then (DialFailed(p), None)
      else (Registered(p, id), if p.sessionCount == 0 then None else Some(Sender(true, true)))
    case Sweeps => (Cleared(p), None)
    case Looks =>
      (p, if p.connecting || (p.connected && !t.check) then None else Some(Checking(p.connected)))
    case Answered(up) =>
      if !up then (LivenessLost(p, t.snapshot), None)
      else if t.snapshot then (p, None)
      else (Reconnecting(p), if MayReconnect(p) then Some(Dialling) else None)
    case Lost => (p, None)
    case Closes => (p, Some(t.(running := false)))
    case RemoteEnds => (p, Some(t.(running := false)))
    case CleansUp => (Cleared(p), None)
    case InboundEnds => (InboundEnded(p), None)
  }

  /** The watchers a startup scan spawns, one for each pid it counts. */
  function DiscoveredWatchers(p: Peer, pids: seq<Pid>, ids: seq<TaskId>): map<TaskId, Task>
    requires |pids| == |ids|
    decreases pids
  {
    if pids == [] then map[]
    else
      var rest := DiscoveredWatchers(Tracked(p, pids[0]), pids[1..], ids[1..]);
      if pids[0] in p.watched then rest else rest[ids[0] := Watcher(pids[0])]
  }

  /** The ids an action gives to the tasks it may spawn. */
  function NewIds(a: Action): seq<TaskId> {
    match a
    case Act(_, _) => []
    case Notify(_, watcher, decider) => [watcher, decider]
    case Disconnect(_) => []
    case Discover(_, watchers, attempt) => watchers + [attempt]
    case IdleScan(sweep) => [sweep]
    case ListHost(_, look) => [look]
    case Accept(receiver) => [receiver]
  }

  ghost predicate Fresh(ids: seq<TaskId>, used: set<TaskId>) {
    && (forall id :: id in ids ==> id !in used)
    && (forall i, j :: 0 <= i < j < |ids| ==> ids[i] != ids[j])
  }

  ghost predicate Enabled(s: State, a: Action) {
    && Fresh(NewIds(a), s.tasks.Keys)
    && (a.Act? ==> a.id in s.tasks && Can(s.tasks[a.id], a.event))
    && (a.Discover? ==> |a.pids| == |a.watchers|)
  }

  /** What an action writes, given the record and the task that acts, if one does. */
  function Change(p: Peer, acting: Option<Task>, a: Action): Delta
    requires a.Act? ==> acting.Some? && Can(acting.value, a.event)
    requires a.Discover? ==> |a.pids| == |a.watchers|
  {
    match a
    case Act(id, e) =>
      var (q, next) := React(p, id, acting.value, e);
      if next.Some? then Delta(q, map[id := next.value], {}) else Delta(q, map[], {id})
    case Notify(pid, watcher, decider) =>
      if pid in p.watched then Delta(p, map[], {})
      else if p.connected then Delta(Tracked(p, pid), map[watcher := Watcher(pid)], {})
      else Delta(Tracked(p, pid), map[watcher := Watcher(pid), decider := Deciding], {})
    case Disconnect(pid) => Delta(PidExited(p, pid), map[], {})
    case Discover(pids, watchers, attempt) =>
      var put := DiscoveredWatchers(p, pids, watchers);
      Delta(Claimed(TrackedAll(p, pids)), if MayClaim(p) then put[attempt := Probing] else put, {})
    case IdleScan(sweep) =>
      Delta(p, if p.connected && p.sessionCount == 0 then map[sweep := Swept] else map[], {})
    case ListHost(check, look) =>
      Delta(p, if p.sessionCount > 0 then map[look := Listed(check)] else map[], {})
    case Accept(receiver) => Delta(Accepted(p), map[receiver := Receiver], {})
  }

  /**
   Ownership of the close sender: whatever the slot held before and does not
   hold now has been dropped, which tells the task with that id to close.
   */
  function Told(tasks: map<TaskId, Task>, before: Option<TaskId>, after: Option<TaskId>): map<TaskId, Task> {
    if before.Some? && after != before && before.value in tasks && tasks[before.value].Sender?
    then tasks[before.value := tasks[before.value].(open := false)]
    else tasks
  }

  function Acting(s: State, a: Action): Option<Task> {
    if a.Act? && a.id in s.tasks then Some(s.tasks[a.id]) else None
  }

  ghost function Written(s: State, a: Action): Delta
    requires Enabled(s, a)
  {
    Change(s.peer, Acting(s, a), a)
  }

  ghost function Apply(s: State, a: Action): State
    requires Enabled(s, a)
  {
    var d := Written(s, a);
    State(d.peer, Told((s.tasks - d.drop) + d.put, s.peer.closeTx, d.peer.closeTx))
  }

  /** The close sender of task `id` is dropped by the step. */
  predicate TellsTask(before: Peer, after: Peer, id: TaskId) {
    before.closeTx == Some(id) && after.closeTx != Some(id)
  }

  function Hear(t: Task, told: bool): Task {
    if told && t.Sender? then t.(open := false) else t
  }

  /** The task table after a step, entry by entry. */
  lemma EntryAfter(s: State, a: Action, id: TaskId)
    requires Enabled(s, a)
    ensures var d := Written(s, a); var t := Apply(s, a).tasks;
      && (id in t <==> id in d.put || (id in s.tasks && id !in d.drop))
      && (id in t ==> t[id] == Hear(if id in d.put then d.put[id] else s.tasks[id], TellsTask(s.peer, d.peer, id)))
  {
  }

  /** The state after a reaction, written out. */
  lemma Reaction(s: State, id: TaskId, e: Event)
    requires id in s.tasks && Can(s.tasks[id], e)
    ensures Enabled(s, Act(id, e))
    ensures var (q, next) := React(s.peer, id, s.tasks[id], e);
      Apply(s, Act(id, e))
      == State(q, Told(if next.Some? then s.tasks[id := next.value] else s.tasks - {id}, s.peer.closeTx, q.closeTx))
  {
    var d := Written(s, Act(id, e));
    var next := React(s.peer, id, s.tasks[id], e).1;
    assert (s.tasks - d.drop) + d.put == if next.Some? then s.tasks[id := next.value] else s.tasks - {id};
  }

  /** The state after a whole schedule, or None where some action was not enabled. */
  ghost function Run(s: State, acts: seq<Action>): Option<State>
    decreases acts
  {
    if acts == [] then Some(s)
    else if Enabled(s, acts[0]) then Run(Apply(s, acts[0]), acts[1..])
    else None
  }

  lemma {:induction false} RunConcat(s: State, first: seq<Action>, second: seq<Action>)
    ensures Run(s, first + second)
         == match Run(s, first) case Some(t) => Run(t, second) case None => None
    decreases first
  {
    if first == [] {
      assert first + second == second;
    } else {
      assert (first + second)[1..] == first[1..] + second;
      if Enabled(s, first[0]) {
        RunConcat(Apply(s, first[0]), first[1..], second);
      }
    }
  }

  lemma RunTwo(s: State, a: Action, b: Action, rest: seq<Action>)
    requires Enabled(s, a) && Enabled(Apply(s, a), b)
    ensures Run(s, [a, b] + rest) == Run(Apply(Apply(s, a), b), rest)
  {
    assert ([a, b] + rest)[1..] == [b] + rest;
    assert ([b] + rest)[1..] == rest;
  }
}
