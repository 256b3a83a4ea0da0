/**
 The life of one background task, and the journeys of one host from a message or
 an outcome to the state it leads to: how a task can end, what must have come
 before a dial, and what the record and the tasks are at the end of each journey.
 */
module HostLifecycle {
  import opened Wrappers
  import opened Peers
  import opened HostMachine
  import opened HostInvariants
  import opened HostSafety

  // ----- Tasks -----------------------------------------------------------------------

  /** A step of one task, or of none, can do nothing to another task but drop its close sender. */
  lemma OthersUntouched(s: State, a: Action, id: TaskId)
    requires Inv(s) && Enabled(s, a) && id in s.tasks && !(a.Act? && a.id == id)
    ensures id in Apply(s, a).tasks
    ensures Apply(s, a).tasks[id] ==
      if s.tasks[id].Sender? && s.peer.closeTx == Some(id) && Apply(s, a).peer.closeTx != Some(id)
      then Sender(false, s.tasks[id].running)
      else s.tasks[id]
  {
    if !a.Act? {
      SpawnFacts(s, a);
    }
    EntryAfter(s, a, id);
  }

  /** No sender vanishes: told or not, it is there until its own cleanup has run. */
  lemma SenderEndsByCleanup(s: State, a: Action, id: TaskId)
    requires Inv(s) && Enabled(s, a) && id in s.tasks && s.tasks[id].Sender?
    ensures a != Act(id, CleansUp) <==> id in Apply(s, a).tasks
    ensures id in Apply(s, a).tasks ==> Apply(s, a).tasks[id].Sender?
  {
    if !(a.Act? && a.id == id) {
      OthersUntouched(s, a, id);
    }
    EntryAfter(s, a, id);
  }

  /** Each way in which any task can end. */
  ghost predicate Ends(s: State, id: TaskId, e: Event)
    requires id in s.tasks
  {
    var p := s.peer;
    match s.tasks[id]
    case Watcher(_) => e == Fires
    case Receiver => e == InboundEnds
    case Swept => e == Sweeps
    case Sender(_, running) => e == CleansUp && !running
    case Deciding => e == Decides && (p.connecting || p.connected)
    case Probing => e == Probed(false)
    case Dialling => e == Dialled(false) || (e == Dialled(true) && p.sessionCount == 0)
    case Listed(check) => e == Looks && (p.connecting || (p.connected && !check))
    case Checking(snapshot) =>
      || e == Lost || e == Answered(false)
      || (e == Answered(true) && (snapshot || p.connected || p.connecting || p.sessionCount == 0))
  }

  /** What a task that goes on after its own step has become. */
  ghost predicate Becomes(s: State, id: TaskId, next: Task)
    requires id in s.tasks
  {
    match s.tasks[id]
    case Deciding => next == Probing
    case Probing => next == Dialling
    case Dialling => next == Sender(true, true)
    case Listed(_) => next == Checking(s.peer.connected)
    case Checking(_) => next == Dialling
    case Sender(open, _) => next == Sender(open, false)
    case _ => false
  }

  /** A task ends exactly in these ways, and otherwise its own step turns it into what comes next. */
  lemma HowTasksEnd(s: State, id: TaskId, e: Event)
    requires Inv(s) && Enabled(s, Act(id, e))
    ensures id !in Apply(s, Act(id, e)).tasks <==> Ends(s, id, e)
    ensures id in Apply(s, Act(id, e)).tasks ==> Becomes(s, id, Apply(s, Act(id, e)).tasks[id])
  {
    EntryAfter(s, Act(id, e), id);
    assert IsOpen(s.tasks, id) <==> s.peer.closeTx == Some(id);
  }

  /** Nothing holds an outcome back: whatever a task waits for can turn out either way. */
  lemma EveryOutcomePossible(s: State, id: TaskId)
    requires id in s.tasks
    ensures match s.tasks[id]
      case Watcher(_) => Enabled(s, Act(id, Fires))
      case Receiver => Enabled(s, Act(id, InboundEnds))
      case Swept => Enabled(s, Act(id, Sweeps))
      case Sender(open, running) =>
        && (Enabled(s, Act(id, RemoteEnds)) <==> running)
        && (Enabled(s, Act(id, Closes)) <==> running && !open)
        && (Enabled(s, Act(id, CleansUp)) <==> !running)
      case Deciding => Enabled(s, Act(id, Decides))
      case Probing => forall up :: Enabled(s, Act(id, Probed(up)))
      case Dialling => forall ok :: Enabled(s, Act(id, Dialled(ok)))
      case Listed(_) => Enabled(s, Act(id, Looks))
      case Checking(_) => Enabled(s, Act(id, Lost)) && forall up :: Enabled(s, Act(id, Answered(up)))
  {
  }

  ghost predicate Did(acts: seq<Action>, id: TaskId, e: Event) {
    Act(id, e) in acts
  }

  /** Dialling only after a probe was answered, serving only after a dial. */
  ghost predicate Earned(acts: seq<Action>, s: State) {
    && (forall id :: id in s.tasks && s.tasks[id].Dialling? ==>
          Did(acts, id, Probed(true)) || Did(acts, id, Answered(true)))
    && (forall id :: id in s.tasks && s.tasks[id].Sender? ==> Did(acts, id, Dialled(true)))
  }

  lemma NewTasksAreYoung(s: State, a: Action)
    requires Inv(s) && Enabled(s, a) && !a.Act?
    ensures forall id :: id in Apply(s, a).tasks && id !in s.tasks ==>
      !Apply(s, a).tasks[id].Dialling? && !Apply(s, a).tasks[id].Sender?
  {
    SpawnFacts(s, a);
    if a.Discover? {
      DiscoveredFacts(s.peer, a.pids, a.watchers);
    }
    forall id | id in Apply(s, a).tasks && id !in s.tasks
      ensures !Apply(s, a).tasks[id].Dialling? && !Apply(s, a).tasks[id].Sender?
    {
      EntryAfter(s, a, id);
    }
  }

  lemma EarnedStep(acts: seq<Action>, s: State, a: Action)
    requires Inv(s) && Earned(acts, s) && Enabled(s, a)
    ensures Earned(acts + [a], Apply(s, a))
  {
    if !a.Act? {
      NewTasksAreYoung(s, a);
    }
    forall id | id in Apply(s, a).tasks
      ensures Apply(s, a).tasks[id].Dialling? ==>
        Did(acts + [a], id, Probed(true)) || Did(acts + [a], id, Answered(true))
      ensures Apply(s, a).tasks[id].Sender? ==> Did(acts + [a], id, Dialled(true))
    {
      if id in s.tasks {
        if a.Act? && a.id == id {
          HowTasksEnd(s, id, a.event);
          assert a in acts + [a];
        } else {
          OthersUntouched(s, a, id);
        }
      } else {
        EntryAfter(s, a, id);
      }
    }
  }

  /**
   In every run a task dials only after a probe of its own found the remote, and a
   connection is served only by a task whose dial succeeded.
   */
  lemma {:induction false} DialsAreEarned(acts: seq<Action>, s: State)
    requires Run(INIT, acts) == Some(s)
    ensures forall id :: id in s.tasks && s.tasks[id].Dialling? ==>
      Act(id, Probed(true)) in acts || Act(id, Answered(true)) in acts
    ensures forall id :: id in s.tasks && s.tasks[id].Sender? ==> Act(id, Dialled(true)) in acts
  {
    EarnedAlways(acts, s);
  }

  lemma {:induction false} EarnedAlways(acts: seq<Action>, s: State)
    requires Run(INIT, acts) == Some(s)
    ensures Earned(acts, s)
    decreases |acts|
  {
    if acts != [] {
      var first, a := acts[..|acts| - 1], acts[|acts| - 1];
      assert acts == first + [a];
      RunConcat(INIT, first, [a]);
      var before := Run(INIT, first).value;
      assert [a][1..] == [] && Enabled(before, a) && s == Apply(before, a);
      EarnedAlways(first, before);
      assert Reachable(before);
      ReachableInv(before);
      EarnedStep(first, before, a);
    }
  }

  // ----- Journeys ------------------------------------------------------------------------

  lemma RunTwoEnds(s: State, a: Action, b: Action)
    requires Enabled(s, a) && Enabled(Apply(s, a), b)
    ensures Run(s, [a, b]) == Some(Apply(Apply(s, a), b))
  {
    RunTwo(s, a, b, []);
    assert [a, b] + [] == [a, b];
  }

  /** The record with one more session, of one more watched pid. */
  function WithSession(p: Peer, pid: Pid): Peer {
    p.(sessionCount := p.sessionCount + 1, watched := p.watched + {pid})
  }

  /** Messages and scans are taken in every state, given ids that are not in use. */
  lemma EveryMessageTaken(s: State, pid: Pid, check: bool, w: TaskId, d: TaskId)
    requires w !in s.tasks && d !in s.tasks && w != d
    ensures Enabled(s, Notify(pid, w, d)) && Enabled(s, Disconnect(pid))
    ensures Enabled(s, IdleScan(d)) && Enabled(s, ListHost(check, d)) && Enabled(s, Accept(d))
  {
  }

  /** A session of a host that is not connected is counted and watched, and its handler goes on to decide. */
  lemma {:induction false} SessionNoticed(s: State, pid: Pid, w: TaskId, d: TaskId)
    requires Reachable(s) && !s.peer.connected && pid !in s.peer.watched
    requires w !in s.tasks && d !in s.tasks && w != d
    ensures Enabled(s, Notify(pid, w, d))
    ensures Apply(s, Notify(pid, w, d)) == State(WithSession(s.peer, pid), s.tasks[w := Watcher(pid)][d := Deciding])
  {
    ReachableInv(s);
    assert s.tasks + map[w := Watcher(pid), d := Deciding] == s.tasks[w := Watcher(pid)][d := Deciding];
  }

  /** The start of an attempt: the first session of an idle host, seen by a Connect message. */
  lemma {:induction false} FirstSessionProbes(s: State, pid: Pid, w: TaskId, d: TaskId)
    requires Reachable(s) && !s.peer.connected && !s.peer.connecting && pid !in s.peer.watched
    requires w !in s.tasks && d !in s.tasks && w != d
    ensures Run(s, [Notify(pid, w, d), Act(d, Decides)])
      == Some(State(WithSession(s.peer, pid).(connecting := true), s.tasks[w := Watcher(pid)][d := Probing]))
  {
    SessionNoticed(s, pid, w, d);
    ReachableInv(s);
    Reaction(Apply(s, Notify(pid, w, d)), d, Decides);
    assert s.tasks[w := Watcher(pid)][d := Deciding][d := Probing] == s.tasks[w := Watcher(pid)][d := Probing];
    RunTwoEnds(s, Notify(pid, w, d), Act(d, Decides));
  }

  /** A session found by the startup scan: an idle host is probed at once, any other only gets the session counted. */
  lemma {:induction false} StartupProbes(s: State, pid: Pid, w: TaskId, d: TaskId)
    requires Reachable(s) && pid !in s.peer.watched && w !in s.tasks && d !in s.tasks && w != d
    ensures Enabled(s, Discover([pid], [w], d))
    ensures Apply(s, Discover([pid], [w], d)) ==
      if s.peer.connected || s.peer.connecting then State(WithSession(s.peer, pid), s.tasks[w := Watcher(pid)])
      else State(WithSession(s.peer, pid).(connecting := true), s.tasks[w := Watcher(pid)][d := Probing])
  {
    ReachableInv(s);
    assert [pid][1..] == [] && [w][1..] == [] && [w] + [d] == [w, d];
    assert DiscoveredWatchers(s.peer, [pid], [w]) == map[w := Watcher(pid)];
    assert TrackedAll(s.peer, [pid]) == Tracked(s.peer, pid);
    assert (s.tasks - {}) + map[w := Watcher(pid)][d := Probing] == s.tasks[w := Watcher(pid)][d := Probing];
    assert (s.tasks - {}) + map[w := Watcher(pid)] == s.tasks[w := Watcher(pid)];
  }

  lemma {:induction false} AllWatched(p: Peer, pids: seq<Pid>)
    ensures TrackedAll(p, pids).watched == p.watched + (set pid | pid in pids)
    decreases pids
  {
    if pids != [] {
      AllWatched(Tracked(p, pids[0]), pids[1..]);
    }
  }

  /** However many processes the scan finds, each one not watched before is one more session with a watcher. */
  lemma StartupCountsAll(s: State, pids: seq<Pid>, ids: seq<TaskId>, d: TaskId)
    requires Inv(s) && Enabled(s, Discover(pids, ids, d))
    ensures var t := Apply(s, Discover(pids, ids, d));
      && t.peer.watched == s.peer.watched + (set pid | pid in pids)
      && t.peer.sessionCount - s.peer.sessionCount == |t.peer.watched| - |s.peer.watched|
      && forall pid :: pid in t.peer.watched ==> exists id :: Watches(t.tasks, id, pid)
  {
    AllWatched(s.peer, pids);
    DiscoveredFacts(s.peer, pids, ids);
    InvStep(s, Discover(pids, ids, d));
  }

  /** A session beside a connection is counted and watched and starts nothing; a watched pid counts once. */
  lemma SecondSessionReuses(s: State, pid: Pid, w: TaskId, d: TaskId)
    requires Reachable(s) && w !in s.tasks && d !in s.tasks && w != d
    requires s.peer.connected || pid in s.peer.watched
    ensures Enabled(s, Notify(pid, w, d))
    ensures Apply(s, Notify(pid, w, d)) ==
      if pid in s.peer.watched then s
      else State(WithSession(s.peer, pid), s.tasks[w := Watcher(pid)])
  {
    ReachableInv(s);
    assert (s.tasks - {}) + map[] == s.tasks;
    assert (s.tasks - {}) + map[w := Watcher(pid)] == s.tasks[w := Watcher(pid)];
  }

  /** A session beside an attempt in flight starts no second one. */
  lemma BusyHostIsLeftAlone(s: State, d: TaskId)
    requires Reachable(s) && d in s.tasks && s.tasks[d].Deciding? && (s.peer.connecting || s.peer.connected)
    ensures Apply(s, Act(d, Decides)) == State(s.peer, s.tasks - {d})
  {
    Reaction(s, d, Decides);
  }

  /** An attempt that finds the remote up connects. */
  lemma AttemptConnects(s: State, d: TaskId)
    requires Reachable(s) && !s.peer.connected && s.peer.sessionCount > 0 && d in s.tasks && s.tasks[d].Probing?
    ensures Run(s, [Act(d, Probed(true)), Act(d, Dialled(true))])
      == Some(State(s.peer.(connected := true, connecting := false, probeFailed := false, closeTx := Some(d)),
                    s.tasks[d := Sender(true, true)]))
  {
    ReachableInv(s);
    Reaction(s, d, Probed(true));
    var dialling := Apply(s, Act(d, Probed(true)));
    Reaction(dialling, d, Dialled(true));
    assert s.tasks[d := Dialling][d := Sender(true, true)] == s.tasks[d := Sender(true, true)];
    RunTwoEnds(s, Act(d, Probed(true)), Act(d, Dialled(true)));
  }

  /** One that finds no daemon is recorded and leaves the way free for the next. */
  lemma AttemptFindsNoDaemon(s: State, d: TaskId)
    requires Reachable(s) && d in s.tasks && s.tasks[d].Probing?
    ensures Apply(s, Act(d, Probed(false)))
      == State(s.peer.(probeFailed := true, connecting := false), s.tasks - {d})
  {
    Reaction(s, d, Probed(false));
  }

  /** A refused dial leaves the way free as well, and records nothing else. */
  lemma DialRefused(s: State, d: TaskId)
    requires Reachable(s) && d in s.tasks && s.tasks[d].Dialling?
    ensures Apply(s, Act(d, Dialled(false))) == State(s.peer.(connecting := false), s.tasks - {d})
  {
    Reaction(s, d, Dialled(false));
  }

  /** The end of one session among several is subtracted, and nothing else happens. */
  lemma OneSessionEnds(s: State, w: TaskId)
    requires Reachable(s) && w in s.tasks && s.tasks[w].Watcher? && s.peer.sessionCount > 1
    ensures Apply(s, Act(w, Fires))
      == State(s.peer.(sessionCount := s.peer.sessionCount - 1, watched := s.peer.watched - {s.tasks[w].pid}),
               s.tasks - {w})
  {
    Reaction(s, w, Fires);
  }

  /** The end of the last session drops the connection and tells its sender to close. */
  lemma LastSessionCloses(s: State, w: TaskId, sender: TaskId)
    requires Reachable(s) && w in s.tasks && s.tasks[w].Watcher?
    requires s.peer.sessionCount == 1 && s.peer.closeTx == Some(sender)
    ensures IsOpen(s.tasks, sender)
    ensures Apply(s, Act(w, Fires)) ==
      State(s.peer.(sessionCount := 0, watched := s.peer.watched - {s.tasks[w].pid},
                    connected := false, closeTx := None),
            (s.tasks - {w})[sender := Sender(false, s.tasks[sender].running)])
  {
    ReachableInv(s);
    assert IsOpen(s.tasks, sender);
    Reaction(s, w, Fires);
  }

  /** A sender that was told stops and cleans up, whatever the host has become meanwhile. */
  lemma ToldSenderCloses(s: State, sender: TaskId)
    requires Reachable(s) && sender in s.tasks && s.tasks[sender] == Sender(false, true)
    ensures var r := Run(s, [Act(sender, Closes), Act(sender, CleansUp)]);
      && r.Some? && r.value.peer == s.peer.(connected := false, connecting := false, closeTx := None)
      && r.value.tasks.Keys == s.tasks.Keys - {sender}
  {
    ReachableInv(s);
    assert !IsOpen(s.tasks, sender);
    Reaction(s, sender, Closes);
    var stopped := Apply(s, Act(sender, Closes));
    Reaction(stopped, sender, CleansUp);
    RunTwoEnds(s, Act(sender, Closes), Act(sender, CleansUp));
  }

  /** A remote that goes away ends the connection; the sessions stay, so a later pass can connect again. */
  lemma RemoteEndNoticed(s: State, sender: TaskId)
    requires Reachable(s) && s.peer.closeTx == Some(sender)
    requires sender in s.tasks && s.tasks[sender] == Sender(true, true)
    ensures Run(s, [Act(sender, RemoteEnds), Act(sender, CleansUp)])
      == Some(State(s.peer.(connected := false, connecting := false, closeTx := None), s.tasks - {sender}))
  {
    Reaction(s, sender, RemoteEnds);
    var stopped := Apply(s, Act(sender, RemoteEnds));
    Reaction(stopped, sender, CleansUp);
    assert stopped.tasks - {sender} == s.tasks - {sender};
    RunTwoEnds(s, Act(sender, RemoteEnds), Act(sender, CleansUp));
  }

  /** A pass probes a host unless an attempt is in flight, or it is connected and the pass is no status request. */
  lemma PassLooksAt(s: State, check: bool, id: TaskId)
    requires Reachable(s) && s.peer.sessionCount > 0 && id !in s.tasks
    ensures Run(s, [ListHost(check, id), Act(id, Looks)]) == Some(
      if s.peer.connecting || (s.peer.connected && !check) then s
      else State(s.peer, s.tasks[id := Checking(s.peer.connected)]))
  {
    var list := ListHost(check, id);
    assert (s.tasks - {}) + map[id := Listed(check)] == s.tasks[id := Listed(check)];
    assert Apply(s, list) == State(s.peer, s.tasks[id := Listed(check)]);
    Reaction(Apply(s, list), id, Looks);
    assert s.tasks[id := Listed(check)] - {id} == s.tasks;
    assert s.tasks[id := Listed(check)][id := Checking(s.peer.connected)] == s.tasks[id := Checking(s.peer.connected)];
    RunTwoEnds(s, list, Act(id, Looks));
  }

  /** A host without sessions is in no pass. */
  lemma PassSkips(s: State, check: bool, id: TaskId)
    requires s.peer.sessionCount == 0 && Enabled(s, ListHost(check, id))
    ensures Apply(s, ListHost(check, id)) == s
  {
    assert (s.tasks - {}) + map[] == s.tasks;
  }

  /**
   In whatever state, reachable or not, the idle sweep would clear a host connected
   without sessions and tell the sender in its slot; any other host it leaves alone.
   */
  lemma IdleSweepClears(s: State, id: TaskId)
    requires id !in s.tasks
    ensures Enabled(s, IdleScan(id))
    ensures !(s.peer.connected && s.peer.sessionCount == 0) ==> Apply(s, IdleScan(id)) == s
    ensures s.peer.connected && s.peer.sessionCount == 0 ==>
      var r := Run(s, [IdleScan(id), Act(id, Sweeps)]);
      && r.Some? && r.value.peer == s.peer.(connected := false, connecting := false, closeTx := None)
      && r.value.tasks.Keys == s.tasks.Keys
      && (forall k :: k in s.tasks ==>
            r.value.tasks[k] ==
              if s.peer.closeTx == Some(k) && s.tasks[k].Sender? then Sender(false, s.tasks[k].running) else s.tasks[k])
  {
    if s.peer.connected && s.peer.sessionCount == 0 {
      assert (s.tasks - {}) + map[id := Swept] == s.tasks[id := Swept];
      var swept := Apply(s, IdleScan(id));
      assert swept == State(s.peer, s.tasks[id := Swept]);
      Reaction(swept, id, Sweeps);
      assert s.tasks[id := Swept] - {id} == s.tasks;
      RunTwoEnds(s, IdleScan(id), Act(id, Sweeps));
    } else {
      assert (s.tasks - {}) + map[] == s.tasks;
    }
  }

  /** In whatever state, a dial that succeeds without sessions leaves no connection and an empty slot. */
  lemma LateDialClears(s: State, id: TaskId)
    requires s.peer.sessionCount == 0 && id in s.tasks && s.tasks[id].Dialling?
    ensures var t := Apply(s, Act(id, Dialled(true)));
      && t.peer == s.peer.(connecting := false, closeTx := None) && t.tasks.Keys == s.tasks.Keys - {id}
      && (s.peer.closeTx.Some? ==> !IsOpen(t.tasks, s.peer.closeTx.value))
  {
    Reaction(s, id, Dialled(true));
  }

  /** An inbound connection that comes and goes leaves nothing but the knowledge that the remote daemon runs. */
  lemma InboundComesAndGoes(s: State, id: TaskId)
    requires Reachable(s) && id !in s.tasks
    ensures Enabled(s, Accept(id)) && Apply(s, Accept(id)) ==
      State(s.peer.(inbound := s.peer.inbound + 1, probeFailed := false), s.tasks[id := Receiver])
    ensures Run(s, [Accept(id), Act(id, InboundEnds)]) == Some(State(s.peer.(probeFailed := false), s.tasks))
  {
    assert (s.tasks - {}) + map[id := Receiver] == s.tasks[id := Receiver];
    var served := Apply(s, Accept(id));
    assert served == State(s.peer.(inbound := s.peer.inbound + 1, probeFailed := false), s.tasks[id := Receiver]);
    Reaction(served, id, InboundEnds);
    assert s.tasks[id := Receiver] - {id} == s.tasks;
    RunTwoEnds(s, Accept(id), Act(id, InboundEnds));
  }
}
