# tassh: a verified model of the daemon

tassh forwards PNG clipboard images between machines that are joined by ssh
sessions. A daemon on each machine counts the ssh sessions to every remote host,
keeps one outbound connection to the remote daemon while there are sessions,
fans local clipboard images out to all connections, and writes images that
arrive on inbound connections to its own clipboard.

This project models that daemon in Dafny 4.11 and proves properties of the
model. `dafny verify dfyconfig.toml` checks everything.

## How the model is built

| file | contents |
|---|---|
| `peer.dfy` | the record of one host, every lock-held region as a function on it, and the registry as a class |
| `daemon.dfy` | the lock-held regions as methods on the heap registry, proved against those functions |
| `machine.dfy` | one host as a state machine: its record and all background tasks that concern it |
| `invariants.dfy`, `safety.dfy` | what every reachable state of one host satisfies |
| `lifecycle.dfy` | how each background task can end, and the journeys of a host from a message or outcome to the state it leads to |
| `drain.dfy` | settling of a host and its recovery |
| `staleness.dfy` | statements that stale knowledge makes false: runs against them and the exact breaking step |
| `mesh.dfy` | all hosts at once, and the projection of its runs to each host |
| `meshdrain.dfy` | settling, recovery and status passes of all hosts together |
| `execution.dfy` | the heap registry driven through runs of the mesh |
| `protocol.dfy`, `transport.dfy` | the frame codec and reading frames from a stream that arrives in pieces |
| `fanout.dfy` | the bounded broadcast channel, a sender, and the frames its peer receives |
| `client.dfy` | the reconnecting client |
| `hostnames.dfy`, `sshargs.dfy` | host names and the ssh command line |
| `clipboard.dfy` | the two clipboard watch loops |
| `wrappers.dfy` | Option, Result and sums over maps |

**Concurrency.** Every region of `src/daemon.rs` between taking and releasing the
registry lock is one atomic action; between two of them any other action may
happen. Background tasks sit in a task table. Outcomes of probes, dials, sends
and waits are parts of the actions, so a run is any sequence of enabled actions.
A piece of work keeps its id while it turns from handler into probe, dial and
sender. The close sender is modelled by ownership: whatever id the `close_tx`
slot held before a region and does not hold after it belongs to a sender that has
been dropped, and the task with that id becomes "told" (`open == false`).

**Regions on the heap.** `Daemon` performs the regions on mutable `PeerState`
objects. `Execution.Serve` drives them through any run of the mesh from the start
and ends with a status reply; its contract says that the objects hold what the
mesh model predicts. Every run of the mesh projects, host by host, to a run of the
one-host machine, so what `safety.dfy` says of every run or reachable state of a host
holds of each host of the mesh and of its object. That some schedule exists is a claim
projection does not carry over; `meshdrain.dfy` proves settling, recovery and the
status pass for the schedules of the mesh itself, all hosts interleaved.

**Where the code and its comments differ.** The code was followed.
- `src/daemon.rs:459-462` announces that remaining pid watchers are aborted, but
  nothing ever adds a handle to `pid_watcher_handles`; watchers stay alive.
- `src/peer.rs:25` describes `connecting` as "an attempt is in progress"; a failed
  liveness probe and a sender's cleanup clear it under a running attempt
  (`HostStaleness.FlagClearedUnderAttempt`).
- `src/daemon.rs:671` means to reuse a key when reverse DNS gives another form of a
  name. A reverse name that ends in a blank before its last dots can get a key whose
  own first label is another one (`HostNames.LabelLost`); `HostNames.LabelSurvives`
  is the exact condition under which this does not happen.
- `PeerRegistry::remove` (`src/peer.rs:75`) has no caller, so keys never disappear.

## Model

| member | source | states |
|---|---|---|
| Peers.PeerRegistry.GetOrCreate | src/peer.rs:49-62 | a missing host gets a blank record, a known one keeps its record and identity; no other host changes |
| Peers.PeerRegistry.ListPeers | src/peer.rs:81-97 | the reply lists exactly the hosts with sessions or inbound connections, with what it says of each |
| Daemon.TrackSession | src/daemon.rs:380-394 | first region of Connect: counts and watches a new pid once, reports whether a connection is needed; other hosts unchanged |
| Daemon.ClaimAttempt | src/daemon.rs:408-417 | check-and-set of the connecting flag; true iff it was clear and the host not connected |
| Daemon.CountPids | src/daemon.rs:891-896 | the startup loop counts each unwatched pid once and returns those pids |
| Daemon.RegisterDiscovered | src/daemon.rs:884-904 | the whole startup region of one host: counting and check-and-set in one step |
| Daemon.HandlePidExit | src/daemon.rs:446-465 | unwatches the pid, subtracts a session without going below zero, and drops the connection with the last one; unknown hosts untouched |
| Daemon.MarkProbeMissed | src/daemon.rs:426-434 | a failed probe before dialling sets "no daemon" and ends the attempt |
| Daemon.RegisterConnection | src/daemon.rs:501-518 | a dialled connection is kept iff the host has sessions; the slot then holds its close sender |
| Daemon.MarkDialFailed | src/daemon.rs:585-592 | a failed dial clears the connecting flag and nothing else |
| Daemon.ClearConnection | src/daemon.rs:575-582 | end of a sender: not connected, not connecting, slot emptied |
| Daemon.LookAt | src/daemon.rs:291-306 | a pass probes a host iff it is known, not connecting, and unconnected or to be checked anyway; the probe carries the flag it saw |
| Daemon.LivenessReachable | src/daemon.rs:329-342 | a reachable host is reconnected iff idle, unconnected and with sessions |
| Daemon.LivenessUnreachable | src/daemon.rs:356-368 | a failed liveness probe drops the connection only if it had seen one, and always clears the flag |
| Daemon.AcceptInbound | src/daemon.rs:615-620 | an inbound connection is counted under its key and withdraws "no daemon" |
| Daemon.EndInbound | src/daemon.rs:654-657 | the end of an inbound connection is subtracted |
| HostInvariants.InvStep | src/daemon.rs:262-593 | every action of any background task keeps the joint invariant |
| HostInvariants.InvAlways | src/daemon.rs:262-593 | so does every run |
| HostInvariants.DiscoveredCover | src/daemon.rs:906-914 | every pid the startup scan counts gets a watcher |
| HostSafety.SingleOpenConnection | src/daemon.rs:497-518 | at most one sender per host has not been told to close; it is the one in the slot, and the host is connected iff there is one |
| HostSafety.NoSessionNoConnection | src/daemon.rs:452-458 | with no session every live sender has been told to close |
| HostSafety.LateDialDiscarded | src/daemon.rs:504-523 | a dial that succeeds after the last session leaves no connection |
| HostSafety.IdleSweepFindsNothing | src/daemon.rs:268-283 | the sweep of idle connected hosts never has a host to clear |
| HostSafety.NoStuckFlag | src/daemon.rs:407-435 | the connecting flag is never set without an attempt in flight, nor on a connected host |
| HostSafety.ConnectionUp | src/daemon.rs:508-513 | a host becomes connected exactly by a successful dial with sessions |
| HostSafety.ConnectionDown | src/daemon.rs:358-365 | it stops being connected exactly by the end of the last session, a failed liveness probe that saw it connected, or a sender's cleanup |
| HostSafety.AttemptFlagUp | src/daemon.rs:331-337 | which actions raise the connecting flag, and only on an idle unconnected host |
| HostSafety.AttemptFlagDown | src/daemon.rs:428-433 | which actions clear it |
| HostSafety.NoDaemonFlag | src/peer.rs:27-28 | a step leaves "no daemon" set iff it is a failed probe, or it was set and the step shows no sign of life |
| HostSafety.NoDaemonHistory | src/daemon.rs:426-434 | at the end of any run "no daemon" is recorded iff some probe of the run failed and no sign of life came after it |
| HostSafety.SessionsNeverExceedWatched | src/daemon.rs:446-450 | sessions never outnumber watched pids, and every watched pid has a live watcher |
| HostSafety.SessionsExact | src/daemon.rs:886-914 | without explicit Disconnect, sessions = watched pids = live watchers, and the subtraction never clips |
| HostSafety.StatusIsTruthful | src/peer.rs:81-97 | listed iff a session or a live inbound task; called connected iff an untold sender or an inbound task; sessions = counted ones + live inbound tasks; inbound count never clips |
| HostSafety.StatusNoDaemon | src/peer.rs:89-92 | "no daemon" is reported iff a probe of the run failed, no sign of life came since, and no inbound task is live |
| HostSafety.StatusSessions | src/peer.rs:85-93 | without Disconnect the reported sessions are the live watchers + the live inbound tasks |
| HostLifecycle.OthersUntouched | src/daemon.rs:497-593 | a step of one task can do nothing to another but drop its close sender |
| HostLifecycle.SenderEndsByCleanup | src/daemon.rs:552-582 | a sender, told or not, stays until its own cleanup has run |
| HostLifecycle.HowTasksEnd | src/daemon.rs:262-593 | for every kind of task exactly which of its steps end it, and what it becomes otherwise |
| HostLifecycle.EveryOutcomePossible | src/daemon.rs:472-486 | every probe, dial and wait can turn out either way |
| HostLifecycle.DialsAreEarned | src/daemon.rs:421-424 | in any run a task dials only after a probe of its own was answered, and serves only after its dial succeeded |
| HostLifecycle.SessionNoticed | src/daemon.rs:380-403 | a new session of an unconnected host is counted and watched, and its handler goes on to decide |
| HostLifecycle.FirstSessionProbes | src/daemon.rs:407-424 | the first session of an idle host starts a probe and sets the flag |
| HostLifecycle.StartupProbes | src/daemon.rs:884-918 | a session found at startup starts a probe on an idle host, on any other it is only counted |
| HostLifecycle.StartupCountsAll | src/daemon.rs:886-914 | all processes found at startup are watched, each new one is one session |
| HostLifecycle.SecondSessionReuses | tests/daemon_mesh_e2e.sh:218-222 | a session beside a connection starts nothing; a watched pid changes nothing |
| HostLifecycle.BusyHostIsLeftAlone | src/daemon.rs:411-412 | a handler on a host with an attempt or a connection starts no other |
| HostLifecycle.AttemptConnects | tests/daemon_mesh_e2e.sh:209-212 | an attempt that finds the remote up ends connected, its task in the slot |
| HostLifecycle.AttemptFindsNoDaemon | src/daemon.rs:426-434 | one that finds no daemon records that and clears the flag |
| HostLifecycle.DialRefused | src/daemon.rs:585-592 | a refused dial clears the flag and records nothing else |
| HostLifecycle.OneSessionEnds | tests/daemon_mesh_e2e.sh:224-225 | the end of one session among several is subtracted, the connection stays |
| HostLifecycle.LastSessionCloses | src/daemon.rs:452-458 | the end of the last session drops the connection and tells its sender |
| HostLifecycle.ToldSenderCloses | src/daemon.rs:552-582 | a sender that was told stops, cleans up and is gone |
| HostLifecycle.RemoteEndNoticed | src/daemon.rs:556-582 | the end of the remote ends the connection and keeps the sessions |
| HostLifecycle.PassLooksAt | src/daemon.rs:285-306 | a pass starts a probe of a host with sessions unless an attempt is in flight or it is connected and not to be checked |
| HostLifecycle.PassSkips | src/peer.rs:100-106 | a host without sessions is in no pass |
| HostLifecycle.IdleSweepClears | src/daemon.rs:268-283 | in any state the idle sweep would clear a host connected without sessions and tell its sender; it leaves others alone |
| HostLifecycle.LateDialClears | src/daemon.rs:504-507 | in any state a dial that succeeds without sessions leaves no connection and an empty slot |
| HostLifecycle.InboundComesAndGoes | src/daemon.rs:615-657 | an inbound connection is counted while it lasts and leaves only the knowledge that the remote runs |
| HostDrain.InternalDecreases | src/daemon.rs:315-368 | every internal step lowers the remaining work |
| HostDrain.DrainBounded | src/daemon.rs:315-368 | an internal schedule is no longer than the work at its start |
| HostDrain.QuiescentMeansDone | src/daemon.rs:533-583 | a state is quiescent iff no internal action is enabled |
| HostDrain.DrainExists | src/daemon.rs:533-583 | from every state an internal schedule reaches quiescence |
| HostDrain.DrainSettles | src/daemon.rs:489-593 | wherever a drain ends: no attempt, flag clear, at most one sender, connected iff one; sessions unchanged |
| HostDrain.Recovery | src/daemon.rs:285-354 | from any reachable state with sessions, once drained, one pass with the remote up ends connected with exactly one sender |
| HostDrain.StatusNoticesLoss | src/daemon.rs:231-241 | from any reachable connected state, whatever is in flight, the pass of a status request tells the sender of a dead remote to close and records "no daemon"; with a live remote it changes nothing |
| HostStaleness.OneAttemptBreaks | src/daemon.rs:356-368 | "connecting means exactly one attempt" is broken exactly by a failed liveness probe or a cleanup while the flag is set |
| HostStaleness.ContradictionArises | src/daemon.rs:426-434 | "connected" and "no daemon" meet exactly when a probe begun before the connection fails after it |
| HostStaleness.CleanupDisturbs | src/daemon.rs:575-582 | a cleanup closes another connection exactly when its task had been told to close and the host is connected |
| HostStaleness.CountBreaks | src/daemon.rs:446-450 | the count leaves the number of watched pids exactly when an unwatched pid exits while sessions are counted |
| HostStaleness.FlagClearedUnderAttempt | src/daemon.rs:366-367 | a run in which the flag is clear with an attempt in flight |
| HostStaleness.TwoAttempts | src/daemon.rs:408-417 | a run with two attempts at once |
| HostStaleness.ConnectedYetNoDaemon | src/peer.rs:89-94 | a run in which status says both "connected" and "no daemon" |
| HostStaleness.NewerConnectionKnockedOut | src/daemon.rs:575-582 | a run in which an old sender's cleanup closes a newer connection |
| HostStaleness.DisconnectMiscounts | src/daemon.rs:441-450 | a run in which a Disconnect leaves a watched pid uncounted |
| Mesh.ProjectStep | src/daemon.rs:262-370 | a step of the daemon is on every host one step of its machine or none; no key is removed, no task loses its record |
| Mesh.HostProjection | src/daemon.rs:262-370 | every run of the daemon, seen from one host, is a run of that host's machine |
| Mesh.EveryTaskFindsItsRecord | src/daemon.rs:576-577 | every look-up through get_mut finds its entry |
| Mesh.ListingIsTruthful | src/peer.rs:81-97 | every field of the status reply of the whole daemon is backed: listed, connected and sessions by live tasks, "no daemon" by the run's probes |
| Mesh.OneOpenConnectionPerHost | src/daemon.rs:497-518 | no two untold senders for one host in any run |
| Mesh.SessionsExactPerHost | src/daemon.rs:886-914 | without Disconnect every host's session count is its number of live watchers |
| Mesh.ListedSessionsExact | src/peer.rs:85-93 | without Disconnect the sessions in the reply are the host's live watchers + its live inbound tasks |
| Mesh.MeshSenderEndsByCleanup | src/daemon.rs:552-582 | no sender of any host vanishes before its own cleanup |
| Mesh.EnabledAmongOthers | src/daemon.rs:217-230 | whatever one host can do alone it can do among the others |
| Mesh.WithoutRecord | src/daemon.rs:426-434 | a task whose host had no entry would change no entry and go on only by its lock-free steps |
| MeshDrain.MeshInternalDecreases | src/daemon.rs:315-368 | every internal step on any host lowers the work of the whole daemon |
| MeshDrain.MeshDrainExists | src/daemon.rs:533-583 | from every state some internal schedule settles all hosts, even one in which no probe or dial fails |
| MeshDrain.MeshDrainSettles | src/daemon.rs:489-593 | after any run of the daemon: internal schedules of all hosts are bounded, some continuation settles, and where one settles every host is in order with its session count unchanged |
| MeshDrain.MeshRecovery | src/daemon.rs:262-370 | once the daemon has settled, one pass over all hosts that finds the remotes up, its steps in any order, leaves every host with sessions connected with exactly one sender |
| MeshDrain.MeshPassExists | src/daemon.rs:262-370 | from every state that satisfies the invariant such a pass can run to its end |
| MeshDrain.MeshStatusNoticesLoss | src/daemon.rs:231-241 | in any state of the daemon the steps of a status pass on a connected host notice that its remote is gone and leave the other hosts alone |
| Execution.PerformReaction | src/daemon.rs:291-593 | the regions of running tasks change the objects as the model says, and their answers alone make the task turn into what the model says |
| Execution.PerformNotify | src/daemon.rs:380-417 | the answers of the Connect region are the tasks spawned |
| Execution.PerformDiscover | src/daemon.rs:884-914 | each pid returned is newly watched and one more session |
| Execution.PerformScan | src/peer.rs:100-115 | what a pass reads from the registry objects is exactly the set of hosts for which the model spawns an entry |
| Execution.Serve | src/daemon.rs:158-184 | over any run the registry objects hold what the model predicts, and the status reply calls a host connected iff a live task backs it |
| Protocol.ToBytes | src/protocol.rs:72-85 | the pushes produce the encoding; refused iff the payload exceeds a u32 |
| Protocol.DecodeEncode | src/protocol.rs:88-116 | decoding an encoding returns the frame, for every type byte and payload |
| Protocol.EncodeDecode | src/protocol.rs:88-116 | bytes that decode are the one encoding of the result |
| Protocol.PrefixFree | src/protocol.rs:46-53 | no encoding is a proper prefix of another |
| Protocol.Layout | src/protocol.rs:46-53 | every byte of an encoding in numbers: magic, version, type, big-endian length, payload |
| Protocol.TooLargeIsRefused | src/protocol.rs:72-76 | a frame is encodable iff its payload has at most 4294967295 bytes |
| Protocol.Decoded | src/protocol.rs:88-116 | what decoding says of any bytes, each error with its condition, in numbers |
| Transport.Reader.ReadExact | src/transport.rs:73-91 | fills the buffer from pieces of any size, or consumes what is left and fails |
| Transport.RecvFrame | src/transport.rs:73-98 | one frame is read, or the error the code reports, whatever the pieces |
| Transport.RecvAgreesWithDecode | src/transport.rs:83-97 | a frame is received iff a prefix of the stream decodes to it, and that prefix is consumed |
| Transport.StreamErrorsAreHeaderErrors | src/transport.rs:83-97 | a frame error on a stream is the decoder's error for the bytes consumed; TooShort and LengthMismatch never surface |
| Transport.NextInNumbers | src/transport.rs:73-98 | the next frame or the exact error of any stream: closed or I/O error by how it ends, bad magic before bad version, bytes consumed |
| Transport.ReceiveLoop | src/transport.rs:141-159 | the receive loop hands on all frames up to the first error |
| Transport.CutStream | src/transport.rs:73-98 | a cut stream yields exactly the frames wholly before the cut, then the end |
| Transport.ReceiveCut | src/daemon.rs:634-651 | the same through the loop, for any delivery in pieces |
| Transport.WholeFits | src/transport.rs:73-98 | the frames counted as wholly before a cut are exactly those that end at or before it |
| Transport.LoopEndsAtError | src/transport.rs:141-159 | the loop hands on the frames before the first error and ends there, whatever follows |
| Fanout.BroadcastConserved | src/daemon.rs:526-551 | completed sends + lagged + pending + (one if the last send failed) = frames published since subscribing, and the frames of the completed sends are on the wire to the last byte |
| Fanout.LostOnlyBehindRetained | src/peer.rs:40-40 | in any run a frame is lost to a subscriber only once 16 newer ones were broadcast |
| Fanout.NothingAfterFailure | src/daemon.rs:538-543 | after a failed send nothing more is written |
| Fanout.NothingAfterStop | src/daemon.rs:552-573 | a task that stopped takes no frame and writes no byte any more |
| Fanout.NextOfTap | src/daemon.rs:536-551 | what a live task can do by the number of frames pending: up to 16 are taken in order, with more all but the last 16 are reported lost |
| Fanout.EndToEnd | src/daemon.rs:533-551 | what a peer receives is a prefix of the popped frames, which follow the broadcast order strictly; if all written bytes arrive it has at least every completed send |
| Fanout.CaughtUpDeliversAll | src/daemon.rs:533-551 | without lag or failure a peer gets everything broadcast since the subscription |
| Fanout.Deliver | src/daemon.rs:634-651 | the same through the receiver's own loop: strict broadcast order, nothing but popped frames, no completed send missing |
| Client.RunClient | src/transport.rs:168-211 | the turns take the queue without gaps, each sending at most what its round lets through and breaking exactly at the next frame; one frame lost per broken connection; every sleep is its base plus a quarter of it times the jitter |
| Client.Session | src/transport.rs:185-199 | one connection sends frames in order and breaks iff a frame is left after those that go through, or one cannot be encoded |
| Client.FramesConserved | src/transport.rs:185-199 | frames taken = sent + lost, one lost per broken connection |
| Client.TurnDetermined | src/transport.rs:185-199 | what a turn makes of a queue is determined by its round |
| Client.BackoffIsBase | src/transport.rs:206-209 | doubling with a cap at each turn is min(2^k, 30) for the turns since the last connection |
| Client.RefusedFromStart | src/transport.rs:174-209 | the sleep after the (k+1)-st refused connect from the start has base min(2^k, 30) |
| Client.RefusedAfterConnection | src/transport.rs:183-209 | after a connection the wait at its end has base 1, so the sleep after the k-th refused connect has base min(2^k, 30) |
| Client.FirstWaits | src/transport.rs:206-209 | the first seven waits: 1, 2, 4, 8, 16, 30 and 30 seconds |
| HostNames.NormalizedIsCanonical | src/daemon.rs:1013-1024 | the normaliser returns only non-empty lowercase letters, digits, dots and dashes |
| HostNames.CanonicalIffFixed | src/daemon.rs:999-1025 | a string is its own normal form iff it is canonical |
| HostNames.NormalizeIdempotent | src/daemon.rs:999-1025 | normalising twice changes nothing |
| HostNames.NormalizeUndecorates | src/daemon.rs:1000-1011 | outer quotes, any user prefix, blanks around the host and a digit port are removed from any host |
| HostNames.NormalizeBracketed | src/daemon.rs:1002-1005 | so are brackets, with or without a user |
| HostNames.BracketsRefused | src/daemon.rs:1002-1024 | brackets followed by a port, and a lone opening bracket, are refused |
| HostNames.OneCharHosts | src/daemon.rs:1017-1024 | the hosts of one character are the ASCII letters, digits, dash and dot, by code |
| HostNames.DroppedBefore | src/daemon.rs:1000-1011 | before a host exactly quotes of both kinds, blanks and '@' leave no trace |
| HostNames.DroppedAfter | src/daemon.rs:1000-1011 | after a host exactly quotes of both kinds, blanks and ':' leave no trace |
| HostNames.BlankTable | src/daemon.rs:1010-1010 | the 25 Unicode blanks, by code |
| HostNames.LowerCases | src/daemon.rs:1011-1011 | A to Z become a to z, every other character stays |
| HostNames.NormalizeBlindToCase | src/daemon.rs:999-1025 | letter case makes no difference to the normaliser, on any input |
| HostNames.SameKeyIsFirstLabel | src/daemon.rs:676-687 | the four tests together are equality of first labels |
| HostNames.FindKey | src/daemon.rs:677-689 | the search returns a matching known key iff there is one |
| HostNames.MatchInboundKey | src/daemon.rs:668-690 | a reverse DNS name is filed under the known host with its first label, if any |
| HostNames.PeerNamePadded | src/daemon.rs:723-726 | blanks around a reverse DNS name and dots at its end make no difference |
| HostNames.PeerNameBlindToCase | src/daemon.rs:723-726 | neither does letter case |
| HostNames.ShortAndLongForm | src/daemon.rs:671-687 | the short and the full form of a host name go by one label, the lower-cased short name |
| HostNames.LabelSurvivesExactly | src/daemon.rs:723-726 | a normalised name keeps its first label when normalised again iff `LabelSurvives`, a test on the name before the call |
| HostNames.FilingKeepsLabelsApart | src/daemon.rs:668-690 | filing an inbound peer keeps the first labels of the known keys apart, whatever keys are known, iff its name's label survives |
| HostNames.LabelLost | src/daemon.rs:668-690 | a name for which it does not: two keys end up with one first label |
| HostNames.RegisterInboundKey | src/daemon.rs:668-690 | a known key with the label of the reverse name is reused; a new key has that label iff it survives, and then no two keys share a first label |
| SshArgs.ExtractSshDestinationHost | src/daemon.rs:966-997 | the two loops compute the normalised destination of the argument list |
| SshArgs.DestinationUndoesRender | src/daemon.rs:966-997 | the destination of any rendered command line is found; none iff it has none |
| SshArgs.EveryLineParses | src/daemon.rs:966-997 | every argument list is a rendered command line |
| SshArgs.DestinationIffParse | src/daemon.rs:966-997 | the scan finds d iff the list reads as options then d, and all readings agree |
| SshArgs.DecoratedDestinationFound | src/daemon.rs:966-1025 | scan and normaliser together recover the bare host |
| SshArgs.OneLetterOption | src/daemon.rs:939-964 | a one-letter option takes the next argument iff its letter is one of the twenty, for every character |
| SshArgs.LongerOption | src/daemon.rs:975-983 | any longer option, and a lone dash, takes none |
| SshArgs.AfterDashesNothingTakesValues | src/daemon.rs:988-994 | after "--" no option takes a value |
| Clipboard.WatchWithCommand | src/clipboard.rs:161-200 | sends the images with equal neighbours collapsed and the startup run removed, up to the first refused send; never first an image with the startup hash |
| Clipboard.WatchWithLibrary | src/clipboard.rs:83-131 | the same over the images that encode; a failed encoding leaves the image to be tried again |
| Clipboard.SampleAdds | src/clipboard.rs:176-190 | told from the raw reads, each sample adds its image iff the nearest earlier image, startup included, has another hash |
| Clipboard.PollAdds | src/clipboard.rs:99-123 | the same for polls: an image counts once its encoding succeeded |
| Clipboard.CommandSkipsStartup | src/clipboard.rs:161-169 | the startup image is not sent; without one the first image is |
| Clipboard.LibrarySkipsStartup | src/clipboard.rs:84-90 | nothing is sent while only the startup image is seen |
| Clipboard.CollapsedNeighboursDiffer | src/clipboard.rs:179-183 | no two neighbours among the sent images share a hash |

## Left out

- Foreign calls: DNS, getnameinfo, `tailscale ip`, `pgrep`, `hostname` and process exit; their results are inputs or actions.
- Sockets, keepalive, timers and select fairness: every outcome and every order is allowed; tokio channels enter by their documented behaviour.
- `src/display.rs`, `src/setup.rs`, `src/cli.rs`, `src/main.rs`: process spawning, prompts, files and argument parsing.
- JSON messages of `src/ipc.rs`; message kinds are action names.
- `ClipboardWriter`: killing and replacing the holder process is not modelled; a receive loop ends at the frames handed over.
- SHA-256 and PNG encoding: the hash is a parameter, an encoding result is part of a poll, so equal hashes count as equal images.
- Session and connection counters are unbounded; the wrap-around of a machine word after 2^64 sessions is not modelled.
- A watcher or sender is in the task table from the region that leads to its spawn, slightly before the runtime starts it.
- The liveness pass is a collection of its steps: that one pass sweeps before it lists, and lists before it looks, is not enforced, so the model has more interleavings than the code.
- `resolve_inbound_peer_key` by address (forward DNS of known hosts) is an arbitrary choice of key; only the search by reverse name is modelled.
- Non-ASCII arguments in the ssh scan, where the code's byte slice presumes a character boundary; bundled short options, options missing from the table and bracketed or IPv6 addresses with ports are read as the code reads them, not as OpenSSH does.
- Client.RunClient: describes any finite stretch of network behaviour; a client that waits for ever is seen only up to such a stretch.
- The shutdown sequence of `run_daemon`.
