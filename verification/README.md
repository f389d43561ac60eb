# SPLITTER: a verified model of its process, circuit and routing logic

SPLITTER supervises a fleet of Tor processes, renews their circuits, rotates their countries and
puts a load balancer in front of them. This project models the stateful core of that program in
Dafny and proves what holds in every run of it.

`dafny verify dfyconfig.toml` checks everything.

| files | what they model |
|---|---|
| `Process.dfy`, `ProcessProtocol.dfy`, `ProcessRuns.dfy`, `StopAllRuns.dfy` | `Spawn`, `Stop` and `StopAll` racing with the waiter goroutines and with exiting children |
| `Backoff.dfy`, `Supervisor.dfy`, `SupervisorRuns.dfy`, `RestartRuns.dfy`, `BarrierRuns.dfy` | the restart supervisors, their backoff, and the ready barrier of `StartAllWithRestart` |
| `Strings.dfy`, `LabelKey.dfy`, `Metric.dfy` | the key of a label set and the rows of a labelled metric |
| `Socks5Wire.dfy`, `Socks5Client.dfy` | the SOCKS5 client of the DNS leak test over a stream cut into arbitrary chunks |
| `SlidingWindow.dfy`, `Renewal.dfy` | the request window, the adaptive interval and the NEWNYM loop |
| `PortAllocator.dfy` | first-fit port allocation and who owns which port |
| `Country.dfy`, `TorManager.dfy`, `Backends.dfy` | country selection and rotation, instance layout, load-balancer backends |
| `Caches.dfy` | the country and reputation caches with stale fallback |
| `Version.dfy` | reading, printing and comparing Tor versions |

## How it is modelled

Concurrent code is a labelled transition system. A label is one mutex section, channel operation,
select branch, signal, timer or process exit, together with the choice that the scheduler or the
environment made; `Enabled` says when it can happen and `Apply` (`Act` for one supervised instance)
what it does. A run is a list of states joined by labels, and the main theorems quantify over every
run, so over every interleaving and every number of concurrent callers. The selects of the supervisor's
monitor loop and of the counting goroutine park when nothing is ready, and then take the first branch
that becomes ready, as the Go runtime does. The mutex sections of a
process are also methods of the class `Process`, and the protocol uses the same section functions.

Code that runs under one lock or in one goroutine is imperative: classes with the source's fields,
methods with its loops. Ghost history (all requests ever recorded, all metric calls, all grants)
states what those fields mean. The network, the file system, clocks and random numbers are inputs: a
shuffle takes its draws, a command its reply, a round of the renewal loop its cancellation. Go slices and maps that a method mutates are `seq` and `map` fields.

A few findings are stated as theorems because the natural claim is false:

- A child that exits with an error before any `Stop` claims it can still end as Stopped
  (`ErrorExitCanEndStopped`). What decides is which mutex section runs first, and `FailedExactly`
  gives the exact condition.
- `StopAll` can leave a child alive. It can do so, with no later `Spawn` passing its context check,
  exactly when at its snapshot some `Spawn` call is past that check and its child is not started yet,
  or alive and not yet on the list (`SurvivalExactly`); such states exist after every context has been
  cancelled (`InFlightWhenCancelled`).
- `StartAllWithRestart` need not come to a verdict. When the process of an instance that was never Ready
  exits without an error, its supervisor gives up (`DoomedWithoutCancel` is such a run, with no
  cancellation in it), and from then on the barrier waits until somebody cancels (`WaitsForever`).
  `NilPossibleExactly` says exactly in which states a nil return is still possible.
- Two different label sets can share a key and with it a metric row. A label set is alone with its key
  exactly when it is empty or a single label without an `=` in its name or value (`AloneExactly`), and
  exactly those are sure to get a row of their own (`OwnRowExactly`). Even a clean set of two labels
  shares its key with another set: with the single label whose value swallows the second entry
  (`KeyCollision`). Clean sets, with no `=` or comma in a name and no comma in a value, can still be
  told apart from each other (`KeyInjective`), and as long as all sets in use are clean the rows are a
  map (`CleanRowsAreAMap`).
- A validated configuration can put control and HTTP ports above 65535 (`ControlPortsUnchecked`);
  `InRangeExactly` says when it does not.
- A write to the reputation cache after a failed read drops every other country's entries
  (`UnreadableDropsOthers`); `KeptExactly` says when an entry survives a write for another key, and
  `EntryIsLastRefresh`, for any run, what an entry holds.

## Model

| member | source | states |
|---|---|---|
| ManagedProcess.Process.Claim | internal/process/shutdown.go:18-25 | the claim succeeds exactly on a running process and leaves no process running |
| ManagedProcess.Process.Settle | internal/process/spawn.go:43-53 | the waiter records the exit error whoever decided the state, and decides it only for an unclaimed process |
| ProcessProtocol.InvStep | internal/process/spawn.go:11-58 | the invariant tying processes, Spawn, Stop and StopAll calls together survives every step |
| ProcessProtocol.LaterStep | internal/process/shutdown.go:13-47 | every step only moves processes and calls forward: final states, recorded errors, snapshots and claims are kept |
| ProcessRuns.FinalStateNeverChanges | internal/process/spawn.go:42-55 | in every run a Stopped or Failed process stays so, and the recorded exit error stays what the process exited with |
| ProcessRuns.ExitErrorIsReported | internal/process/spawn.go:42-54 | the error a process exits with is the one its record and its Wait report for ever |
| ProcessRuns.LeavesRunningAtMostOnce | internal/process/spawn.go:42-55 | a process leaves Running at most once |
| ProcessRuns.FinalLeftRunning | internal/process/spawn.go:36-55 | nothing is Stopped or Failed that did not leave Running earlier |
| ProcessRuns.DoneClosesOnceAfterSettling | internal/process/spawn.go:43-54 | `done` is closed at most once, when the process is dead, its state final and its exit error recorded |
| ProcessRuns.StopReturnsAfterDone | internal/process/shutdown.go:13-47 | a returned Stop has seen `done` closed: the process is dead and settled |
| ProcessRuns.ChildNeverStuck | internal/process/spawn.go:32-55 | until `done` is closed some step towards closing it is enabled |
| ProcessRuns.StopNeverStuck | internal/process/shutdown.go:13-47 | no Stop call deadlocks: it claims, a claimant signals next, and only a call that lost or has signalled waits for `done` |
| ProcessRuns.AnyoneCanStop | internal/process/shutdown.go:13-16 | any listed process can be stopped at any time, under any context |
| ProcessRuns.ChildCanExit | internal/process/spawn.go:43-43 | a live process can exit at any time with any error |
| ProcessRuns.ClaimDecides | internal/process/shutdown.go:18-25 | the claim wins exactly on a running process; a lost one changes no process |
| ProcessRuns.ClaimantSentTerm | internal/process/shutdown.go:33-46 | a Stop call that claimed its process has sent it TERM before it returns |
| ProcessRuns.ClaimantCanSignal | internal/process/shutdown.go:33-42 | a claimant can send TERM at once, and after it KILL at any time for the timeout, or for its context as soon as that is cancelled |
| ProcessRuns.OneSignaller | internal/process/shutdown.go:18-44 | of all concurrent Stop callers at most one ever signals a process |
| ProcessRuns.EachSignalOnce | internal/process/shutdown.go:33-42 | a Stop call sends TERM at most once and KILL at most once, TERM first |
| ProcessRuns.KillFollowsTerm | internal/process/shutdown.go:33-42 | every KILL was preceded by the same call's TERM, and one sent for the context by a cancellation of that context |
| ProcessRuns.ClaimedMeansClaims | internal/process/shutdown.go:18-25 | a process counts as claimed exactly when some Stop call's section found it running |
| ProcessRuns.FailedExactly | internal/process/spawn.go:43-53 | a settled process is Failed exactly when it exited with an error and no claim preceded the waiter's section |
| ProcessRuns.ErrorExitCanEndStopped | internal/process/shutdown.go:18-25 | a run in which an error exit precedes every claim and the process still ends Stopped |
| ProcessRuns.ListOnlyGrows | internal/process/manager.go:87-91 | the managed list is only ever extended |
| ProcessRuns.StopAllLeavesNoneAlive | internal/process/shutdown.go:49-84 | when StopAll returns, every process on the list at its snapshot is dead, whatever was interleaved |
| ProcessRuns.StopAllCallsMatchSnapshot | internal/process/shutdown.go:50-69 | StopAll starts one Stop per process of its snapshot, under its own context |
| StopAllRuns.SurvivorsWereInFlight | internal/process/shutdown.go:49-84 | a process alive after StopAll was not in its snapshot, and its Spawn was in flight at the snapshot or passed its context check later |
| StopAllRuns.NobodyOutlives | internal/process/shutdown.go:49-84 | with no Spawn in flight at the snapshot and none passing its check later, no process at all is alive when StopAll returns |
| StopAllRuns.ChildCanOutliveStopAll | internal/process/spawn.go:12-40 | from every reachable state with a Spawn in flight, StopAll can run to its return and leave that Spawn's process alive |
| StopAllRuns.SurvivalExactly | internal/process/spawn.go:12-40 | StopAll can leave a survivor, without any later check passing, exactly when a Spawn is in flight at its snapshot |
| StopAllRuns.InFlightWhenCancelled | internal/process/spawn.go:12-40 | a Spawn can be in flight although its context has been cancelled |
| StopAllRuns.LaunchesAll | internal/process/shutdown.go:58-69 | StopAll can launch all its Stop calls before any of them has done a thing |
| StopAllRuns.StopAllNeverStuck | internal/process/shutdown.go:49-84 | no StopAll deadlocks: it launches, returns once all its calls have, or one of them moves |
| ProcessRuns.ListedOnce | internal/process/manager.go:87-91 | no process is on the list twice |
| ProcessRuns.SpawnPassesCheck | internal/process/spawn.go:12-34 | under a live context a Spawn can pass its check, and its command can then fail to start without a trace |
| ProcessRuns.SpawnCanFinish | internal/process/spawn.go:12-57 | a Spawn can run to its end: one new running process under its waiter, last on the list, and no other change |
| ProcessRuns.SpawnedChildIsListed | internal/process/spawn.go:40-57 | a process that Spawn returned is on the list from then on |
| ProcessRuns.CancelledSpawnCreatesNothing | internal/process/spawn.go:12-16 | a Spawn whose check sees a cancelled context never starts a process |
| Backoff.BackoffDuration | internal/tor/restart.go:118-133 | the loop computes min(30 s, 2^(k-1) s), so 1 s up to the first failure and 30 s from the sixth on; every value of the running product is a power of two of at most 32 |
| Backoff.TotalBackoffClosedForm | internal/tor/restart.go:118-133 | k failures in a row cost 2^k - 1 s up to five, then 30 s more each |
| Supervisor.InstStep | internal/tor/restart.go:18-116 | the supervisor's invariant over state, children, timer and wait goroutine survives every action |
| Supervisor.NeverStuck | internal/tor/restart.go:63-114 | a supervisor that has not returned always has an enabled action |
| Supervisor.Outcomes | internal/tor/restart.go:29-61 | every outcome that is not the supervisor's to choose can happen: files, the start, the timer, an exit with any error |
| Supervisor.FreeSelect | internal/tor/restart.go:63-80 | the monitor's select can take every branch that is ready, and parks exactly when none is |
| Supervisor.ParkedSelect | internal/tor/restart.go:63-80 | once parked it takes the first branch that becomes ready |
| SupervisorRuns.NoTokenIsDropped | internal/tor/manager.go:186-211 | queued tokens plus counted instances are the instances that fired, at most the capacity, so the send never takes its default branch |
| SupervisorRuns.FiredWasReady | internal/tor/restart.go:69-79 | an instance that announced itself went from Bootstrapping to Ready before |
| SupervisorRuns.NilMeansAllReady | internal/tor/manager.go:186-215 | a nil return means every instance went from Bootstrapping to Ready |
| SupervisorRuns.BarrierFailsOnlyOnCancel | internal/tor/manager.go:201-205 | an error return follows a cancellation, and the verdict is final |
| BarrierRuns.DoomedBlocksBarrier | internal/tor/restart.go:63-109 | once the supervisor of an instance that was never Ready has given up or is bound to, nil is never returned |
| BarrierRuns.DoomedWithoutCancel | internal/tor/restart.go:81-109 | a run without a cancellation in which a supervisor gives up on an instance that was never Ready |
| BarrierRuns.WaitsForever | internal/tor/manager.go:198-211 | from then on, as long as nobody cancels, the barrier returns neither nil nor an error |
| BarrierRuns.NilPossibleExactly | internal/tor/manager.go:186-215 | some continuation returns nil exactly when there is no such instance and no cancellation has woken the barrier's select |
| BarrierRuns.BarrierMoves | internal/tor/manager.go:198-211 | the barrier can always take every branch that is ready, and parks exactly when none is |
| BarrierRuns.BarrierWakes | internal/tor/manager.go:200-206 | what wakes the parked barrier decides its branch |
| BarrierRuns.BarrierVerdicts | internal/tor/manager.go:201-215 | a received token counts one instance; a cancelled barrier returns its error and a full one nil, for good |
| SupervisorRuns.AtMostOneLiveChild | internal/tor/restart.go:24-115 | an instance has at most one live process, and outside Start it is inst.proc |
| SupervisorRuns.RelaunchAfterFinish | internal/tor/restart.go:80-109 | a launch happens only when every earlier process has exited and been reaped |
| SupervisorRuns.LaunchWasChecked | internal/process/spawn.go:12-16 | every launch follows a context check of its own that came before any cancellation |
| SupervisorRuns.ReadyOnlyFromBootstrapping | internal/tor/restart.go:69-72 | Ready is entered only by the timer branch and only from Bootstrapping |
| SupervisorRuns.ExitIsKept | internal/tor/restart.go:55-58 | what a process exited with never changes afterwards |
| SupervisorRuns.ReceivedExitHappened | internal/tor/restart.go:55-58 | the error a supervisor receives is the one its last process exited with earlier |
| SupervisorRuns.SupervisorReturns | internal/tor/restart.go:45-109 | a supervisor returns only after a cancellation or after its last process exited without an error |
| RestartRuns.CancelledForGood | internal/tor/restart.go:51-67 | a supervisor that takes a ctx.Done branch has returned for good and launches nothing more |
| RestartRuns.CleanExitForGood | internal/tor/restart.go:80-109 | so has one that receives an exit without an error |
| RestartRuns.CancelLeadsOut | internal/tor/restart.go:24-115 | after a cancellation a supervisor can reach its return by its own actions, from wherever it is |
| RestartRuns.FinishedForGood | internal/tor/restart.go:63-109 | an instance that is returned, bound to return, or cancelled before its next check is never launched or Ready again |
| RestartRuns.ReadyPossibleExactly | internal/tor/restart.go:24-109 | in every other state, after any failures, the instance can still become Ready |
| SupervisorRuns.SupervisorNeverStuck | internal/tor/restart.go:24-115 | no supervisor deadlocks in any run |
| SupervisorRuns.BackoffFollowsFailures | internal/tor/restart.go:37-105 | the counter is the number of failed starts and error exits since the last Ready, and the time slept is their total backoff |
| SupervisorRuns.SleepsAreExponential | internal/tor/restart.go:90-105 | each sleep lasts min(30 s, 2^(k-1) s) for the k failures since Ready, adding up to the closed form |
| Strings.SortedUnique | internal/metrics/registry.go:144-144 | sorting leaves no trace of the order a map was ranged over |
| Strings.LeExactly | internal/metrics/registry.go:144-144 | the sort order: a prefix first, and otherwise the smaller character at the first difference |
| LabelKey.LabelMap | internal/metrics/registry.go:126-132 | the loop folds the pairs into a map, ignoring a trailing name |
| LabelKey.LastPairWins | internal/metrics/registry.go:126-132 | a name has the value of the last pair that mentions it |
| LabelKey.OrderIrrelevant | internal/metrics/registry.go:126-137 | reordering pairs with distinct names changes neither map nor key |
| LabelKey.LabelKeyFromMap | internal/metrics/registry.go:139-150 | the printed key is the sorted entries joined by commas, for any map iteration order |
| LabelKey.PairKey | internal/metrics/registry.go:139-150 | two labels n < x print as n=v,x=w |
| LabelKey.KeyReadsBackExactly | internal/metrics/registry.go:139-150 | parsing a key gives back the label map exactly when names hold no '=' or ',' and values no ',' |
| LabelKey.KeyInjective | internal/metrics/registry.go:139-150 | different clean label maps have different keys |
| LabelKey.AloneExactly | internal/metrics/registry.go:139-150 | a label map shares its key with no other exactly when it is empty or a single label without an '=' |
| LabelKey.KeyCollision | internal/metrics/registry.go:139-150 | every other label map has the key of a different map, and of one with a single label |
| LabelKey.NameCollision | internal/metrics/registry.go:139-150 | for any texts x, y, z the maps {x=y: z} and {x: y=z} have one key |
| Metric.LabeledMetric.IncWithLabels | internal/metrics/registry.go:60-74 | afterwards the rows are again what the extended call history means |
| Metric.LabeledMetric.SetWithLabels | internal/metrics/registry.go:76-90 | the same for Set |
| Metric.LabeledMetric.RowsAreAMap | internal/metrics/registry.go:60-90 | keys are pairwise distinct and each used key has one row, holding the last Set, or 0, plus the Incs since |
| Metric.ValueExactly | internal/metrics/registry.go:60-90 | a key's value is what its last Set said, or 0, plus the number of its Incs since |
| Metric.FirstUseOrder | internal/metrics/registry.go:60-90 | the rows stand in the order in which their keys were first used |
| Metric.LabeledMetric.CleanRowsAreAMap | internal/metrics/registry.go:60-90 | with clean labels the rows are a map from label sets to those values |
| Metric.OwnRowExactly | internal/metrics/registry.go:60-90 | in every history the labels get a row of their own, exactly when they are alone with their key |
| Metric.SharedRow | internal/metrics/registry.go:60-74 | for all other labels, counting one other label set first takes away their row and changes their value |
| Socks5Wire.RequestRoundTrip | internal/health/dnsleak.go:143-149 | a server reads (domain, port) from exactly the bytes 5 1 0 3 n, the domain, and the port in two bytes (section 4 of RFC 1928) |
| Socks5Wire.ReplyRead | internal/health/dnsleak.go:155-200 | every successful reply of each address type gives its bound address and is consumed exactly (section 6 of RFC 1928) |
| Socks5Wire.AcceptedIsReply | internal/health/dnsleak.go:155-200 | whatever is accepted is a successful reply, byte for byte |
| Socks5Client.ReadFull | internal/health/dnsleak.go:203-213 | for any chunking the buffer gets the next bytes of the stream, or the stream is too short and is drained; it fails on a full buffer exactly when the last bytes came together with the error |
| Socks5Client.Handshake | internal/health/dnsleak.go:117-135 | the outcome is a function of the byte stream |
| Socks5Client.ConnectDomain | internal/health/dnsleak.go:137-201 | writes 5 1 0 3 n, the domain and the port, or nothing for an overlong domain; the outcome is a function of the byte stream |
| Socks5Client.ResolveThroughSocks5 | internal/health/dnsleak.go:94-115 | writes 5 1 0, and after the answer 5 0 the CONNECT request for port 80; the outcome is a function of the byte stream |
| Socks5Client.ResolvesExactly | internal/health/dnsleak.go:94-115 | the client learns an address exactly when the stream spells 5 0, then 5 0 and any byte, then 1 and four octets, 4 and sixteen, or 3, a length and a name, then two port bytes |
| Socks5Client.ResolveErrors | internal/health/dnsleak.go:117-201 | which error is reported, for every stream |
| SlidingWindow.TrafficPattern.RecordRequest | internal/circuit/pattern.go:22-29 | the pruned queue stays the filter of the whole recorded history by the window |
| SlidingWindow.TrafficPattern.IsBurst | internal/circuit/pattern.go:31-37 | true exactly when at least burstThreshold recorded requests are in the window |
| SlidingWindow.TrafficPattern.RequestRate | internal/circuit/pattern.go:39-55 | the rate is over the requests of the window since the oldest of them |
| SlidingWindow.RateExactly | internal/circuit/pattern.go:44-54 | rate times elapsed seconds is the number of requests; the bare number when no time has passed |
| SlidingWindow.WindowIsSuffix | internal/circuit/pattern.go:57-64 | dropping the leading old times of a sorted queue drops all old times |
| SlidingWindow.PruneTwice | internal/circuit/pattern.go:57-64 | an earlier prune loses nothing that a later window would keep |
| SlidingWindow.RateAboveTenth | internal/circuit/adaptive.go:13-14 | the rate test means more requests than ten-second spans since the oldest one |
| Renewal.AdaptiveInterval | internal/circuit/adaptive.go:7-21 | which band a request history selects, exactly, with requests arriving between its two tests, and the interval a random draw gives in it |
| Renewal.Client.Connect | internal/circuit/client.go:27-36 | succeeds exactly when the dial does, on a new connection |
| Renewal.Client.Authenticate | internal/circuit/client.go:38-61 | sends the cookie and succeeds exactly when it is readable, the write succeeds and the reply starts with 250 |
| Renewal.Client.SignalNewnym | internal/circuit/client.go:63-78 | one NEWNYM goes out on the open connection, and it succeeds exactly when the write does and the reply starts with 250; on an authenticated connection that answered all earlier ones it keeps the protocol |
| Renewal.AtMostOneOpen | internal/circuit/client.go:27-88 | in a protocol-conforming trace at most one connection is ever open |
| Renewal.Round | internal/circuit/renewer.go:127-169 | the loop goes on exactly when it is not cancelled and the NEWNYM got its 250 or a new connection was dialled and authenticated; its interval is the drawn one |
| Renewal.RunInstance | internal/circuit/renewer.go:104-170 | the loop returns exactly when the first connection fails or some round does not go on, with nothing left open; every round that was not cancelled sends one NEWNYM, on the current, authenticated connection; the k-th comes no earlier than 10k s, or 3k s in adaptive mode |
| Renewal.FailedNewnymGoesOn | internal/circuit/renewer.go:151-169 | whatever became of a NEWNYM, the loop goes on when the redial works and its AUTHENTICATE gets a line starting with 250 |
| Renewal.PacedInSeconds | internal/circuit/renewer.go:129-144 | paced means no earlier than 10k s after the start, or 3k s in adaptive mode |
| PortAllocator.Allocator.AllocatePort | internal/network/allocator.go:23-48 | the least free port of the scan window, or an error exactly when there is none; ownership is kept |
| PortAllocator.Allocator.AllocateN | internal/network/allocator.go:50-82 | the least base whose whole block is free, or an error exactly when there is none; ownership is kept |
| PortAllocator.Allocator.Release | internal/network/allocator.go:84-89 | the port leaves the set and whichever grant held it |
| PortAllocator.Allocator.ReleaseAll | internal/network/allocator.go:91-96 | nothing is allocated and no grant is left |
| PortAllocator.FirstFitUnique | internal/network/allocator.go:50-82 | first fit determines the result |
| PortAllocator.ScannedExactly | internal/network/allocator.go:30-35 | a scan looks at 1000 bases and at no port above 65535 |
| PortAllocator.Granted | internal/network/allocator.go:75-77 | a new grant keeps grants disjoint and equal to the allocated set |
| PortAllocator.Released | internal/network/allocator.go:84-89 | so does giving a port back |
| Country.FilterBlacklisted | internal/country/selector.go:31-48 | the accepted countries that are not blacklisted, in order |
| Country.FilteredCounts | internal/country/selector.go:31-48 | every country is kept as often as it is listed, or dropped altogether |
| Country.FilteredOrder | internal/country/selector.go:31-48 | the kept countries stand in the order of the list |
| Country.EveryOrder | internal/country/selector.go:22-24 | a shuffle can produce every permutation |
| Country.SelectRandom | internal/country/selector.go:14-29 | a sample without replacement of allowed countries, the head of the shuffled list; fails exactly when too few are left |
| Country.PickDifferentCountry | internal/country/daemon.go:170-185 | an allowed country other than the current one; fails exactly when there is none |
| Country.EveryAlternative | internal/country/daemon.go:170-185 | each such country can be picked |
| TorManager.Manager.CreateFromVersion | internal/tor/manager.go:70-91 | instance k gets ID k, country k / perCountry and each port at its start plus k |
| TorManager.CountryBlocks | internal/tor/manager.go:79-90 | every country gets perCountry instances in a row, in the order of the list |
| TorManager.ValidatedPorts | internal/config/validate.go:39-44 | with Validate all SOCKS ports are distinct and below 65535 |
| TorManager.ValidateExactly | internal/config/validate.go:39-44 | with sane settings Validate accepts exactly when every SOCKS port of the layout is below 65535 |
| TorManager.FamiliesDisjoint | internal/tor/manager.go:70-91 | any two of the SOCKS, control and HTTP port families are disjoint exactly when their starts differ by at least n |
| TorManager.InRangeExactly | internal/config/validate.go:39-44 | in a validated layout each port family stays within 65535 exactly when its start plus the number of instances is at most 65536 |
| TorManager.ControlPortsUnchecked | internal/config/validate.go:39-44 | for control and for HTTP ports, a validated layout with an instance whose port passes 65535 |
| TorManager.Manager.RotateInstance | internal/tor/manager.go:236-253 | exactly the named instance's country changes, even when the restart fails |
| TorManager.RotateOnce | internal/country/daemon.go:93-152 | a cycle visits the first min(total, n) instances of its shuffled order and moves exactly those with an allowed country to go to, each to one it was not in |
| TorManager.MovableExactly | internal/country/daemon.go:119-130 | of the visited instances exactly those with an alternative move, all of them when two countries are allowed |
| TorManager.RunCycles | internal/country/daemon.go:74-91 | over any number of cycles countries stay allowed while IDs and ports never change |
| TorManager.SelectCreateRotate | internal/country/selector.go:14-29 | from selection through creation to any number of cycles every instance is in an allowed country and keeps its ID and ports |
| Backends.BuildConfigData | internal/haproxy/config.go:39-83 | for any shuffle the backends are a permutation of what the instances have, and the SOCKS ports those of the instances |
| Backends.SocksBackendsAligned | internal/haproxy/config.go:43-51 | there is a SOCKS backend for exactly the ID and SOCKS port of every instance |
| Backends.SocksBackendPort | internal/haproxy/config.go:43-51 | in a laid-out table the backend with ID k has port startSocksPort + k |
| Backends.NativeBackendsExactly | internal/haproxy/config.go:53-63 | in native mode an HTTP backend for each instance with an HTTP port and no other |
| Backends.NativeSetup | internal/proxy/native.go:10-19 | the HTTP tunnel ports in order, failing exactly when one is missing |
| Backends.LegacySetup | internal/proxy/legacy.go:54-85 | the Privoxy port of every instance, failing exactly when a file cannot be written |
| Backends.BackendsMatchProxy | internal/haproxy/config.go:53-79 | the HTTP backends are a permutation of the ports the configured proxy serves |
| Caches.MetricsFetcher.FetchCountries | internal/country/metrics.go:46-74 | the answer is the one the whole call history gives; the API is skipped exactly for a readable, fresh stamp; cached lists are never empty |
| Caches.EntryIsLastRefresh | internal/health/reputation.go:254-279 | over any run, with any failed reads and writes, an entry is what the last call that decided it fetched, and is missing exactly when there is none for its key |
| Caches.KeptExactly | internal/health/reputation.go:254-279 | a write for another key keeps an entry exactly when the file could be read or there was no entry |
| Caches.UnreadableDropsOthers | internal/health/reputation.go:254-279 | two calls after which the first country's list is lost |
| Caches.StampIsLastWrite | internal/health/reputation.go:258-269 | the file's stamp is the time of the last write for any key |
| Caches.ServesLastFetched | internal/health/reputation.go:61-97 | with a working file every call returns the last non-empty list fetched for its key, and fails exactly when there never was one |
| Caches.CacheIsLastRefresh | internal/country/metrics.go:46-74 | over any run the country cache is the list and stamp of the last call that fetched and wrote one, and empty exactly when there is none |
| Caches.RunFetches | internal/country/metrics.go:46-74 | every call of a run, with any failed reads and writes, answers from what the calls before it left in the file |
| Caches.ReputationChecker.Check | internal/health/reputation.go:61-97 | the same per country; a write leaves every other country's entry as it was when the file was readable and drops it when not |
| Caches.RunChecks | internal/health/reputation.go:61-97 | the same for a run over any mix of countries |
| Version.ParseVersionOutput | internal/tor/version.go:63-91 | the first line with a usable version decides |
| Version.ThreeNumbers | internal/tor/version.go:61-88 | "Tor version a.b.c" without a fourth number is release 0 |
| Version.FourNumbers | internal/tor/version.go:61-88 | "Tor version a.b.c.d" is read as it stands |
| Version.FrontGroups | internal/tor/version.go:66-88 | a number beyond 64 bits voids the line, in the fourth place it counts as 0 |
| Version.EarlierText | internal/tor/version.go:61-66 | text before the first "Tor version " of a line changes nothing |
| Version.RoundTrip | internal/tor/version.go:63-95 | a printed version is read back exactly when its fields are non-negative and in range, whatever text follows that does not start with a digit |
| Version.PrintedVersion | internal/tor/version.go:93-95 | version 0.4.8.17 prints as it is written |
| Version.AtLeastIsLexicographic | internal/tor/version.go:147-158 | the comparison is lexicographic order on four numbers |
| Version.FeatureThresholds | internal/tor/version.go:97-145 | from which version on each feature is there |
| Version.FeaturesAreMonotone | internal/tor/version.go:97-145 | a newer version keeps every feature, and CGO implies post-quantum implies Conflux implies congestion control |

## Left out

- Processes without a started command: the early return of `Stop` for them is not modelled, because only `Spawn` makes processes and it never hands one out unstarted.
- Liveness: that a killed process eventually exits and that a fair scheduler eventually picks an enabled step is not stated; the `NeverStuck` lemmas say that such a step exists.
- Parking in the other selects: `Stop` and the two backoff waits may take any branch that is ready when they run, which allows more runs than the runtime has; the continuations that `SurvivalExactly` and `NilPossibleExactly` construct do not use that freedom.
- Durations of timers: the 5 s before KILL and the 10 s bootstrap grace are timers that may fire at any time after they were started.
- Rotation against a live supervisor: `RotateInstance` restarts a process outside its supervisor, so the supervisor theorems cover runs without rotation and without outside `Stop` calls.
- Renewal.RunInstance: the loop runs over a finite list of inputs, for every such list, since it has no bound of its own; the goroutine fan-out of `runAll` and `Stop` is not modelled, nor are the texts of the commands beyond the cookie.
- Metric.LabeledMetric.IncWithLabels: values are reals, so float64 rounding is not modelled; rendering and the registry of named metrics are left out.
- Version.ParseVersionOutput: the OpenSSL part of the version output is left out.
- TorManager.Manager.CreateFromVersion: instance objects are values in the table, so aliasing between the table and other holders of an instance is not captured.
- TorManager.ValidatedPorts: the clauses of Validate about proxy modes, log levels, profiles and the other port settings are left out, and products are unbounded integers.
- Caches.ReputationChecker.Check: upper-casing of the country code, scoring and filtering of relays, and the decoding of API answers are left out; the file's single stamp means an entry can be older than the TTL, which no contract here denies.
- PortAllocator.Allocator.AllocatePort: whether a port can be bound is one fixed answer per port during a call.
- Starting and stopping Privoxy and HAProxy, torrc generation, bridges, configuration loading, HTTP handlers, logging and the command line.
