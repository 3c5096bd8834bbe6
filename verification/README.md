# Verified model of the Virtuoso Flow Plugin

Virtuoso Flow Plugin is a SKILL plugin for Cadence Virtuoso and a Python daemon, the VFP Tunnel, that
talk to each other over JSON-RPC, an s-expression channel and an event stream. This project models the
parts of both halves whose correctness is not visible in one function, and proves what they promise.

`dafny verify dfyconfig.toml` checks everything.

| files | part of the system |
|---|---|
| `Grid`, `Maze`, `Router`, `RouterSafety` | the two-layer maze router: shortest paths, who owns a cell over a whole run, when nets end connected |
| `Connectivity`, `DiffRecords`, `Renaming`, `Reconcile`, `ReconcileCases` | connectivity snapshots, what their diff reports, auto-net renames |
| `Lvs`, `LvsVerdict` | layout versus schematic: the report, and what it says of the two snapshots |
| `EventLog`, `EventDisk`, `EventRestart` | the event log, its numbers across restarts, and what a restart makes of its file |
| `EventBridge`, `EventStream`, `EventServed` | the plugin's line handler, the stream end to end, and from which starts it serves the plugin |
| `Jobs`, `JobSystem`, `JobCases`, `JobRunner`, `Fingerprint`, `Freshness` | simulation jobs under concurrent requests and runners, and the fingerprint by which results are reused |
| `Proposals`, `ParamTxn` | proposal and transaction status machines; applying parameter changes and taking them back |
| `JsonValue`, `JsonText`, `Sexpr`, `WireText`, `SnapshotWire` | the JSON and s-expression printers against readers, and the stored snapshot's way there and back |
| `Text` | string order, sorting, joining, cutting, tokens and numerals shared by the rest |

Objects that the source updates in place are classes (`RouteGrid`, `EventLog`, `Bridge`, `PollClient`,
`JobStore`, `RunStore`, `JobRunner`, `ProposalStore`, `TransactionStore`, `CellView`); each method is tied
to a function of the old state. Concurrent requests and background threads are runs of a step relation
(`EventDisk`, `EventStream`, `JobSystem`, `Proposals`): a theorem about every run is about every
interleaving. `JobRunner.Run` ties the runner's steps back to the code that takes them.

## What the code does against what its comments say

- The header of `skill/vfp_layout_route.il` (lines 14-17) says the basic router connects each net's
  terminals. Line 157 claims the target before line 158 collects the sources, so every search starts on its
  target and paints one cell. `RunConnects` gives the exact condition under which a net ends connected, and
  `RoutedButApart` a net that is reported as routed and is not connected. `RouteJoins` and `AllJoined` show
  that searches started from the net's other cells would connect it.
- `skill/vfp_transaction.il` (lines 75-84, 133-145, 184-191) says a refused or partial apply is undone. The
  undo trusts the values the proposal states; `UndoRestoresIff` gives the exact condition and
  `RefusedApplyCanChange` an input that is left changed.
- Rollback writes strings back. `RollbackRestoresIff` shows that it restores the design exactly when the
  values it replaces were strings; `RollbackMakesStrings` gives two inputs that come back changed.
- A bridge whose plugin has not handled an event yet restarts from the latest one, so events emitted while it
  ran are lost. `ServesIff`: the stream serves a plugin if and only if its cursor is positive and not beyond the
  last event; `ZeroCursorLoses` and `CursorAheadLoses` lose an event from every other start.
- The daemon appends to its file outside the lock. `RestartKeepsLogIff`: a restart goes on with the same log if
  and only if no line it keeps stands behind a later event; `UnorderedFileRepeats` is a run in which two swapped
  lines make the plugin handle one event twice.
- An empty connectivity diff says less than "unchanged topology". `DiffEmptyIff` says exactly what it means, for
  all names and for snapshots that list different terminals. A named net spelled like a canonical form ("~" and
  terminal names) can hide a terminal's move between an auto net and a named one (`LeadingTildeFools`), terminal
  names that hold "|" can hide a move between auto nets (`BarFools`), and a terminal of a named net that is no
  longer listed is not reported (`LostTerminalUnseen`, against `LostTerminalSeen`). Another net with the same
  canonical form can also be found in place of a renamed one: `RenamesReconcileIff` gives the exact condition and
  `ShadowedRenameLost` an input.
- A number is assigned twice exactly when the log gets as far again as a number that a restart has forgotten:
  `ReuseIff`; `NumberReused` is such a run.
- A rollback that looks at the proposal before the creating request has marked it leaves it applied:
  `StandsAppliedIff` says when, `RollbackOvertakes` is such a run.

## Model

| member | source | states |
|---|---|---|
| Grid.GidxInjective | skill/vfp_layout_route.il:35-38 | the computed table index identifies a cell of the two-layer grid |
| Grid.GidxOnto | skill/vfp_layout_route.il:35-38 | every index of the table is that of a cell |
| Grid.Neighbours | skill/vfp_layout_route.il:58-62 | the five candidates are exactly the unit steps and the via |
| Grid.AdjIsUnitStep | skill/vfp_layout_route.il:58-62 | two cells are neighbours if and only if layer, column and row together differ by one |
| Maze.RouteVisited | skill/vfp_layout_route.il:54-68 | no route outruns the search: its i-th cell has been reached at distance at most i |
| Maze.Expand | skill/vfp_layout_route.il:55-68 | processing the queue's head keeps the tables sound, the queue in level order and finished cells closed |
| Maze.Backtrace | skill/vfp_layout_route.il:69-73 | the predecessor chain is a route whose length is the target's distance |
| Maze.Maze | skill/vfp_layout_route.il:46-76 | terminates with a route no route is shorter than, and returns nil exactly when there is none; any target, any in-grid sources |
| Router.RouteGrid.ClaimedCells | skill/vfp_layout_route.il:79-86 | lists exactly the grid cells the net owns |
| Router.RouteGrid.Claim | skill/vfp_layout_route.il:87-89 | the table becomes the old one with the path's claims applied in order |
| Router.RouteGrid.MarkObstacles | skill/vfp_layout_route.il:94-101 | exactly the in-grid M1 cells under a device box become obstacles |
| Router.ApplyAt | skill/vfp_layout_route.il:37-39 | after any series of claims a cell belongs to the net that claimed it last and is otherwise as before |
| Router.RouteGrid.RouteTerm | skill/vfp_layout_route.il:156-159 | in the order written each search returns the one-cell path and only the terminal is claimed |
| Router.RouteGrid.RouterBasic | skill/vfp_layout_route.il:145-163 | a run claims the terminals of every net with two or more, in order, and counts those nets as routed |
| Router.CountRoutableIs | skill/vfp_layout_route.il:153-160 | the reported count is the number of nets with two or more terminals |
| RouterSafety.RunWritesAreTerminals | skill/vfp_layout_route.il:150-160 | the cells a run claims are exactly the terminals of nets with two or more |
| RouterSafety.ObstaclesKept | skill/vfp_layout_route.il:14-17 | at every moment a cell is as it was or a terminal of the net that owns it, so obstacles are claimed only as terminals |
| RouterSafety.NoShort | skill/vfp_layout_route.il:14-17 | over a whole run no owned cell changes hands if and only if different nets share no terminal cell and no terminal is owned by another net beforehand |
| RouterSafety.ClaimTakesFreeOnly | skill/vfp_layout_route.il:39-89 | claiming any route whose target the net holds takes free cells only |
| RouterSafety.RouteJoins | skill/vfp_layout_route.il:142-144 | a successful search from the net's own connected cells joins its target to them |
| RouterSafety.AllJoined | skill/vfp_layout_route.il:142-144 | a net whose searches all succeed ends connected over all its targets |
| RouterSafety.RunHoldings | skill/vfp_layout_route.il:155-159 | after any run a net holds exactly the cells whose last claiming net it is, and those it held that none claims; where terminals do not clash these are its earlier cells and its terminals |
| RouterSafety.RunConnects | skill/vfp_layout_route.il:153-160 | in the order written a net ends connected if and only if the cells it is left with touch each other, for every run; where terminals do not clash, if and only if its terminals and its earlier cells do |
| RouterSafety.RoutedButApart | skill/vfp_layout_route.il:14-17 | a net with a free route between its terminals that is counted as routed and not connected |
| Connectivity.TermMap | skill/vfp_connectivity.il:95-105 | an instance's terminal with its net is in the map if and only if some instance lists it, in listing order, and the map is as long as all terminal lists together |
| Connectivity.PinsIff | skill/vfp_connectivity.il:95-105 | an entry is in the map if and only if some instance lists that terminal on that net |
| Connectivity.AutoNetIff | skill/vfp_connectivity.il:21-24 | the auto names are "net" with one or more digits |
| Connectivity.NetMembers | skill/vfp_connectivity.il:108-122 | every net in use with all its terminals |
| Connectivity.AssocCanon | skill/vfp_connectivity.il:129-136 | looking a used net up in the canonical table gives its canonical form |
| Connectivity.ConnectivityDiff | skill/vfp_connectivity.il:145-182 | the loops produce the instance, addition and terminal records of the two snapshots in order |
| DiffRecords.RemovedIff | skill/vfp_connectivity.il:154-168 | an instance is reported removed or added exactly when it is in the first or the second snapshot only |
| DiffRecords.MasterChangedIff | skill/vfp_connectivity.il:157-162 | a master record has the old master first and exists exactly when the two differ |
| DiffRecords.NetChangedIff | skill/vfp_connectivity.il:169-180 | a net record exists exactly for a terminal listed in both snapshots whose nets have different canonical forms, with the old net first |
| DiffRecords.RewiringReported | skill/vfp_connectivity.il:169-180 | a terminal of any instance that moves between named nets, or between a net and none, is reported with both nets |
| DiffRecords.DiffsOrdered | skill/vfp_connectivity.il:152-182 | instance and master records stand before additions and those before net records |
| Renaming.CanonIff | skill/vfp_connectivity.il:124-136 | canonical forms agree for auto nets with the same members (and only for those when terminal names lack the separator), for one named net, and across the two kinds exactly where the named net is spelled like the auto net's canonical form |
| Renaming.AgreeGivesRenaming | skill/vfp_connectivity.il:88-93 | where canonical forms agree at every shared terminal, none changes kind and none is on two nets that only read alike, a one-to-one renaming of the compared auto nets exists |
| Renaming.RenamingAgrees | skill/vfp_connectivity.il:88-93 | a renaming makes canonical forms agree at every shared terminal, keeps kinds and members; any names |
| Renaming.RenamingUnique | skill/vfp_connectivity.il:184-187 | there is at most one renaming between two snapshots |
| Reconcile.DiffEmptyIff | skill/vfp_connectivity.il:138-182 | for any two snapshots: the diff is empty, no shared terminal changed kind or is on two nets that only read alike, if and only if instances and masters agree and some one-to-one renaming turns one terminal map into the other on the shared terminals, no terminal of a renamed net being missing |
| ReconcileCases.LeadingTildeFools | skill/vfp_connectivity.il:133-134 | a named net spelled like a canonical form: the diff is empty, a terminal changed kind, and no renaming exists |
| ReconcileCases.BarFools | skill/vfp_connectivity.il:133-134 | terminal names that hold the separator: the diff is empty, three terminals moved between two auto nets, and no renaming exists |
| ReconcileCases.LostTerminalUnseen | skill/vfp_connectivity.il:170-173 | a terminal of a named net that is no longer listed leaves the diff empty |
| Reconcile.LostTerminalSeen | skill/vfp_connectivity.il:143-144 | a terminal that is no longer listed shows in the diff when its auto net still carries one that is |
| Reconcile.AutoRenames | skill/vfp_connectivity.il:188-203 | the reported renames, in order |
| Reconcile.RenamesIff | skill/vfp_connectivity.il:188-203 | a rename is reported if and only if both nets are auto nets, differ, and the new one is the first whose canonical form is the old one's; all names, all snapshots |
| Reconcile.RenamesExact | skill/vfp_connectivity.il:184-203 | for all names: a renamed net is reported with the first net that has its new canonical form, when that is another auto net; nothing else is reported where both snapshots list the same terminals |
| Reconcile.RenamesReconcileIff | skill/vfp_connectivity.il:184-203 | where a renaming exists, substituting the reported renames takes A's net of every shared terminal to B's if and only if no other net is found in place of a new one, but for a named net in place of an unchanged one |
| ReconcileCases.ShadowedRenameLost | skill/vfp_connectivity.il:192-200 | a renamed auto net that is not reported because a named net spelled like its canonical form is found first |
| Reconcile.RenumberingReconciles | skill/vfp_connectivity.il:88-93 | however auto nets are renumbered one-to-one, whatever the names, the diff stays empty |
| Reconcile.LabelsDistinct | skill/vfp_connectivity.il:99 | dot-free distinct instance names with distinct terminals give distinct terminal names |
| Lvs.TermGroups | skill/vfp_layout.il:257-269 | the sorted shared co-members of every shared terminal |
| Lvs.LayoutVsSchematic | skill/vfp_layout.il:280-315 | the report computed from the two snapshots |
| LvsVerdict.InstOfLabel | skill/vfp_layout.il:222-224 | the instance of a terminal name is what stands before the dot |
| LvsVerdict.CellOfMaster | skill/vfp_layout.il:233-236 | the cell is the second part of a lib/cell/view identifier |
| LvsVerdict.DeviceOfCell | skill/vfp_layout.il:226-247 | an instance of a lib/cell/view master is a device exactly when its cell is none of the three pin cells |
| LvsVerdict.DeviceParts | skill/vfp_layout.il:286-288 | the two lists hold exactly the devices of one view only |
| LvsVerdict.MatchedCount | skill/vfp_layout.il:287-309 | the count is the number of devices in both views |
| LvsVerdict.SplitReported | skill/vfp_layout.il:271-304 | two terminals of devices listed in both views that share a net in exactly one of them make the report unclean and are both named in it |
| LvsVerdict.CleanFromSnapshots | skill/vfp_layout.il:271-308 | from the instances of the two snapshots: clean if and only if the views have the same devices and any two terminals they both list share a net in one just when they do in the other |
| Lvs.GroupIff | skill/vfp_layout.il:249-256 | a group holds exactly the shared terminals on the terminal's net |
| Lvs.ReportedIff | skill/vfp_layout.il:297-304 | mismatch records are exactly the shared terminals whose two groups differ, with those groups |
| Lvs.CleanIff | skill/vfp_layout.il:271-304 | "clean" if and only if device names agree and every two shared terminals share a net in the layout just when they do in the schematic |
| Lvs.PartnerReported | skill/vfp_layout.il:297-304 | a terminal in one of a reported terminal's groups but not the other is itself reported |
| Lvs.NamesDoNotMatter | skill/vfp_layout.il:249-256 | the whole report is unchanged by one-to-one net renamings on either side |
| EventLog.EventLog.constructor | tunnel/vfp_tunnel/event/manager.py:23-61 | a restart keeps the records of the file's last `retain` lines, and nothing else, in order, and continues from the maximum number in the whole file |
| EventLog.BadLineSkipped | tunnel/vfp_tunnel/event/manager.py:44-51 | a line that does not parse, wherever it stands, makes no difference to the records kept |
| EventLog.EventLog.Emit | tunnel/vfp_tunnel/event/manager.py:72-83 | assigns the next number and keeps the last `retain` events |
| EventLog.WindowExact | tunnel/vfp_tunnel/event/manager.py:8-12 | after any emits the window is exactly the last min(retain, seq) events of all that were emitted, consecutively numbered |
| EventLog.ListExact | tunnel/vfp_tunnel/event/manager.py:85-94 | list(since) is precisely the events since+1..latest if and only if since is at least oldest-1 (or nothing was dropped) |
| EventLog.SinceFilters | tunnel/vfp_tunnel/event/manager.py:85-94 | list takes the events one by one: that of a log in two parts is the first part's followed by the second's |
| EventLog.Wait | tunnel/vfp_tunnel/event/manager.py:96-108 | the long poll returns the first non-empty sight and an empty list only once the deadline has passed |
| EventRestart.RestartKeepsLogIff | tunnel/vfp_tunnel/event/manager.py:31-61 | a restart on a file that holds every event once goes on with the same log if and only if every line it keeps is later than all lines before it |
| EventDisk.AboveWasForgotten | tunnel/vfp_tunnel/event/manager.py:54-61 | a number above the one in memory was above the maximum on disk at some restart |
| EventDisk.OnlyForgottenRecur | tunnel/vfp_tunnel/event/manager.py:72-83 | with disk appends in any order, only numbers above the maximum on disk at a restart can be assigned again |
| EventDisk.DiskIsSafe | tunnel/vfp_tunnel/event/manager.py:63-69 | a number that reached the file is never assigned again |
| EventDisk.NoReuse | tunnel/vfp_tunnel/event/manager.py:8-12 | if every assigned number is on disk at each restart none is ever reused |
| EventDisk.ReuseIff | tunnel/vfp_tunnel/event/manager.py:54-83 | no number is assigned twice if and only if after every restart that forgets a number the log never gets as far as it again |
| EventDisk.NumberReused | tunnel/vfp_tunnel/event/manager.py:72-83 | a run in which an event and, after a restart, the next one get the same number |
| EventBridge.Bridge.DataH | skill/vfp_rpc_server.il:219-254 | a chunk's complete lines are handled in order, the cursor follows, the partial line is kept, and each refresh is called exactly when one of the handled events asks for it |
| EventBridge.ChunksDoNotMatter | skill/vfp_rpc_server.il:78-80 | however the text is cut into chunks the outcome is that of the whole text |
| EventBridge.LinesRejoin | skill/vfp_rpc_server.il:222-226 | the lines and the kept remainder, put together with line ends, are the text, and none of them holds a line end |
| EventBridge.NoiseIgnored | skill/vfp_rpc_server.il:227-228 | a line whose first word is not the marker changes nothing |
| EventBridge.UnreadableNumber | skill/vfp_rpc_server.il:229-231 | an event line without a readable number is logged and leaves the cursor |
| EventStream.ParseEvent | scripts/vfp_event_client.py:49-51 | the printed line of a one-word event type is read back as that event |
| EventStream.WirePrefix | skill/vfp_rpc_server.il:219-254 | any prefix of the client's output holds the complete lines of the first k events and part of the next |
| EventStream.PollClient.Ask | scripts/vfp_event_client.py:103-155 | one answered request prints the new events and moves the cursor over them |
| EventStream.ExactlyOnce | skill/vfp_rpc_server.il:4-18 | in every run of emits, polls, deliveries, stops and starts of the bridge and restarts of the daemon, from a positive cursor, inside the window and with files in order, the events after it are handled exactly once and in order |
| EventStream.CaughtUp | skill/vfp_rpc_server.il:4-18 | once a poll has caught up and the pipe is drained every event has been handled |
| EventServed.ServesIff | scripts/vfp_event_client.py:128-134 | in every orderly run (the client asks inside the window, restarts find their file in order) every event emitted after a first contact is handled by the time the stream is drained, if and only if the plugin's cursor was positive and not beyond the last event |
| EventServed.ZeroCursorLoses | skill/vfp_rpc_server.il:25-36 | from every start without a positive cursor a run in which a stopped and restarted bridge never handles an event emitted while it ran |
| EventServed.CursorAheadLoses | scripts/vfp_event_client.py:128-134 | from every start whose cursor is beyond the last event a run in which the next event is never handled |
| EventServed.UnorderedFileRepeats | tunnel/vfp_tunnel/event/manager.py:72-83 | two appends swapped before a restart make the plugin handle an event early and then a second time |
| Jobs.JobStore.Add | tunnel/vfp_tunnel/sim/job_store.py:43-52 | an empty or known id is refused and changes nothing |
| Jobs.JobStore.Set | tunnel/vfp_tunnel/sim/job_store.py:97-105 | a queued job can be set running or cancelled and a running one done, failed or cancelled, and nothing else succeeds; the new record keeps what is not given; a refused call changes nothing |
| Jobs.CancelIff | tunnel/vfp_tunnel/sim/job.py:9-12 | a cancel succeeds if and only if the job exists and is queued or running, and then only that job changes |
| Jobs.JobStore.FreshDone | tunnel/vfp_tunnel/sim/job_store.py:67-77 | the newest done job with the fingerprint, the earliest created of equally new ones, none exactly when there is none |
| Jobs.RunStore.Create | tunnel/vfp_tunnel/artifact/manager.py:55-66 | a new run of the job with the given status and result, created and without a result when none is given; all other runs stay |
| Jobs.RunStore.SetStatus | tunnel/vfp_tunnel/artifact/manager.py:82-85 | sets the status of a known run and nothing else; a status of another name is refused |
| Jobs.RunStore.LinkResult | tunnel/vfp_tunnel/artifact/manager.py:87-88 | links a known run to a result and changes nothing else |
| JobSystem.TerminalForever | tunnel/vfp_tunnel/sim/job.py:7-15 | in every interleaving a done, failed or cancelled record never changes again |
| JobSystem.OneRunnerPerJob | tunnel/vfp_tunnel/daemon.py:602-633 | in every interleaving at most one runner gets past mark_running for a job and its simulator command is started at most once |
| JobSystem.OwnAdvanced | tunnel/vfp_tunnel/sim/runner.py:65-161 | a runner's step touches its own run only and keeps what it knows about it |
| JobSystem.DoneJobsHaveTheirRuns | tunnel/vfp_tunnel/sim/runner.py:153-161 | with create, run and cancel as client steps every done job names its own run, done and linked to the same result |
| JobSystem.FreshHasRun | tunnel/vfp_tunnel/sim/job_store.py:67-77 | in every ordinary session a fresh job has the fingerprint, a result, and its own done run linked to that result |
| JobSystem.CancelWins | tunnel/vfp_tunnel/sim/runner.py:154-157 | a job cancelled mid-run stays cancelled although its run ends done |
| JobCases.JobIsDone | tunnel/vfp_tunnel/sim/runner.py:65-161 | a session in which a created job is run and ends done and fresh |
| JobCases.CancelledMidRun | tunnel/vfp_tunnel/sim/runner.py:153-161 | a session in which a client cancels a job whose runner is about to report: the job ends cancelled, its run done |
| JobRunner.JobRunner.Run | tunnel/vfp_tunnel/sim/runner.py:65-161 | the sequential code leaves both stores where the runner's interleaving steps lead; a queued job ends done with the result and its run when both commands succeed and failed with its run and the error otherwise; the simulator is started only for a queued job whose netlist succeeds; any other job is untouched |
| JobRunner.JobRunner.Fail | tunnel/vfp_tunnel/sim/runner.py:55-63 | the failure path takes the runner's two failing steps: the run is failed, and a running job fails with the error |
| Fingerprint.InputsFingerprint | skill/vfp_sim.il:50-72 | the nested loops build the fingerprint string |
| Fingerprint.TriplesBag | skill/vfp_sim.il:53-58 | every terminal of every instance is in the map as often as the instances list it |
| Fingerprint.SameInputsIff | skill/vfp_sim.il:38-49 | for distinct instance names, equal inputs are equal tests and, name by name, equal cells, terminals with nets and parameters |
| Fingerprint.FingerprintIff | skill/vfp_sim.il:38-49 | fingerprints are equal if and only if the tests are and the devices list the same terminals on the same nets, the same cell names and the same explicit parameters, for names without the separators |
| Fingerprint.OrderDoesNotShow | skill/vfp_sim.il:41 | the order of instances, terminals and properties never shows, for any names |
| Freshness.ReusedJobRanOnEqualInputs | tunnel/vfp_tunnel/daemon.py:552-566 | a job returned by the freshness guard ran on equal inputs, stated by device, and stays done with that record |
| Proposals.ProposalStore.Create | tunnel/vfp_tunnel/proposal/manager.py:43-51 | a duplicate id is refused and changes nothing |
| Proposals.ProposalStore.SetStatus | tunnel/vfp_tunnel/proposal/manager.py:115-123 | exactly pending to approved, rejected or expired, approved to applied or failed, and applied to rolled back succeed; a refused one changes nothing |
| Proposals.ProposalStore.ExpireStale | tunnel/vfp_tunnel/proposal/manager.py:71-97 | the sweep expires and reports exactly the pending proposals with a creation time more than a positive TTL ago, and changes nothing else |
| Proposals.StaleMonotone | tunnel/vfp_tunnel/proposal/manager.py:78-90 | what is stale stays stale later and under a shorter TTL |
| Proposals.TransactionStore.SetStatus | tunnel/vfp_tunnel/transaction/manager.py:84-92 | exactly applied to rolled back or failed succeed; a refused one changes nothing |
| Proposals.HistoriesArePaths | tunnel/vfp_tunnel/proposal/model.py:13-23 | in every run over both stores each proposal's statuses are a path in its transition table |
| Proposals.AppliedWasApproved | tunnel/vfp_tunnel/daemon.py:328-337 | a proposal created pending that was applied was approved just before |
| Proposals.RolledBackHasTransaction | tunnel/vfp_tunnel/daemon.py:378-396 | also between the two store updates a rolled_back proposal has a rolled_back transaction naming it |
| Proposals.StandsAppliedIff | tunnel/vfp_tunnel/daemon.py:328-396 | once no rollback is about to mark it, a proposal stands applied if and only if it became applied and every rollback of its transactions had looked at it before |
| Proposals.RolledBackInTurn | tunnel/vfp_tunnel/daemon.py:328-396 | a run in which a pending proposal is approved, applied and rolled back |
| Proposals.RollbackOvertakes | tunnel/vfp_tunnel/daemon.py:378-396 | a run from a pending proposal that ends, with nothing pending, in an applied proposal whose only transaction is rolled back |
| ParamTxn.CellView.SetParam | skill/vfp_schematic.il:31-71 | sets an existing parameter, fails on a missing one and changes nothing |
| ParamTxn.AssignedLast | skill/vfp_transaction.il:126-131 | a series of assignments leaves each target with the value assigned last and all others alone |
| ParamTxn.CellView.Apply | skill/vfp_transaction.il:94-197 | a cellview that does not open changes nothing; otherwise it is checkpointed, and the apply succeeds exactly when every target exists and the daemon accepts, recording the values before and after and the connectivity verdict; a failure writes the stated values back; what is on disk after each combination of saves; every outcome but success is reported as failed |
| ParamTxn.CellView.Rollback | skill/vfp_transaction.il:256-330 | does nothing unless granted and opened; then writes and saves the recorded values, tells the daemon rolled back or failed by whether all could be written, and gives the verdict on the snapshot rebuilt from the stored text, which for a stored snapshot is that on the live one |
| ParamTxn.RollbackExact | skill/vfp_transaction.il:254-291 | rollback after an apply finds every target if and only if the apply did, touches nothing else and gives each target its old value as a string |
| ParamTxn.RollbackRestoresIff | skill/vfp_transaction.il:3-8 | apply then rollback restores the design if and only if the targeted values were strings, repeated and missing targets included |
| ParamTxn.RollbackMakesStrings | skill/vfp_transaction.il:17-29 | nil comes back as the empty string and a number as its printed form |
| ParamTxn.UndoRestoresIff | skill/vfp_transaction.il:74-84 | the undo after a refused or partial apply restores the design if and only if the last entry for every target states its true value |
| ParamTxn.RefusedApplyCanChange | skill/vfp_transaction.il:184-191 | a refused apply of a proposal with a wrong stated value leaves the design changed |
| ParamTxn.StackRestoresIff | skill/vfp_transaction.il:256-291 | for every stack of transactions: undoing them in reverse order restores the start if and only if every value some of them targets was a string there, whatever the transactions write |
| ParamTxn.DisjointCommute | skill/vfp_transaction.il:284-291 | rollbacks without a common target commute |
| JsonText.JsonEsc | skill/vfp_utils.il:87-104 | the loop escapes the string character by character |
| JsonText.StringRoundTripIff | skill/vfp_utils.il:87-108 | a string survives encoding and decoding exactly when it has no control character but newline and tab, and is refused otherwise |
| JsonText.RoundTrip | skill/vfp_utils.il:106-136 | encoding and decoding gives back every value whose strings can be encoded, and stops right after it |
| JsonText.RoundTripIff | skill/vfp_utils.il:106-136 | the text of a value decodes, and then to the value itself, exactly when every string and key can be encoded |
| WireText.JsonEscapes | skill/vfp_utils.il:94-99 | the escapes the encoder writes |
| WireText.JsonArray | skill/vfp_utils.il:134-136 | the text of an array |
| WireText.JsonObject | skill/vfp_utils.il:122-132 | the text of an object, repeated keys kept |
| Sexpr.EscapeIsOnePass | tunnel/vfp_tunnel/skillrpc.py:41-43 | the three chained replacements escape every character exactly once |
| Sexpr.ReadPrint | tunnel/vfp_tunnel/skillrpc.py:35-53 | printing and reading gives the value back, false, null and empty containers being nil, and stops right after it |
| WireText.SexprEscapes | tunnel/vfp_tunnel/skillrpc.py:42 | the escapes the daemon writes; a tab stays as it is |
| WireText.SexprArray | tunnel/vfp_tunnel/skillrpc.py:37-52 | the text of a list: true is t, false and null are nil |
| WireText.SexprObject | tunnel/vfp_tunnel/skillrpc.py:48-50 | the text of a dictionary: a list of pairs, the key first |
| Sexpr.AlistScan | skill/vfp_rpc_client.il:88-97 | the scan returns the last matching entry |
| Sexpr.AlistFinds | skill/vfp_rpc_client.il:88-97 | looking a key up in a printed dictionary finds exactly the entry printed for it |
| Sexpr.AlistMisses | skill/vfp_rpc_client.il:88-97 | looking up a key the dictionary lacks gives nil |
| SnapshotWire.SnapComesBack | skill/vfp_connectivity.il:334-351 | rebuilding a snapshot from what is read gives the snapshot that was encoded |
| SnapshotWire.StoredKeys | skill/vfp_connectivity.il:207-222 | under which keys the stored text holds the schema version, the cellview, the instances, their masters and terminals, and an absent net as null |
| SnapshotWire.SnapshotRoundTripIff | skill/vfp_connectivity.il:205-222 | a snapshot sent through JSON, the s-expression channel and the rebuild equals the original exactly when its names hold no control character but newline and tab |
| SnapshotWire.VerdictFaithful | skill/vfp_transaction.il:293-300 | rollback's verdict on a stored snapshot is that on the live pre-apply one, and there is none exactly when the snapshot cannot be encoded |

## Left out

- Pin lookup, floating-point coordinates and painting in the router: the model starts from grid cells and device boxes in columns and rows.
- All Cadence calls, menus, dialogs and the dashboard: a cellview is a snapshot, a list of devices or a parameter map.
- TCP transport, subprocesses, file writing, clocks and identifiers: what they deliver are parameters or nondeterministic choices; fresh run identifiers are taken to be fresh.
- Persistence of jobs, proposals and transactions: `_persist` runs outside the lock, so files need not agree with memory under overlapping calls.
- The netlist and simulator commands inside a run: each is one choice of success or failure, and reading the metrics file belongs to the simulator's.
- The freshness branch of job.create and the rollback pre-flight of transaction.rollback only read; they are not steps of their own.
- Permissions, schema validation, sessions, result storage, provenance and constraint checks.
- Numbers other than integers in the two printers: floats are printed by `%g` and `repr`, which are lossy or library code.
- JsonText.Read: does not read \u escapes, fractions or exponents, because the encoder prints none for these values; repeated object keys are kept as they come.
- Sexpr.Read: does not read symbols other than `t` and `nil`, because the printer writes none.
- EventBridge.Parse: a number token counts only when all of it is a decimal integer, because the client prints no other; SKILL's own atoi would also accept trailing text.
- EventStream.ExactlyOnce: takes the callbacks of a killed client to end with it. The handlers do not look at which child calls them (skill/vfp_rpc_server.il:219, 256, 262), so data delivered after the next start would be read as the new client's and a late exit would hide the running one. What a killed or exited client had printed and the plugin had not received is lost, as a pipe's content is; a failing request is no step.
- Event types are single words, as all the daemon's are; payloads and timestamps do not matter to the model.
- EventRestart.RestartKeepsLogIff: takes every emitted event to be in the file once; appends that are lost or still under way at a restart appear in `EventDisk` only. The runs of `JobSystem` and `Proposals` are within one daemon's life.
- Fingerprint.FingerprintIff: is for names and values that do not hold the separators which end their place in the string; the half that any names can have is OrderDoesNotShow.
- DiffRecords.NetChangedIff: is for snapshots in which no terminal name occurs twice (`Reconcile.LabelsDistinct`); where one does, the loop compares with its first entry only.
- LvsVerdict.SplitReported: is for distinct, non-empty instance names without dots, as the source takes them to be (skill/vfp_layout.il:220-221); `Lvs.CleanIff` and `Lvs.ReportedIff` are for any names.
- Freshness.ReusedJobRanOnEqualInputs: inherits that condition on names and values.
- ParamTxn.CellView.Apply: of a cellview only the parameters are kept; whether opening, copying and saving succeed and what the two connectivity snapshots read are parameters.
- The geometry diff of skill/vfp_layout_txn.il, the router back-end registry, metric parsing and the extension registry.
