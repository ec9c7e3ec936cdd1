# Okteto CLI: a Dafny model of its state machines, walks and encodings

Okteto is a command line for development environments on Kubernetes. Most of it is plumbing; this
project models the parts that hold state over unbounded executions or walk unbounded data, and proves what
they guarantee. Kubernetes, Syncthing, SSH, the Okteto backend, the clock, the file system and the order
of Go map iterations are answers from outside: parameters, or free choices inside a method. A theorem
therefore speaks about every answer and every order.

`dafny verify dfyconfig.toml` checks all files together.

| module | subject |
|---|---|
| `Reachability`, `Lists`, `Regroup`, `Options`, `Records` | shared vocabulary: paths and cycles, list and map transformations, optional values, the persisted record |
| `UpSession` | the retry loop of `okteto up`, its one-token shutdown handshake and its exit value |
| `PidOwnership` | the PID file between competing `up` processes, for any number of them and any interleaving |
| `PodWait` | the wait for the development pod, with a deadline that events start and clear |
| `Forwards`, `GlobalForwarding` | claiming local ports across retries, and the global forwards |
| `ProcessTree` | the recursive kill of a local process tree |
| `BuildClosure` | the walk over build dependencies, cycles allowed |
| `Dag` | building, selecting from and ordering the dependency tree |
| `DestroyAll` | the poll for the destruction of everything in a namespace |
| `DestroyProtocol`, `DeployProtocol` | what the persisted record may say at every exit |
| `EnvSteps`, `KeyValue`, `BuildVars`, `EnvLayers` | environment lists, `KEY=VALUE` entries, build variables, layers of the environment |
| `Stignore` | the transformation of `.stignore` files |

## What turned out differently from what one would expect

- A session whose state file cannot be written, and whose error is retried, waits forever: the activation
  returned before it made a channel (cmd/up/activate.go:61-68), yet the loop receives from the old one.
  `UpSession.UpContext.ActivateLoop` blocks if and only if `Deadlocks` holds, a condition on the outside answers
  alone; `UpSession.FirstStateFileBlocks` gives the simplest family of answers that meets it, and with writable state
  files none does (`UpSession.NeverBlocksWithStateFile`).
- The PID file protects only while nobody removes it under somebody else: a process that recreates the
  file keeps its old watcher and is deaf from then on (cmd/up/pid.go:91-100, cmd/up/pid.go:147-157).
  The condition is per process. Over all runs, a process that has lived through no removal since its own start is
  always told (`PidOwnership.OwnershipPerProcess`), and one that has can always be left behind for good
  (`PidOwnership.HitCanBeLeftBehind`). `PidOwnership.OwnershipCanBreak` gets there from the empty start with
  any three processes.
- A forward found by labels is marked before it is tried (cmd/up/forwards.go:158). If it is refused, its port is
  dropped and the session may still come up. A listed port can be lost if and only if one of its forwards
  has labels (`Forwards.LostIffLabelled`); two ticks are enough (`Forwards.LabelledPortCanBeLost`).
- `.stignore` files are read in pieces of at most 4096 bytes and the continuation flag is ignored
  (cmd/up/stignore.go:74), so the transformation is idempotent on lines but on files only if no piece outgrows
  the buffer (`Stignore.FileIdempotentIffShort`; for a line of letters, up to 4092 of them:
  `Stignore.LongLineIsUnstable`).
- A build graph that mentions an undeclared service panics if and only if the service is reachable
  (cmd/up/build.go:116; `BuildClosure.ServicesToCheck`).
- The comment at cmd/destroy/all.go:152 speaks of waiting before the resources are checked; the code checks them
  at once and uses the window only to decide what a failed check means. The model follows the code.
- Across dependencies two build variables can get the same name; within one dependency they cannot. It can
  happen for two dependencies if and only if one dependency name followed by `_BUILD_` is a prefix of the other
  followed by `_BUILD_`, with no newline in between (`BuildVars.CollideIffContinues`;
  `BuildVars.DependenciesCanCollide` is an instance).

## Model

| member | source | states |
|---|---|---|
| UpSession.UpContext.ActivateLoop | cmd/up/up.go:545-614 | for every sequence of outside answers, the answers alone decide how the loop ends, in which round and with which value: it exits exactly in the first round that does not go on, with the one value that round's activation returned or the message that another session took over, never with a lost connection or a transient error, with a silent synchronization only if the session never worked, and after a wait only with the own pid in the file does it go on; it blocks if and only if `Deadlocks` holds of the answers; every turn keeps the handshake (`Handshake`), and every channel carries exactly one token taken at most once (`Tokens`) |
| UpSession.UpContext.RunRound | cmd/up/up.go:558-612 | one turn keeps the loop invariant, or exits with the value the answers determine, or blocks in exactly the rounds the answers determine |
| UpSession.UpContext.Decide | cmd/up/up.go:587-609 | the loop goes on exactly after a failed token update, a lost connection or a transient error, and remembers which of them count as transient |
| UpSession.UpContext.Activate | cmd/up/activate.go:57-80 | an activation past its state file makes a fresh channel and its deferred shutdown puts one token on it without blocking; the session flags change exactly as far as the phases got |
| UpSession.UpContext.Phases | cmd/up/activate.go:82-233 | nil exactly when deactivated from outside or ended without error; otherwise the first failing phase is reported, and only a failed synchronization or the end of the session becomes a lost connection |
| UpSession.WrappingKeepsTransience | cmd/up/activate.go:134-164 | wrapping an error never changes whether it is worth a retry |
| UpSession.WhatIsLost | cmd/up/activate.go:220-248 | past the forwards, an error of the synchronization or of the session becomes a lost connection exactly if it is a lost synchronization, a change of the app, or a failed command with a silent synchronization; any other one is returned as it is; a pod that cannot be destroyed takes its place |
| UpSession.WhatIsReported | cmd/up/activate.go:82-180 | before that, the first failing phase is the error, unchanged from setup, preparation and services, and otherwise only with its text, except for transient and user errors of the development container |
| UpSession.EndsWellIff | cmd/up/activate.go:82-233 | a round ends without error exactly if all its phases do, or if the app is out of dev mode after a round in which it had come up |
| UpSession.GoesOnIff | cmd/up/up.go:587-609 | after an error the loop goes on exactly on a failed token update, a lost connection, a transient text, or a silent synchronization once the session has worked; it waits for the shutdown unless the container never came up and the connection was lost |
| UpSession.SilentSyncthing | cmd/up/errors.go:24-45 | before any success a silent synchronization ends the loop, after one it does not |
| UpSession.UpContext.Shutdown | cmd/up/up.go:709-748 | the send blocks exactly when there is no channel or it is full, and otherwise adds one token |
| UpSession.NeverBlocksWithStateFile | cmd/up/activate.go:61-68 | with writable state files no answers lead to a blocked receive |
| UpSession.FirstStateFileBlocks | cmd/up/activate.go:61-68 | a first state file that cannot be written, with an error worth a retry or a failed token update, blocks every session |
| UpSession.LeftIffUnread | cmd/up/up.go:558-562 | whether a token is left can be told from the answers alone |
| UpSession.HandshakeNext | cmd/up/up.go:558-584 | a turn that keeps the protocol extends a history that keeps it |
| UpSession.TokensNext | cmd/up/up.go:561-561 | taking the newest token and adding a full channel keeps one token per channel until its one receive |
| PidOwnership.PidController.Create | cmd/up/pid.go:74-104 | the file holds the own pid exactly if both calls succeed, is left truncated by a failed write, and the watch starts once |
| PidOwnership.PidController.Delete | cmd/up/pid.go:116-136 | the file goes away only if the own pid was read from it |
| PidOwnership.PidController.NotifyIfPIDFileChange | cmd/up/pid.go:139-199 | announces at the first write after which another pid is read, gives up at the first watcher error or at the first removal or renaming that cannot be repaired, whichever comes first |
| PidOwnership.InvStep | cmd/up/pid.go:74-199 | every step of any process keeps the ownership invariant unless an owner removes the file while another process is live |
| PidOwnership.InvRun | cmd/up/pid.go:74-199 | the invariant holds after every such run of any number of processes |
| PidOwnership.InvExceptStep | cmd/up/pid.go:74-199 | every step of any process, removals included, keeps the ownership invariant for everybody who has lived through no removal |
| PidOwnership.HitAfterIffHit | cmd/up/pid.go:116-136 | the processes tracked step by step are those that lived through a removal since their own start |
| PidOwnership.OwnershipPerProcess | cmd/up/pid.go:139-199 | over every run without any condition on the others: a live process that has lived through no removal since its own start has a write event to handle whenever it is not in the file, and with drained events it is the last writer |
| PidOwnership.OwnershipSafety | cmd/up/pid.go:139-199 | if nobody removes the file under somebody else, this holds for every live process, and with drained events only the last writer is live |
| PidOwnership.OwnerStays | cmd/up/pid.go:169-186 | if it has lived through no removal, handling an event never throws the owner out and touches nobody else |
| PidOwnership.LoserLeaves | cmd/up/pid.go:169-185 | a process that lost the file, and has lived through no removal, leaves within its pending events |
| PidOwnership.DrainingLeavesTheOwner | cmd/up/pid.go:139-199 | from every state that keeps the invariant all pending events can be handled, and exactly the owner of the file is then left live |
| PidOwnership.OnlyTheOwnerDeletes | cmd/up/pid.go:116-136 | the file disappears exactly when its owner leaves |
| PidOwnership.RemovalIsRepaired | cmd/up/pid.go:147-157 | after every run, if the owner removes the file while another process watches it, that process is in the file again once it has handled its events |
| PidOwnership.RestartHeals | cmd/up/pid.go:74-104 | after every run a process that is gone can start again, and is then watching and counts as hit by no removal |
| PidOwnership.HitCanBeLeftBehind | cmd/up/pid.go:147-157 | after every run, a live process that was hit by a removal can be left behind: the run can go on until it is live, not in the file, and has no event that will tell |
| PidOwnership.RemovalBreaksOwnership | cmd/up/pid.go:91-100 | after every run, removing the file while another process is live can be continued so that this process is left behind |
| PidOwnership.OwnershipCanBreak | cmd/up/pid.go:91-100 | such a state is reached from the empty start by any two processes, so with any three some run ends in a live process that lost the file and is never told |
| PodWait.WaitUntilRunning | cmd/up/activate.go:373-498 | returns at the first turn whose head finds the outstanding scheduling failure expired or whose input ends the wait; the scheduling error is returned if and only if the failure that started the outstanding period is older than the timeout, and it carries that failure's message; every other outcome if and only if the input of that turn has the fields that call for it |
| PodWait.Handle | cmd/up/activate.go:386-497 | one select: what ends the wait, which events start or clear the deadline, when events become ignored |
| PodWait.EndingIff | cmd/up/activate.go:386-497 | which input ends the wait how: cancellation, a watch that cannot be renewed, a running or a deleted pod, a killed pod outside a stateful set, a full volume, a failure with its message unless it may pass by itself or is the race over a veth name |
| PodWait.ProgressClears | cmd/up/activate.go:414-466 | scaling up, attaching, pulling and starting drop the outstanding failure, nothing else does |
| PodWait.OutstandingNext | cmd/up/activate.go:414-466 | a failure starts a period only if none is outstanding, clearing events end it, nothing else changes it |
| PodWait.OutstandingUnique | cmd/up/activate.go:376-385 | at most one failure is outstanding at any time |
| Forwards.Session.AddToForwarder | cmd/up/forwards.go:135-194 | for all answers of the forwarder: it connects if and only if some tick is refused nothing, at the first such tick, and fails if and only if there are ticks and every one of them is refused something; no port gets two final calls, no reverse is asked for before every forward is settled; on success a listed port is claimed if and only if no labelled forward for it was refused, so every port without a labelled forward is claimed; the lists still say what each call asked for |
| Forwards.Session.TryForwards | cmd/up/forwards.go:145-169 | one pass takes exactly the steps of `ForwardPass`, replaces exactly the looked-up names, and fails exactly if it was refused something |
| Forwards.ForwardPassKeeps | cmd/up/forwards.go:145-169 | such a pass keeps every history fact, forgets no port, and settles every forward unless it was refused something |
| Forwards.Session.TryReverses | cmd/up/forwards.go:171-185 | the same for the reverses, against `ReversePass` |
| Forwards.ReversePassKeeps | cmd/up/forwards.go:171-185 | such a pass keeps every history fact, forgets no port, and settles every reverse unless it was refused something |
| Forwards.HistoryFacts | cmd/up/forwards.go:139-188 | over any number of ticks: final calls are unique, reverses come last, only labelled ports get lost, and after a tick without refusals a listed port is claimed if and only if it was not lost |
| Forwards.AfterAgrees | cmd/up/forwards.go:149-159 | over any number of ticks, every call asks for the ports and the service that the lists still say, so a looked-up name is never replaced after its call |
| Forwards.AllAnswered | cmd/up/forwards.go:145-185 | every call is for a listed entry, with the service the manifest names or the one found for its labels, and has the answer some tick gave for that entry |
| Forwards.SettledMeansClaimedOrLost | cmd/up/forwards.go:149-165 | a settled port was claimed or lost by a labelled forward, never both |
| Forwards.LostIffLabelled | cmd/up/forwards.go:149-165 | some answers make the loop connect without a listed port if and only if one of the port's forwards has labels |
| Forwards.LabelledPortCanBeLost | cmd/up/forwards.go:158-164 | for every such list, a run of two ticks that connects with the port unclaimed |
| Forwards.RefusedLabelIsDropped | cmd/up/forwards.go:158-164 | its smallest instance |
| GlobalForwarding.GlobalForwards.AddGlobalForwards | cmd/up/forwards.go:233-268 | fails if and only if a pending entry's service is not found or its add fails otherwise than by a taken port; tries the entries in order up to the first such one, marks exactly the added ones and touches nothing behind it; without a failure every pending entry is asked for |
| GlobalForwarding.GlobalForwards.TryEntry | cmd/up/forwards.go:239-264 | one pending entry: at most one call, with its own ports and the service it names or that is found for it |
| GlobalForwarding.CompletePass | cmd/up/forwards.go:233-268 | after a pass without failure a pending entry is marked exactly if it was added, and names the service found for its labels |
| GlobalForwarding.GlobalForwards.SetGlobalForwardsLoop | cmd/up/forwards.go:196-221 | over the whole loop an entry is marked exactly by one successful add and never asked for again, always with its own ports; it ends with an error exactly at the first reached turn whose pass or start fails, is cancelled only with entries pending, and ends well exactly when none is |
| GlobalForwarding.EndUnique | cmd/up/forwards.go:196-221 | the turns determine the end of the loop |
| GlobalForwarding.GlobalForwards.IsNeeded | cmd/up/forwards.go:223-231 | true exactly when some entry is pending |
| ProcessTree.Host.TerminateChildProcess | cmd/up/up.go:772-790 | attempts exactly the proper descendants, each once and after all of its own; this is what `Attempts` computes at every depth from the number of descendants on |
| ProcessTree.Host.ShutdownHybridMode | cmd/up/up.go:750-770 | the whole family and then the command itself, or nothing without a command or a process list |
| ProcessTree.TerminatesIffNotOwnAncestor | cmd/up/up.go:772-790 | the recursion, cut off at a call depth, ends at some depth if and only if the root is not its own ancestor |
| ProcessTree.SiblingsDisjoint | cmd/up/up.go:774-781 | with unique pids different children have disjoint families |
| BuildClosure.GetDependentServices | cmd/up/build.go:108-124 | terminates on every graph; the newly marked services are each expanded once, are reachable, and have all their dependencies marked; the result is the sum of their dependency lists |
| BuildClosure.ServicesToCheck | cmd/up/build.go:67-72 | panics if and only if an undeclared service is reachable; otherwise lists exactly the reachable services, with one expansion per reachable service |
| BuildClosure.MentionedIffReachable | cmd/up/build.go:71-72 | if the expanded services are the reachable ones, so are the listed ones |
| Dag.Tree.AddVertex | pkg/dag/dag.go:86-90 | refuses exactly the known ids and keeps the graph acyclic |
| Dag.Tree.AddEdge | pkg/dag/dag.go:94-96 | refuses exactly unknown ends, self loops, repeated edges and edges that close a cycle; every accepted edge keeps the graph acyclic |
| Dag.From | pkg/dag/dag.go:83-100 | succeeds if and only if ids are unique, dependencies known and listed once, and the declared relation acyclic; the tree then is that relation |
| Dag.RefusedMeansIllFormed | pkg/dag/dag.go:92-99 | whatever was inserted before, a refused edge is the fault of the list |
| Dag.OrderIrrelevant | pkg/dag/dag.go:71-76 | the order of the listed nodes matters neither for success nor for the tree |
| Dag.Tree.Subtree | pkg/dag/dag.go:38-77 | fails exactly on an unknown id, whatever the iteration order; the new tree holds exactly what the ids depend on, with the same nodes |
| Dag.SubtreeIsLeast | pkg/dag/dag.go:54-66 | that node set is the least one with the ids that is closed under dependencies |
| Dag.Tree.Ordered | pkg/dag/dag.go:102-109 | every node once, all its dependencies before it |
| Reachability.InsertKeepsAcyclic | pkg/dag/dag.go:94-96 | an edge whose target does not reach its source closes no cycle |
| Reachability.InsertClosesCycle | pkg/dag/dag.go:94-96 | and one whose target does, does |
| Reachability.AcyclicHasSink | pkg/dag/dag.go:79-81 | an ordered walk of an acyclic graph never gets stuck |
| Reachability.Closure | pkg/dag/dag.go:54-57 | computes exactly the reachable vertices |
| DestroyAll.WaitForDestroyAll | cmd/destroy/all.go:117-174 | each outcome is characterised by the history of polls: success exactly when idle with nothing left, or idle with no sign of the destruction and never idle inside the window; after such a sign, success means nothing is left |
| DestroyAll.CheckAllResourcesDestroyed | cmd/destroy/all.go:177-202 | true exactly when the list can be read and no config map carries a resource label |
| DestroyAll.IsResourceIff | cmd/destroy/all.go:180-184 | the three labels that mark a resource |
| DestroyAll.EarlyIdleNeverReports | cmd/destroy/all.go:149-164 | after an early idle poll leftovers are never reported, only waited for |
| DestroyProtocol.RunDestroy | pkg/deployable/destroy.go:43-84 | with force every command is attempted, otherwise up to the first failure; nil exactly if all succeed; otherwise the last failure with force and the first one without is returned |
| DestroyProtocol.DestroyHelmReleases | cmd/destroy/destroy.go:602-636 | each release once; fails exactly if the listing fails or, without force, some release does, and returns that failure |
| DestroyProtocol.Command.DestroyK8sResources | cmd/destroy/destroy.go:565-600 | succeeds exactly if volumes, labels and, unless forced, helm releases do; otherwise the failure of the first of them is returned |
| DestroyProtocol.Command.DestroyCommands | cmd/destroy/destroy.go:484-501 | the commands end the run exactly on an interrupt or on an unforced failure, and what is returned is the interrupt, the failed setup or the command that failed |
| DestroyProtocol.Command.Destroy | cmd/destroy/destroy.go:449-525 | the record is deleted exactly when all stages up to its deletion passed or were forced, and then the effects are exactly the record, the volumes, the labels and the deletion, in this order; nil exactly if the commands passed too; Error exactly after a reported failure whose update works; Destroying exactly after a failed update, a divert failure or a failed deletion; the error returned is that of the stage that ended the run, or of its failed status update (`Returns`) |
| DestroyProtocol.ReachesDeletionIff | cmd/destroy/destroy.go:449-525 | the deletion is reached exactly if everything that applies passes, with failed commands and helm releases passed over under force but interrupts not; a run that does not get there is reported in the record unless the divert is to blame |
| DestroyProtocol.Command.SetErrorStatus | cmd/destroy/cfghandler.go:63-67 | the record becomes Error exactly if the update works |
| DeployProtocol.Command.Run | cmd/deploy/deploy.go:474-560 | Deployed exactly if dependencies, build, deployer, commands, manifest, the compose, endpoints and divert stages that apply, the check, the wait and the update all pass; Error exactly after a reported failure whose update works; Progressing exactly with no deploy section, an interrupt, a failed check or a failed update; silent exactly when deployed, with nothing to deploy, or interrupted |
| DeployProtocol.Command.Deploy | cmd/deploy/deploy.go:562-638 | nil exactly if every stage that applies passes, otherwise the first failure, interrupts included |
| DeployProtocol.StagesPassIff | cmd/deploy/deploy.go:562-638 | which stages have to pass |
| DeployProtocol.Command.UpdateConfigMap | cmd/deploy/cfghandler.go:77-90 | an error turns the record into Error and is returned unless the update itself fails |
| EnvSteps.RunCommandsSection | pkg/deployable/deploy.go:292-363 | command i+1 sees the base overlaid in order with the readable snapshots after commands 1..i; the persisted map is the base overlaid with all of them, and every binding given to external resources is effective in it; persisting fails exactly as `UpdateEnvs` does on the base list |
| EnvSteps.RunCommands | pkg/deployable/deploy.go:306-334 | commands run in order up to the first failure and the list only grows |
| EnvSteps.EnvStepper.Step | pkg/deployable/env_stepper.go:37-55 | a readable file replaces the snapshot and yields a list that means it; an unreadable one changes nothing |
| EnvSteps.MapToEnvList | pkg/deployable/env_stepper.go:73-79 | in any order, the list means the map |
| EnvSteps.UpdateEnvs | pkg/cmd/pipeline/translate.go:186-215 | fails exactly if the config map cannot be read or is absent, an entry has no `=`, or a needed write fails; what is written is the meaning of the list, unless that is empty |
| EnvSteps.MeaningIsLast | pkg/cmd/pipeline/translate.go:195-202 | the meaning of a list binds a name to what its last entry says |
| EnvSteps.SnapshotIsEffective | pkg/deployable/deploy.go:327-331 | bindings of the last readable snapshot are never overridden afterwards |
| KeyValue.ParseVariables | cmd/pipeline/deploy.go:557-569 | accepts exactly lists in which every entry has a `=`; the variables print as the list |
| KeyValue.PrintVariables | cmd/pipeline/deploy.go:618-621 | prints each variable in order |
| KeyValue.RoundTrip | cmd/pipeline/deploy.go:557-621 | printing and parsing gives the list back if and only if no name has a `=` |
| KeyValue.SplitPrint | cmd/pipeline/deploy.go:560-568 | splitting undoes printing if and only if the name has no `=` |
| BuildVars.ParseIffMatches | cmd/deploy/cfghandler.go:119-137 | parsing finds the one match of the pattern, whatever underscores the name has |
| BuildVars.BuildVariables | cmd/deploy/cfghandler.go:119-119 | the prefix and the five variables |
| BuildVars.SetBuildEnvVars | cmd/deploy/cfghandler.go:119-143 | the nested map holds exactly the build variables with their values and as many entries |
| Regroup.GroupsUnique | cmd/deploy/cfghandler.go:121-143 | the grouping does not depend on the order of iteration |
| BuildVars.DepKeyInjective | cmd/deploy/cfghandler.go:160-166 | two entries of one dependency never get the same variable name |
| BuildVars.CollideIffContinues | cmd/deploy/cfghandler.go:160-166 | entries of two dependencies can print as the same variable if and only if one dependency's front, name and `_BUILD_`, continues the other's without a newline |
| BuildVars.ContinuationCollides | cmd/deploy/cfghandler.go:160-166 | and then every entry of the longer one collides with an entry of the shorter one that the store can hold |
| BuildVars.DependenciesCanCollide | cmd/deploy/cfghandler.go:160-166 | an instance |
| BuildVars.GetDependencyBuildEnvVars | cmd/deploy/cfghandler.go:160-168 | exactly one variable per stored entry, with its value |
| BuildVars.DependencyVariable | cmd/deploy/cfghandler.go:164-164 | the name of a variable of a dependency |
| BuildVars.EndToEnd | cmd/deploy/cfghandler.go:113-169 | every build variable arrives under its dependency name with its value, and the number of entries is conserved |
| EnvLayers.Process.LoadDotEnv | cmd/context/create.go:517-544 | sets exactly the absent names, in any order; fails exactly on an unreadable file or a name that cannot be set, and then only part of the absent settable names is set; nothing already set changes |
| EnvLayers.Process.ExportPlatformVariables | cmd/context/use.go:248-261 | absent names get their first settable platform value |
| EnvLayers.Process.Layers | cmd/context/use.go:99-104 | each name has the first defined value among environment, loaded part of `.env` and platform, whether the load fails or not; the part is all of the file if it does not |
| Stignore.Idempotent | cmd/up/stignore.go:82-92 | on lines the transformation is idempotent |
| Stignore.TransformConcat | cmd/up/stignore.go:73-100 | it is line by line and in order |
| Stignore.AllEmitted | cmd/up/stignore.go:82-92 | emitted lines are trimmed, not empty, no comment or include, and start with `!` or contain `(?d)` |
| Stignore.TransformEmits | cmd/up/stignore.go:82-92 | an emitted line is well formed, and longer than the trimmed input exactly if it got its mark now |
| Stignore.TrimIsMiddle | cmd/up/stignore.go:82-82 | trimming removes white space at both ends and nothing else |
| Stignore.MiddleUnique | cmd/up/stignore.go:82-82 | there is only one such middle piece |
| Stignore.LineIff | cmd/up/stignore.go:82-92 | the middle piece is dropped exactly if it is empty or a comment or include, kept exactly if it starts with `!` or has the mark somewhere, and gets the mark in front otherwise |
| Stignore.SpaceCodes | cmd/up/stignore.go:82-82 | what counts as white space |
| Stignore.EmittedIsFixed | cmd/up/stignore.go:82-92 | a well formed line is emitted as it is |
| Stignore.TransformFile | cmd/up/stignore.go:73-100 | the loop writes exactly the transformed pieces of the file |
| Stignore.ReadsLine | cmd/up/stignore.go:74-80 | a line shorter than the buffer is read whole, without its line ending |
| Stignore.CutsLine | cmd/up/stignore.go:74-80 | a longer one is cut at 4096 bytes, or before a carriage return there, and the rest read as a line |
| Stignore.WrittenLineByLine | cmd/up/stignore.go:73-100 | what is written for a first line stands before what is written for the rest, whichever line ending it has |
| Stignore.IndentedPattern | cmd/up/stignore.go:82-98 | a pattern keeps its text, however it is indented, and gets the mark |
| Stignore.FileIdempotentIffShort | cmd/up/stignore.go:73-97 | on files it is idempotent if and only if no kept piece outgrows the read buffer by its mark |
| Stignore.LongLineIsUnstable | cmd/up/stignore.go:73-97 | a file of n letters, n below 4096, is stable if and only if n is at most 4092 |

## Left out

- UpSession.UpContext.ActivateLoop: sessions that receive an interrupt, and the race of `start` with a finishing loop; the one-second ticker and the counter that only decides a message.
- PidOwnership.OwnershipPerProcess: writing the file and starting the watch are one step, watchers do not fail, and nobody outside the sessions removes or renames the file; the same for `OwnershipSafety`, which follows from it.
- PidOwnership.InvRun: the controller class and the many-process machine share the reaction to an event, not a heap.
- Dag.Tree.Ordered: which of several ready vertices comes first; the graph library is modelled by its contract.
- Dag.From: the graph library's locking, caches and hashing of vertices.
- BuildClosure.GetDependentServices: the order inside the returned list; its contents are stated as a multiset.
- Forwards.Session.AddToForwarder: the forwarder's own table of ports; its answers are arbitrary instead. The timeout is the end of the given ticks.
- EnvSteps.RunCommandsSection: parsing of the `$OKTETO_ENV` file, which is taken to produce names without `=`; deployment of the external resources.
- EnvLayers.Process.Layers: the names that a context run sets itself afterwards (cmd/context/use.go:144-145, cmd/context/create.go:337).
- Stignore.FileIdempotentIffShort: one character stands for one byte when the buffer is measured, so for text beyond ASCII the condition is about encoded lengths.
- Stignore.TransformFile: reading and writing failures, and the concatenation of all written lines that is kept for an annotation.
- BuildVars.SetBuildEnvVars: base64 and JSON of the stored map, taken as the identity; a dependency name is taken as it is after its clean-up (cmd/deploy/cfghandler.go:160).
- DestroyProtocol.Command.Destroy: what happens before the Destroying record is written, and logging.
- DeployProtocol.Command.Run: what happens before the Progressing record is written, endpoints display and annotations.
- Context store: selection, creation and deletion of contexts (cmd/context/delete.go) are simple map updates.
- Error texts: an error is represented by its identity and by the text properties the code looks at.
- Kubernetes, Syncthing, SSH, BuildKit, registries, analytics, prompts, terminal handling and command wiring.
- Remote-or-local decisions and defaulting of flags: finite case splits.
