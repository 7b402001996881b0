# Baetyl edge node: a verified model

This project models the part of Baetyl that keeps an edge node in the state the cloud asks for, and proves what
that part promises. Paths and lines below refer to the Go sources of the repository.

- **Reconciler** (`engine/engine.go`, `engine/utils.go`): one round aligns the reported applications with the
  desired ones, computes what to stop and what to start, rejects applications whose host ports collide, and
  carries out the rest. Modules `AppLists`, `Quiescence`, `Reconcile`, `InitRound`, `InitRuns`,
  `TwoProcesses`, `BlindRounds`, `Round`, `RoundRefines`, `Ports`, `PortExclusion`, `PortComplaints`,
  `PortSurvival`, `RunningPorts`, `Services`, `ServiceExclusion`, `ServiceComplaints`.
- **Garbage collector of object configurations** (`engine/clean.go`, with the mounts of `sync/app.go`). Modules
  `Garbage`, `Collector`, `GarbageSafety`, `GarbageMeaning`, `GarbageLimits`, `GarbageCases`, `GarbageFiles`,
  `Mounts`, `MountCases`.
- **Local store as a cache of the cloud** (`sync/desire.go`, the lookups of `engine/engine.go`) and the **shadow
  record** of the node (`node/node.go`). Modules `Keys`, `Storage`, `Sync`, `Closure`, `Shadow`.
- **Liveness prober** (`ami/native/prober`): workers that count failures, and the manager that starts and stops
  them. Modules `Prober`, `Registry`, `ProbeManager`.
- **Log tail** (`ami/native/native_log.go`): the backward scan for the last lines. Module `TailScan`.

`Model` holds the shared types. Verify everything with `dafny verify dfyconfig.toml`.

## How to read it

- Go code that changes maps, fields or arrays in place is a method, usually of a class with the same fields
  (`Reconciler`, `RoundMaps`, `ServiceMaps`, `Engine`, `Syncer`, `Worker`, `Manager`, `Node`), proved equal to
  a function of the old state. The lemmas are about those functions.
- A Go loop over a map visits its keys in an unspecified order. The methods pick the next key freely; the
  functions take the order as an argument, and every result about them is for all orders.
- The order in which the store hands out the applications is the argument `scan`, and because the code ignores
  the error of that loop (`engine/clean.go:97-107`), `scan` may be any part of the store. `Complete` says that
  nothing was missed.
- Rounds of two processes, exits of workers and store transactions are atomic steps of state machines
  (`TwoProcesses`, `Registry`, `Shadow`, `Closure`); the main results there hold for every run. `RoundRefines`
  connects the imperative round of `Round` with the first of these machines, `ProbeManager` and `Prober` perform
  the steps of the second with the same functions.
- Every lemma is marked `{:induction false}`: each induction is written out in its body.
- The statistics of an application always carry a map of instances. Where that map is nil the code would panic
  (`engine/utils.go:56`, `engine/utils.go:194`).

## What the code does not promise

Facts about the code. Each has an exact condition, a concrete input, or both.

- The init process sees only the first reported and the first desired application whose name contains the core
  name (`engine/engine.go:656`). It plans to stop a desired one exactly when the first desired one does not run
  and a later one does (`InitRound.InitStopsDesiredExactly`, case `InitRound.InitStopsDesired`), and reaches the
  desire exactly when `InitRound.InitConvergesExactly` says, in several rounds when
  `InitRuns.RoundsConvergeExactly` does (case `InitRound.InitLeavesStray`). Its plan is
  justified exactly when `InitRound.InitPlanJustified` says; hence the conservation law
  `TwoProcesses.MismatchConserved` asks that no init round begins unjustified.
- When the statistics cannot be collected, a round starts every managed application again
  (`Reconcile.BlindRound`, `InitRound.BlindInitRound`); a start that fails and leaves the application absent then
  adds a mismatch (`Reconcile.StartHarmsExactly`). `BlindRounds.MismatchAccounted` is the law with such rounds.
- A host port that several applications claim need not keep any of them when other ports are contested too
  (`PortSurvival.ContestedPortCanLoseAll`); `PortSurvival.ContestedPortsKeptExactly` says exactly when it does.
- Exclusivity is about what is started: a rejected application that runs already keeps running with its port.
  `RunningPorts.PortSharedExactly` and `RunningPorts.PortSharedForeseen` say exactly when two applications end up on
  one host port (case `RunningPorts.PortSharedAfterRound`).
- `checkPort` maps services to applications by service name. It keeps a port exclusive when each name that asks for
  it has one owner (`ServiceExclusion.ServicePortsExclusive`), and may fail to without
  (`ServiceExclusion.PortCheckNeedsUniqueServices`); when one port is contested `ServiceExclusion.OneContestExactly`
  and `ServiceExclusion.PortLeftSharedExactly` give the outcome. `checkService`, whose call in the round is commented out
  (`engine/engine.go:325-326`), establishes more than that.
- The collector keeps one version of each used configuration and one of each listed application. A configuration is
  safe exactly when `GarbageSafety.SafeExactly` says, and a second pass is idle exactly when
  `GarbageSafety.IdleExactly` says; cases are two live versions (`GarbageCases.LiveMountDeleted`,
  `GarbageCases.SecondPassDeletes`), a running version that the desire supersedes
  (`GarbageLimits.RunningVersionLosesConfig`) and a scan that failed part way
  (`GarbageLimits.ScanCutShortDeletes`).
- A volume is redirected to the directory of the last version the volumes of its application name
  (`sync/app.go:51-62`), while the collector counts the version of the mounted volume. A mounted directory is safe
  exactly when `Mounts.MountedDirectoryExactly` says (case `MountCases.MountedDirectoryLost`).
- `recycle` removes the whole directory of a name (`engine/clean.go:58-59`), so a referenced version loses its
  files exactly when another version of the name is unreferenced (`GarbageFiles.RecycleFilesExactly`, case
  `GarbageCases.RecycleTakesReferenced`).
- Keys join name and version with a dash that may occur in both (`Keys.CollisionExactly`, case
  `Keys.DashedVersionsCollide`).
- An application whose volumes name one configuration at two versions is synchronized at the last of them only;
  its lookups succeed exactly when `Closure.ClosedExactly` says (case `Closure.TwoVersionsMiss`).
- An application added while its probe worker is on its way out ends up without a probe, exactly as
  `Registry.AddProbesExactly`, `Registry.DoomedStays` and `Registry.AddWhileDoomedIsLost` say (case
  `Registry.ReAddCanBeLost`).
- The worker for an application with only a startup probe is given no specification
  (`ProbeManager.Manager.AddApp`), though its loop starts by reading one.
- For a file that does not end with a newline and has more lines than asked for, the log tail has one line too
  many (`TailScan.TailLinesExactly`, case `TailScan.OneLineTooMany`).

## Model

| member | source | states |
|---|---|---|
| AppLists.AlignApps | engine/utils.go:258-277 | for some order of the leftover names the result is the aligned list of the specification, whose meaning the four rows below state |
| AppLists.LastEntryCounts | engine/utils.go:262-265 | of several entries with one name the last one counts |
| Quiescence.AlignedExactly | engine/utils.go:258-277 | for every order of the leftover loop the aligned list holds exactly the reported entries, no name twice, every desired name before every undesired one |
| Quiescence.AlignIsPermutation | engine/utils.go:258-277 | the aligned list is a permutation of the report, for every order |
| Quiescence.AlignedInOrder | engine/utils.go:258-277 | the entries the desire names come in the order of the desire; next to an empty list the report is left as it is, duplicates included |
| Quiescence.QuiescentExactly | engine/utils.go:258-277 | for duplicate-free lists, the aligned report equals the desired list as a sequence if and only if both hold the same pairs, for every order |
| RoundRefines.SettledExactly | engine/engine.go:263-290 | a round finds equal lists, and so performs nothing, if and only if no name has a version other than the desired one |
| AppLists.GetDeleteAndUpdate | engine/engine.go:366-384 | for lists with any duplicates: the delete set is exactly the reported names nobody desires, at the last report; the update set is exactly the desired names whose last desired version is not among the reports |
| AppLists.FilterAppLike | engine/engine.go:647-661 | a nil filter keeps everything, otherwise the result is the specification of the next row, once per module |
| AppLists.FirstLikeExactly | engine/engine.go:650-659 | for one module only the first entry whose name contains it is kept, none when there is none |
| AppLists.LikeInOrder | engine/engine.go:647-661 | the modules are taken in order, each for itself |
| AppLists.FilterAppNotLike | engine/engine.go:663-681 | a nil filter keeps everything, otherwise the result is the specification of the next row |
| AppLists.NotLikeExactly | engine/engine.go:663-681 | an entry is kept if and only if it is listed and its name contains no module; distinct names stay distinct |
| AppLists.NotLikeInOrder | engine/engine.go:663-681 | the entries that stay keep order and number |
| AppLists.MatchesExactly | engine/engine.go:663-681 | an entry matches if and only if its name is some text, a module name and some text |
| Reconcile.DividedByName | engine/engine.go:302-313 | the main process plans over every entry whose name does not contain baetyl-core, the init process over the first that does |
| Reconcile.CorePlanExactly | engine/engine.go:302-313 | from an accurate report the core process plans to stop exactly the managed running names nobody desires and to start exactly the managed desired names that do not run at the desired version |
| Reconcile.CoreRoundConverges | engine/engine.go:302-338 | carrying out the whole plan of the core process leaves every name it manages at the desired version, or absent when undesired |
| Reconcile.StartHarmsExactly | engine/engine.go:386-401 | starting a desired version adds a mismatch if and only if the start fails, leaves the application absent and it was right before |
| Reconcile.BlindRound | engine/engine.go:245-248 | when the statistics cannot be collected the report is empty: the core process stops nothing and starts every desired application it manages again, right or not |
| InitRound.FirstDesiredIsFirstReported | engine/utils.go:258-277 | alignment makes the first desired core application, when it runs, the one entry of the report that the init process sees, for every order |
| InitRound.InitStopsDesiredExactly | engine/engine.go:307-313 | the init process plans to stop a desired application if and only if the first desired core application does not run while a later one does |
| InitRound.InitPlanJustified | engine/engine.go:307-313 | for any desired list, every operation init plans concerns a mismatched name and mends it if and only if the first desired core application runs or no later one does, and no later entry of its name supersedes its version (unless it runs at that version) |
| InitRound.InitPlanWithin | engine/engine.go:307-313 | for any lists the init process plans only operations on names that contain the core name |
| InitRound.InitStopsDesired | engine/engine.go:307-313 | two desired core applications of which the second runs: the init process plans to stop it |
| InitRound.InitLeavesStray | engine/engine.go:307-338 | two core applications run and none is desired: a failure-free round leaves one |
| InitRound.BlindInitRound | engine/engine.go:245-248 | with an empty report the init process stops nothing and starts the first desired core application |
| InitRound.InitConvergesExactly | engine/engine.go:307-338 | for any desired list a failure-free init round reaches the desire if and only if no later entry supersedes the first desired core application, and the other core names that are wrong are none when it runs, or else at most one stray while no desired core application runs |
| InitRuns.RoundsConvergeExactly | engine/engine.go:307-338 | k failure-free init rounds reach the desire if and only if at most k core applications run when none is desired, or else the first round does |
| TwoProcesses.ActMends | engine/engine.go:331-345 | a successful planned operation removes exactly its own name from the mismatches, a failed one leaves them as they were, and the rest of the plan stays justified |
| TwoProcesses.EventConserves | engine/engine.go:277-345 | one event of either process, unless it begins a blind round or an unjustified init round, keeps the invariant of both plans, and the mismatches drop by one on a success and by nothing otherwise |
| TwoProcesses.MismatchConserved | engine/engine.go:277-345 | for any desired list, over any interleaving of the rounds of the two processes, with any failures, mismatches at the end plus successful operations equal mismatches at the start, as long as no round is blind and no init round begins unjustified |
| TwoProcesses.OneCoreRunsSafe | engine/engine.go:302-313 | when at most one core application is desired no init round begins unjustified |
| TwoProcesses.StartsClean | engine/engine.go:277-283 | a node with no round in progress satisfies the invariants of the runs |
| TwoProcesses.EachKeepsToItsOwn | engine/engine.go:302-310 | in every run, for any desired list and with blind rounds, the core process operates only on names without the core name, the init process only on names with it |
| TwoProcesses.OtherProcessInvisible | engine/engine.go:302-345 | in every run, deleting all events of one process changes neither what runs under the names of the other nor what that other still has planned |
| BlindRounds.MismatchAccounted | engine/engine.go:236-345 | with blind rounds too: mismatches at the end plus mended names equal mismatches at the start plus right applications that a failed start took away |
| Round.Reconciler.ReportAndApply | engine/engine.go:277-345 | the applications that run afterwards are the replay of a log of operations, empty when the lists are equal, and otherwise as the two rows below say; every failed start appends its error to the cause of its entry, which keeps name, version, status and instances, or makes a blank one; every other entry is as the port check left it, and every rejected application carries its own cause; a failed report or fetch changes nothing; without delete nothing is stopped |
| Round.StepExactly | engine/engine.go:314-401 | each operation is planned and ends as the surroundings say, no name comes twice, stops only when deleting and before every start, nothing after a failed stop, no start of a rejected application |
| Round.VerdictExactly | engine/engine.go:314-345 | a round succeeds only after all it planned and with its reports sent, which it skips while there are no statistics; once its reports go through it fails only on a failed stop |
| Round.Reconciler.DeleteApps | engine/engine.go:331-338 | stops names in any order up to the first failure, and all of them if and only if none fails |
| Round.Reconciler.ApplyApps | engine/engine.go:386-401 | starts every name of the update exactly once, in any order, whatever fails; the statistics change at the failed ones alone |
| Round.Reconciler.ApplyOne | engine/engine.go:391-397 | a start changes only its own name; a failed one appends its error to the cause of its entry and leaves name, version, status, instances and earlier causes, or makes a blank entry where there is none; a success leaves the statistics |
| RoundRefines.RoundIsRun | engine/engine.go:277-345 | whatever one round performs is a run of the two-process protocol, ending in the same running applications |
| RoundRefines.InterleavedRound | engine/engine.go:277-345 | and so is the round with any enabled events of the other process in between; under the names the process manages the node ends as the round alone leaves it |
| RoundRefines.StartedPortsExclusive | engine/engine.go:327-339 | no two applications that a round starts share a host port |
| RunningPorts.RunsRightExactly | engine/engine.go:327-345 | after a clean core round a managed desired application runs its wanted version if and only if the port check did not reject it or it ran that before |
| RunningPorts.PortSharedExactly | engine/engine.go:327-345 | of two applications that claim one host port at least one is rejected, and both run their wanted versions after the round if and only if every rejected one did before |
| RunningPorts.PortSharedForeseen | engine/engine.go:327-345 | on stable inputs the same with the rejections decided before the round |
| RunningPorts.PortSharedAfterRound | engine/utils.go:217-228 | a desired application that runs, with its instance known by another name, loses its port to one listed before it, which the round starts beside it |
| RoundRefines.RoundConverges | engine/engine.go:277-345 | a core round with delete on, without port rejection and without failure ends with every managed name at its desired version |
| Ports.RoundMaps.CheckMultiAppPort | engine/utils.go:156-255 | for some order of the ports the three maps end as the specification says: stats as left by the contests, the rejected names out of both apps and update |
| Ports.RoundMaps.ContestPort | engine/utils.go:210-250 | one iteration of the port loop on the live stats is one contest of the specification |
| Ports.RoundMaps.FindFavourite | engine/utils.go:217-228 | the favourite among the claimants, read from the stats as they are at that moment |
| Ports.FindNoHostPort | engine/utils.go:164-178 | the flag is true if and only if no port of any service is nonzero |
| PortExclusion.EnrolledExactly | engine/utils.go:159-208 | claimants of a port are exactly the listed unreplicated applications with that host port, and the first loop rejects and records exactly the replicated ones with a host port |
| PortExclusion.Exclusive | engine/utils.go:156-255 | for every order, of the listed applications that remain no two share a nonzero host port and none with a host port has replica over one |
| PortComplaints.NoSharedPort | engine/utils.go:156-256 | the same on the services: no nonzero port of a service of one listed application that stays is a port of a service of another |
| PortExclusion.JustifiedAndRecorded | engine/utils.go:179-254 | a rejected application is replicated with a host port or shares a host port with another listed one, and its stats entry has a cause |
| PortExclusion.ConflictsAreRejected | engine/utils.go:179-254 | conversely every listed replicated application with a host port is rejected, and of two sharing a port at least one |
| PortExclusion.StatsFrame | engine/utils.go:229-249 | the stats of an application that stays are unchanged; a rejected one keeps what it had, or gets a blank entry at its version, and only gains cause text on its own instance |
| PortComplaints.ContestComplains | engine/utils.go:217-249 | at a contested port each claimant but the favourite gains, once for each claim, the complaint with that port, itself and the favourite, and nobody else gains any |
| PortComplaints.ReplicaComplains | engine/utils.go:163-198 | a replicated application with a host port gains the complaint with its name and is rejected, any other leaves statistics and rejections alone |
| PortComplaints.ComplaintsTrue | engine/utils.go:156-256 | over a whole check earlier causes stay in front, and each added complaint names the application itself and its replicas, or a port it claims and another claimant that won it |
| PortComplaints.ClaimantsQueue | engine/utils.go:199-207 | claimants queue in the order of the list |
| PortComplaints.CompetesExactly | engine/utils.go:158-210 | competing for a port and being replicated with one, on the list and the services |
| PortExclusion.FavouriteMeans | engine/utils.go:217-228 | the favourite is the first claimant with an instance in the stats, else the first claimant |
| PortSurvival.ContestedPortsKeptExactly | engine/utils.go:210-250 | every contested port keeps a claimant in every order if and only if every application that claims two contested ports and is not the winner of one comes, at the other, after its winner, which has an instance already |
| PortSurvival.StableOutcome | engine/utils.go:210-250 | under that condition the rejections are the same for every order: the replicated applications with a host port, and the claimants of a contested port other than the winner the given stats name |
| PortSurvival.ContestedPortCanLoseAll | engine/utils.go:222-248 | three listed applications and two ports without stats: one order takes a port from all its claimants, because a loser gains the stats entry that the later contest reads |
| Services.ServiceMaps.CheckService | engine/utils.go:9-65 | for some order of the service names the three maps end as the specification says |
| Services.ServiceMaps.CheckPort | engine/utils.go:67-154 | for some order of the ports the three maps end as the specification says |
| ServiceExclusion.ServiceNamesUnique | engine/utils.go:9-65 | for every order, no service name is in two listed applications that remain |
| ServiceExclusion.ServicePortsExclusive | engine/utils.go:67-154 | when each service name that asks for a host port belongs to one listed application, for every order, the port stays under one service name at most, and its application has no replicated service with a host port |
| ServiceExclusion.ServiceThenPort | engine/utils_test.go:213-215 | the two checks in this order leave no shared service name and no shared host port: the first establishes what the second needs |
| ServiceComplaints.AsksExactly | engine/utils.go:76-104 | offering a service and asking for a port, on the services |
| ServiceComplaints.FirstPresentMeans | engine/utils.go:29-38 | a contested service name stays with the first user that has an entry in the statistics, else with the first user |
| ServiceComplaints.ContestServiceComplains | engine/utils.go:39-59 | each other user gains the complaint with the service, itself and the keeper, under that service, and no other cause changes |
| ServiceComplaints.ContestServiceFrame | engine/utils.go:39-59 | nothing else of the statistics changes, and new entries and instances start blank with the name of the service and the application |
| ServiceComplaints.UsersQueue | engine/utils.go:11-19 | users queue in the order of the list |
| ServiceComplaints.FavouriteServiceMeans | engine/utils.go:114-126 | a contested port stays with the first service whose application has an instance of it, else with the first service |
| ServiceComplaints.ContestPortComplains | engine/utils.go:127-148 | each other service leaves the complaint with the port, itself and the keeper with the application that owns it, and no other cause changes |
| ServiceComplaints.ContestPortFrame | engine/utils.go:127-148 | nothing else of the statistics changes, and a new instance starts blank with the name of the service |
| ServiceComplaints.ReplicasComplain | engine/utils.go:81-99 | a replicated service gains its complaint once for each nonzero host port, and its application is rejected when there is one |
| ServiceComplaints.OwnerIsLast | engine/utils.go:71-77 | the application behind a service name is the last listed one that offers it |
| ServiceComplaints.ServicesQueue | engine/utils.go:71-104 | services queue for a port in the order of the list |
| ServiceExclusion.PortCheckNeedsUniqueServices | engine/utils.go:67-154 | without unique service names the port check rejects a bystander and leaves two applications on one host port |
| ServiceExclusion.OneContestExactly | engine/utils.go:67-154 | when no other port is contested, for every order: rejected are exactly the applications with a replicated service with a host port and the owners of the service names that lose the port |
| ServiceExclusion.PortLeftSharedExactly | engine/utils.go:67-154 | and so exactly when the port is left to two applications |
| Garbage.GetUsedObjectCfgs | engine/clean.go:194-219 | the uses recorded, one version per configuration name, for some order of the applications; what they are is in the five rows below |
| GarbageMeaning.RefersExactly | engine/clean.go:197-202 | a mount name stands for the configuration of the last volume of that name that has one |
| GarbageMeaning.EveryServiceCounts | engine/clean.go:208-216 | the mounts considered are those of every service |
| GarbageMeaning.MountsExactly | engine/clean.go:208-216 | an application mounts a configuration if and only if some mount of some service has a name that stands for it |
| GarbageMeaning.RecordedExactly | engine/clean.go:208-216 | an application records every configuration it mounts, at the version its last such mount stands for |
| GarbageMeaning.UseAppExactly | engine/clean.go:203-216 | a finished job adds no use, any other application overrides with what it records |
| Garbage.GetFinishedJobs | engine/clean.go:221-249 | exactly the job applications with at least one reported instance whose reported instances all succeeded |
| GarbageMeaning.FinishedExactly | engine/clean.go:221-249 | on the instances themselves: some reported instance has the name of the job, and every one that has succeeded |
| Garbage.GetDelObjectCfgs | engine/clean.go:142-192 | exactly the object configurations that an obsolete application, or a finished occupied one, mounts with auto-clean, for every iteration order |
| GarbageMeaning.AutoCleansExactly | engine/clean.go:146-162 | an application gives a configuration up if and only if some mount of some service asks for cleaning and its name stands for it |
| GarbageMeaning.CleanableExactly | engine/clean.go:142-192 | deletable are exactly the stored configurations with an object that an obsolete application, or an occupied one whose job is finished, gives up |
| Collector.Engine.CleanObjectStorage | engine/clean.go:67-140 | fails without effect when the node or the configurations cannot be read; otherwise returns the number of deletions, keeps in the store exactly the rest and those whose deletion fails, and leaves the tree that the delete loop produces |
| Collector.Engine.ScanApps | engine/clean.go:95-106 | the occupied and obsolete applications of whatever part of the store the scan reached |
| GarbageMeaning.OccupiedVersionsExactly | engine/clean.go:86-94 | occupied are the names of all four lists; desired system entries count before reported system ones, those before desired and these before reported ones, and within a list the last entry does |
| Collector.Engine.DeleteAll | engine/clean.go:116-137 | visits every deletion once in some order, changing store and tree as specified |
| GarbageSafety.OccupiedExactly | engine/clean.go:86-101 | the occupied applications are exactly the scanned ones at the recorded version of their name |
| GarbageSafety.ObsoleteExactly | engine/clean.go:102-104 | the obsolete application of a name is the first scanned one of the latest update time among those not occupied |
| GarbageSafety.MountedSurvives | engine/clean.go:67-140 | if live mounts name each configuration at one version and the scan was complete, for every order a pass deletes no configuration mounted by an occupied application, unless that application is a finished job |
| GarbageMeaning.ServiceMountSurvives | engine/clean.go:67-140 | the same for any mount of any service, on the volumes themselves |
| GarbageSafety.SafeExactly | engine/clean.go:107-116 | for any scan and without the one-version hypothesis: a configuration is safe for every order if and only if it is not cleanable or some live application mounts its name and all that do last mount this version |
| GarbageSafety.DeletesExactly | engine/clean.go:107-116 | a pass deletes exactly what is cleanable and not a recorded use |
| GarbageMeaning.InUseExactly | engine/clean.go:107-116 | a key is a recorded use if and only if it is the key of some configuration name at its recorded version |
| GarbageSafety.SecondPassExactly | engine/clean.go:67-140 | what a second pass over the unchanged node deletes, for any orders of the two passes and any store errors |
| GarbageSafety.SecondPassIdle | engine/clean.go:67-140 | with one version per name a second pass retries exactly the deletions that failed, so nothing when none failed |
| GarbageSafety.IdleExactly | engine/clean.go:194-219 | the second pass is idle for all orders if and only if no cleanable configuration is disputed between two live versions |
| GarbageLimits.ScanCutShortDeletes | engine/clean.go:97-107 | the scan error is overwritten unread: a scan that stops early makes the pass delete a configuration that an occupied application mounts |
| GarbageLimits.RunningVersionLosesConfig | engine/clean.go:86-94 | desire overrides report, so the configuration of a version that is still reported running is deleted |
| GarbageCases.LiveMountDeleted | engine/clean.go:194-219 | two live applications mount two versions of a configuration: some order of the pass deletes the first |
| GarbageCases.SecondPassDeletes | engine/clean.go:194-219 | on the same store a second pass in another order deletes what the first kept |
| GarbageCases.SecondServiceKept | engine/clean.go:208-216 | a running application mounts a configuration in its second service and an obsolete one would give it up: nothing is deleted |
| GarbageFiles.OtherVersionsSurvive | engine/clean.go:117-137 | for any order and any failures, the directory of a configuration outside the deletions survives |
| GarbageFiles.TreeAfter | engine/clean.go:117-137 | what any visited part of the deletions leaves of a name directory |
| GarbageFiles.OrderIndependent | engine/clean.go:117-137 | the resulting tree does not depend on the order of the delete loop |
| GarbageFiles.DirectoryGoneExactly | engine/clean.go:132-136 | a name directory is gone at the end if and only if it had entries and all of them are deleted versions |
| Collector.Engine.Recycle | engine/clean.go:15-65 | succeeds if and only if the node, the configurations and the stored application of every entry of all four lists can be read; a failure changes nothing; a success keeps in the store exactly the rest and those whose deletion fails, and removes the name directories it can |
| GarbageFiles.ReferencedExactly | engine/clean.go:29-41 | a key is collected if and only if a volume of a listed application refers to it |
| GarbageFiles.RecycledExactly | engine/clean.go:20-53 | what a recycle takes is exactly the configurations with an object that no volume of an application of any of the four lists names |
| GarbageFiles.RecycleKeepsExactly | engine/clean.go:42-62 | without store errors a successful recycle keeps exactly the non-object configurations and those referenced |
| GarbageFiles.RecycleFilesExactly | engine/clean.go:54-62 | a version directory survives a recycle if and only if no unreferenced object configuration has its name, whatever the version |
| GarbageCases.RecycleTakesReferenced | engine/clean.go:58-59 | a store in which recycle removes the files of a referenced version along with an unreferenced one |
| Mounts.PrepareVolumes | sync/app.go:41-69 | in place: every volume is prepared as specified; at the first directory that cannot be made the ones before are prepared and the rest untouched |
| Mounts.RedirectVolume | sync/app.go:56-66 | for any order of the keys, the volume is redirected if and only if the configuration holds an object |
| Mounts.RedirectedExactly | sync/app.go:51-67 | a volume without host path is redirected to name/version if and only if its configuration is supplied and is an object configuration, and is unchanged otherwise |
| Mounts.HostPathExactly | sync/app.go:42-50 | a host path that does not start with a slash, the empty one too, is placed under the host directory, which stops the rewriting when it cannot be made; an absolute one stays; the configuration stays either way |
| Mounts.MountedDirectorySurvives | engine/clean.go:116-137 | under the one-version hypothesis the directory that a service of an occupied unfinished application mounts through a volume at the last version its volumes name, after preparation with what the lookups loaded, outlives a collection pass |
| Mounts.MountedIsLast | sync/app.go:51-67 | the directory mounted is that of the last version the volumes name, whichever version the mounted volume names |
| Mounts.DirectorySafeExactly | engine/clean.go:107-137 | without file errors a version directory survives every order of the pass if and only if its configuration is not cleanable or some live application mounts the name and all that do last mount this version |
| Mounts.MountedDirectoryExactly | engine/clean.go:107-137 | so for the directory a service mounts, without any one-version hypothesis, at the last version the volumes name |
| MountCases.MountedDirectoryLost | sync/app.go:51-62 | an application that names one configuration at two versions and mounts the first: it gets the directory of the second, which some order of the pass removes, although one version is mounted for each name |
| Keys.CollisionExactly | sync/desire.go:194-199 | two records of one kind share a key if and only if they are the same or a dash moved between name and version |
| Keys.Injective | sync/desire.go:194-199 | keys of one kind are injective on versions without a dash |
| Keys.KeyShape | sync/desire.go:194-199 | a key spells out kind, name and version, and is empty without a name or a version |
| Keys.DashedVersionsCollide | sync/desire.go:194-199 | two different records that share a key |
| Sync.FilterConfig | sync/object.go:26-40 | the entries of a program stay, with their values, if and only if they are no objects or contain the platform; other configurations stay as they are |
| Sync.SyncApps | sync/desire.go:10-27 | the result is keyed by application name; from a faithful link it holds exactly the desired names the cloud knows, at the last desired version; it is there when the link answers every request, and missing when the link answers none and something is desired |
| Sync.GenResourceInfos | sync/desire.go:182-192 | exactly one request for each entry, in any order |
| Sync.Syncer.ProcessConfiguration | sync/desire.go:142-156 | succeeds if and only if the objects download, name and version are there, and the record is stored already or can be written; adds at most the record under its key, only when there was none; a failure changes nothing |
| Sync.Syncer.StoreApplication | sync/desire.go:158-168 | likewise for the application, without a download |
| Sync.Syncer.StoreSecret | sync/desire.go:170-180 | likewise for a secret, without a download |
| Sync.Syncer.ProcessVolumes | sync/desire.go:125-140 | changes no record and adds only those the volumes refer to; succeeds if and only if every one of them can be stored from the store as it was, and then all of them are there |
| Sync.Syncer.SyncResource | sync/desire.go:29-97 | changes or removes no record, even on failure; with a link that answers each request once, in any order, with the value of the cloud, a mirror of the cloud stays one, success adds exactly the application and, at the last version its volumes name, its configurations and secrets, and it succeeds whenever the link answers all requests and the condition of the rows below holds, never when it does not; a failure adds no application, which is written last |
| Sync.SyncableWhen | sync/desire.go:29-97 | that condition holds when the cloud has the application and every last version its volumes name, all have names and versions, the filtered configurations download, and every record is stored already or can be written |
| Sync.SyncableOnlyWhen | sync/desire.go:29-97 | and only then |
| Sync.LastVersionCounts | sync/desire.go:42-48 | of several versions named for one configuration or secret the last one counts |
| Sync.AnswersAreFaithful | sync/desire.go:104-123 | a link that answers a request with what the cloud has for each entry, in order, is faithful |
| Sync.FaithfulSync | sync/desire.go:83-97 | that statement about the store, from any complete replies and any prefix of the writes they lead to |
| Closure.LookupApp | engine/engine.go:403-456 | the lookups succeed if and only if the application and, for each of its volumes, the record it names is stored under its key, and then load exactly that |
| Closure.StoredIsCloud | sync/desire.go:158-168 | after a successful synchronization the stored application is the cloud's, even when it was stored before |
| Closure.Closed | sync/desire.go:29-97 | after a successful synchronization of an application that names each configuration and secret at one version, from any mirror, everything it refers to is stored |
| Closure.ClosedExactly | sync/desire.go:42-48 | without that condition: all lookups succeed if and only if every volume resolved before or names the key of a last version, which for versions without a dash means that it is the last to name its resource |
| Closure.TwoVersionsMiss | sync/desire.go:42-48 | an application that names one configuration at two versions: after any successful synchronization of an empty store the lookup of the first misses |
| Closure.TwoVersionsPerformed | sync/desire.go:42-48 | there is such a synchronization: the replies of the cloud and the store they lead to |
| Closure.TwoVersionsSyncable | sync/desire.go:42-48 | on a disk that takes everything its synchronization can succeed |
| Closure.SyncAndLookup | engine/engine.go:403-456 | succeeds as the synchronization does, under the same condition; a successful synchronization is followed by a successful lookup of the cloud's application |
| Closure.LoadedAtLast | engine/engine.go:432-446 | the lookups load each configuration under its own name at the last version the volumes name |
| Closure.LoadedIsCloud | engine/engine.go:432-446 | each configuration handed to the runtime is the platform-filtered cloud value of the last version named |
| Closure.LoadedSecretIsCloud | engine/engine.go:447-456 | likewise for each secret |
| Closure.RunMirrors | sync/desire.go:142-180 | over any run of synchronizations, each writing some of what the replies of the cloud hold, and of collections, every record is the cloud's |
| Closure.RunCoherent | sync/desire.go:142-180 | a key stands for the same record at any two moments of a run, also when it was collected and fetched again |
| Prober.Probe | ami/native/prober/prober.go:51-74 | the first of three attempts that does not err decides; an error only when all three err |
| Prober.Worker.Stop | ami/native/prober/worker.go:87-94 | puts a token into the channel only when it is empty |
| Prober.Worker.DoProbe | ami/native/prober/worker.go:96-153 | on the fields of the tick: a panic, a status error, a stopped process, the status that is wrong for the kind of probe, a tick before the initial delay and an erring prober change nothing; any other result is counted, and the process is restarted exactly when a failure reaches the threshold, which resets the counter; probing goes on unless the process is reported stopped, also after a panic |
| Prober.Worker.Run | ami/native/prober/worker.go:60-85 | the restarts of a worker are the closed form of the rows below, on the results it kept, and none when every tick comes before the initial delay; it ends only when probing is over or on a stop, sent before or meanwhile |
| Prober.ResultOfTick | ami/native/prober/worker.go:96-124 | a tick adds its result to those kept if and only if nothing on its fields stands against it |
| Prober.EarlyTickIgnored | ami/native/prober/worker.go:121-124 | a tick before the initial delay makes no difference wherever it comes |
| Prober.RestartsExactly | ami/native/prober/worker.go:126-152 | for any trace each maximal block of n failures causes exactly n / T restarts, T the failure threshold and one when it is below one |
| Prober.BlocksAdd | ami/native/prober/worker.go:126-152 | in that closed form a block of n failures adds n divided by the threshold, or by one, and nothing else adds anything |
| Prober.SuccessThresholdIdle | ami/native/prober/worker.go:137-141 | the success threshold, which the code compares with, has no effect on counter or restarts |
| Registry.RunKeepsInv | ami/native/prober/prober_manager.go:47-132 | in every interleaving of adds, removes, cleanups, stop tokens and exits: the registered workers are exactly the live ones, each under its own key, the two maps have equal keys, a channel holds at most one token |
| Registry.OneWorkerPerKey | ami/native/prober/prober_manager.go:59-69 | at most one live worker per key in every run |
| Registry.LeavingRemovesOnlySelf | ami/native/prober/prober_manager.go:126-132 | a worker that leaves finds itself under its key and removes that entry alone |
| Registry.TokenStays | ami/native/prober/worker.go:76-94 | a token stays until its worker takes it or leaves |
| Registry.CounterExactly | ami/native/prober/prober_manager.go:108-124 | in every run the counter of a key equals the number of latest consecutive cleanups that did not list it since it was added |
| Registry.CleanupStopsExactly | ami/native/prober/prober_manager.go:114-118 | a cleanup sends a token if and only if the channel was empty and this was at least the third miss in a row |
| Registry.AddProbesExactly | ami/native/prober/prober_manager.go:59-69 | an added application ends up with a worker that is not on its way out if and only if its key was free or its worker had neither a token waiting nor its loop ended |
| Registry.DoomedStays | ami/native/prober/worker.go:60-85 | a worker on its way out keeps its key and stays so in every run until it leaves, whatever is added |
| Registry.AddWhileDoomedIsLost | ami/native/prober/prober_manager.go:61-64 | so an application added meanwhile has no worker once that one has left |
| Registry.SnapshotFollows | ami/native/prober/prober_manager.go:47-132 | every action of the protocol is, on the channels and counters the manager sees, the step its method makes |
| Registry.ReAddCanBeLost | ami/native/prober/prober_manager.go:47-86 | a run of that kind: an application removed and added again before its worker left ends up without a probe |
| ProbeManager.Manager.AddApp | ami/native/prober/prober_manager.go:47-70 | starts a fresh worker with an empty channel if and only if there is a probe and no entry for the key; a worker for a startup probe gets no specification; nothing changes otherwise; the step of the protocol |
| ProbeManager.Manager.RemoveApp | ami/native/prober/prober_manager.go:72-86 | sends a token to exactly the workers of that name and version; the step of the protocol |
| ProbeManager.Manager.CleanupApps | ami/native/prober/prober_manager.go:108-124 | for every order, every counter and every channel ends as one pass of the protocol says |
| ProbeManager.Manager.RemoveWorker | ami/native/prober/prober_manager.go:127-132 | removes the key from both maps; the step of the protocol |
| Shadow.Node.Insert | node/node.go:262-278 | stores the first record, leaves an existing one alone, and tells the two from a failed transaction |
| Shadow.Node.Desire | node/node.go:101-133 | succeeds exactly when the store, the merge and the comparison do, and then returns the comparison of the two halves, which may be no difference; without override the stored desire is the merge of the old one and the new, otherwise the new one; a failure leaves the record as it was |
| Shadow.Node.Report | node/node.go:137-177 | likewise for the reported half: without override every field other than node and nodestats is that of the merge, and these two are as reported when they are |
| Shadow.ReportedFieldStays | node/node.go:137-177 | with a merge that keeps what the second document lacks, a field no report carries stays over any run of reports and desires without override |
| Shadow.Node.Start | node/node.go:56-83 | a restart keeps the stored desire and merges the core information into the stored report; it fails when the insertion fails otherwise than on an existing record or the report fails |
| Shadow.HalvesIndependent | node/node.go:101-177 | after any run of transactions each half depends on the committed transactions of that half alone |
| Shadow.NodeInfoFresh | node/node.go:156-162 | after a committed report that carries node information or statistics, the stored ones are exactly those, never merged |
| TailScan.SeekLastN | ami/native/native_log.go:124-156 | terminates; for a count that is not negative the position is 0 with at most that many newlines in the file, or just after a newline with exactly that many behind it; for a negative count it is the end |
| TailScan.NewlinesExactly | ami/native/native_log.go:124-156 | the count of newlines is that of the newline characters of the text |
| TailScan.TailUnique | ami/native/native_log.go:124-156 | that position is unique |
| TailScan.TailLinesExactly | ami/native/native_log.go:124-156 | the tail has as many lines as asked for if and only if the file is empty, ends with a newline or has no more lines than that; it has at most one line more |
| TailScan.OneLineTooMany | ami/native/native_log.go:124-156 | a file of two lines, the second without a newline, asked for one line: both are given |

## Left out

Assumptions on what the code calls:

- Kubernetes, Helm and native service calls: a failed stop leaves the application running, a failed start leaves
  it as it was or absent, a success does what was asked. Their own logic is not part of this model.
- The delta that a report returns (`node/node.go:173`) is taken to carry the whole desired list when the two
  lists differ, and none when they are equal; `Merge` and `DiffWithNil` are in a library that is not part of
  this model and are arbitrary functions in `Shadow`.
- JSON round trips of stored records are the identity.
- The prefix of object keys is the one used in `engine/clean_test.go`; the library constant is not part of this
  model.
- Downloads (`sync/object.go:42-193`), HTTP, MQTT, MD5, unpacking and logging: only whether they succeed.
- Removing a directory either removes it whole or leaves it present; reading a directory that is there succeeds
  where a result says `Sound`.
- Names and versions are plain path components, paths are absolute when they start with a slash.
- The texts of causes are structured values, one for each format string.

Not modelled:

- Namespaces: the rounds for system and user applications are the same code on separate lists; one is modelled.
- Processes other than core and init, which filter nothing.
- Two rounds of one process at the same time: a process runs its rounds one after another. What the other process
  does while a round of this one computes its plan counts as done before or after that.
- The goroutines of `applyApps` are whole steps in any order; the unsynchronized writes to the map of statistics
  (`engine/engine.go:394-396`) are not split further.
- Garbage collection concurrent with a round: a pass is one atomic step.
- The custom YAML record of `applyApp` (`engine/engine.go:415-431`), the certificates it injects
  (`engine/engine.go:462-466`) and the environment variables of `PrepareApp` (`sync/app.go:12-40`).
- The loop of a worker without a specification, which the code would panic in (`ami/native/prober/worker.go:50`,
  `ami/native/prober/worker.go:61`), and TCP probes.
- The overflow of the consecutive-result counter, and a panic inside the restart of a process.
- The random delay and the ticker of a worker: a worker sees some finite sequence of ticks.
- Remote debugging, message routing, byte formatting, certificates, activation and the command line.

Contracts stated for less than every caller:

- TwoProcesses.MismatchConserved: asks that no round is blind and no init round begins unjustified;
  `InitRound.InitPlanJustified` says exactly when one is.
- BlindRounds.MismatchAccounted: asks that no init round that sees begins unjustified and, when one is blind, that no
  later entry supersedes the first desired core application.
- GarbageSafety.SafeExactly: asks that versions hold no dash, since colliding keys protect each other by
  accident.
- Mounts.MountedDirectorySurvives: asks that the mounted volume names the last version its application names;
  `Mounts.MountedDirectoryExactly` is the condition without that.
- Mounts.DirectorySafeExactly: asks that versions hold no dash, like GarbageSafety.SafeExactly, and that no file
  operation fails.
- ServiceExclusion.OneContestExactly: asks that no other port is contested, since later contests read the entries
  that losers gain.
- Closure.RunMirrors: models every collection as the loss of any set of configurations, which is what the two
  collectors may do to the store.
