# Apheleia: a verified model of the controller, the analyser and the deploy command

Apheleia watches builds of Java components. A controller asks for every artifact a ComponentBuild names, starts a
deploy for what has been rebuilt, publishes a verdict and notifies a pull request. An analyser finds out which jars
ended up in the output of a build. A deploy command copies rebuilt artifacts into a repository and marks them.

| files | what they hold |
|---|---|
| `wrappers.dfy`, `cluster.dfy`, `handlers.dfy` | the objects of a namespace; what one request does, as functions of the store and of the outcome of every client call |
| `reconciler.dfy` | the controller as a class whose methods update the objects in place, each proved equal to its function |
| `status.dfy`, `single.dfy` | the status as a pure function of the store; one ComponentBuild: refinement, faults, no stall, fixed point |
| `fanout.dfy`, `requests.dfy` | one event for many ComponentBuilds: exact effect and confluence; what any request can do |
| `errors.dfy`, `entries.dfy` | exactly which requests return an error and what is then left alone; what is published, deployed and announced, read off the objects |
| `runs.dfy`, `progress.dfy` | all interleavings of requests with the rest of the cluster: invariants and provenance; rounds and a bound on them |
| `ordered.dfy`, `greedy.dfy`, `greedy_order.dfy`, `maven_paths.dfy` | sorted sets by a comparator; the smallest-first hitting set, and when the order of equally large sets matters; GAVs from paths |
| `analyser.dfy`, `matching.dfy`, `analysis.dfy`, `meaning.dfy`, `clashes.dfy`, `analysis_examples.dfy`, `spec_merge.dfy` | index, pruning, matching, resolution and allow-list; what the findings mean, read off the files, and when walks agree; inputs on which they do not; the artifact list made of the findings |
| `deploy.dfy`, `deploy_safety.dfy`, `deploy_resume.dfy`, `deploy_meaning.dfy` | the deploy loop with a stop after any effect; safety over crashes and repeated runs; exactly when a stopped run can be resumed; what a run reads and leaves, said of texts, annotations and images |

## Assumptions

- Requests are handled one at a time and a read sees every earlier write. Every client call may fail on its own: reads
  fail, and a write succeeds, is refused, or takes effect although the caller sees an error. A controller that dies in
  the middle of a request is the case in which all later calls of that request are refused.
- One namespace. `CreateABRName` is an uninterpreted function; only the last clause of `FanningOut.Confluence`, which
  equates the contents and not just the names of new ArtifactBuilds, needs it to be injective.
- A run without a Succeeded condition counts as unknown, and a run that finished keeps its result.
- Whoever else acts on the cluster may create, edit and delete anything, but only the controller writes ComponentBuild
  statuses and creates deploy tasks and notifier runs (`Runs.Environment`). The provenance of notifications further
  assumes that nobody deletes PipelineRuns (`Runs.NoticesStay`); that of deploys, that nobody deletes TaskRuns, changes
  which DependencyBuild owns a RebuiltArtifact, or writes the deployed mark (`Runs.DeploysStay`).
- The progress theorems assume what `Progress.Cooperates`, `Progress.Unshadowed` and `Progress.OwnersExist` say: builds
  are not restarted, the spec and the config stay, DependencyBuilds of built artifacts resolve to an empty or "true"
  mark, no deploy task has the name of a ComponentBuild or ArtifactBuild, and owners of deploy tasks exist.
- Names the server generates are any names not taken.
- The jars of a repository have different paths, and directory names are not empty and hold no slash.

## Where the code does not do what it seems to promise

- A request carries a name but no kind, and ComponentBuilds and ArtifactBuilds are looked up first. A finished deploy
  task that shares its name with one of them is never recorded by its own event, nor is one whose owning ArtifactBuild
  is gone: `Requests.DeployRecordedIff` is exact. `Requests.NoticeRecordedIff` is the same for notifier runs.
- The ambiguous jar sets live in a sorted set that compares sets of one size by how they print, and a hash set prints its
  elements in an order that can depend on the order in which the repository was walked. So the walk can decide which of
  two equally large sets is taken whole, and which GAVs are reported (`AnalysisExamples.ChosenDependsOnWalk`).
  No two unmet sets of one size sharing a jar is the exact condition for the sets taken whole not to depend on it
  (`GreedyOrder.OrderFreeIff`, for analyses `Clashes.PrintFreeIff`). For the chosen jars and the reported GAVs it is
  sufficient (`Analysis.ClashlessWalksAgree`) but not necessary (`GreedyOrder.SameJarsDespiteClash`).
- Two different sets of one size that print alike count as one, and the second may stay unmet: `Matching.KeepsAllIff` is
  exact, and `AnalysisExamples.LostProvider` an input on which a class loses its provider. `Analysis.Coverage` asks only
  that the candidates of the class in question print like no other ambiguous set.
- A finished deploy task or notifier run whose named owner is gone makes its request fail, and it is queued again each time;
  if no call fails this is the only reason (`Errors.CleanErrsIff`).
- The loop over the allow-list goes on after it has removed a GAV. If a second pattern matches, it removes again and the
  iterator throws, so the analysis fails exactly when two patterns match one GAV (`Analysis.DropAllowed`).
- An artifact whose version annotation is no number makes an unforced deploy run throw as soon as its group is decided
  by it (`DeploySafety.DecideThrowsIff`, `DeploySafety.ThrowsIff`). Behind an unmarked member it does no harm, until a
  stop has marked the members before it: then a run that would have succeeded throws every time
  (`DeployResume.StopExample`). `DeployResume.ResumableIff` is the exact condition.
- The config, DependencyBuilds and RebuiltArtifacts are not watched (`pkg/reconciler/componentbuild/controller.go:16-52`)
  and a fan-out only logs errors of its members, so a change there waits for the next event. `Runs.Events` models this.

## Model

| member | source | states |
|---|---|---|
| `Controller.Reconciler.GetDependencyBuild` | pkg/reconciler/componentbuild/componentbuild.go:441-464 | the loop over owners finds the last owner of kind DependencyBuild; a failing read or a missing object reads as none |
| `Controller.Reconciler.FindArtifactState` | pkg/reconciler/componentbuild/componentbuild.go:428-439 | failed, built and deployed as declared for the store; deployed only if built and the mark is exactly "true" |
| `Controller.Reconciler.DeployRunning` | pkg/reconciler/componentbuild/componentbuild.go:277-290 | true exactly when some TaskRun labelled with the DependencyBuild has not finished |
| `Controller.Reconciler.NoticeRunning` | pkg/reconciler/componentbuild/componentbuild.go:214-227 | true exactly when some PipelineRun labelled with the ComponentBuild has not finished |
| `Controller.Reconciler.DeployArtifact` | pkg/reconciler/componentbuild/componentbuild.go:272-310 | the whole new store for every outcome of the calls: at most one TaskRun is added, with its label, owner and parameters |
| `Controller.Reconciler.VisitArtifact` | pkg/reconciler/componentbuild/componentbuild.go:149-177 | one round of the loop over the spec, error returns and swallowed deploy errors included |
| `Controller.Reconciler.VisitArtifacts` | pkg/reconciler/componentbuild/componentbuild.go:145-177 | the loop, stopped by the first failing create, refines the declarative scan |
| `Controller.Reconciler.HasFailed` | pkg/reconciler/componentbuild/componentbuild.go:180-186 | true exactly when some artifact state is failed |
| `Controller.Reconciler.CollectFailed` | pkg/reconciler/componentbuild/componentbuild.go:238-243 | the failed GAVs, in the order in which the map is ranged over |
| `Controller.Reconciler.NotifyResult` | pkg/reconciler/componentbuild/componentbuild.go:208-270 | the whole new store and error: nothing without a PR URL or while a notice runs, otherwise one PipelineRun with its message |
| `Controller.Reconciler.UpdateStatus` | pkg/reconciler/componentbuild/componentbuild.go:204-205 | only the status of one ComponentBuild changes, and an error need not mean that it did not |
| `Controller.Reconciler.HandleComponentBuild` | pkg/reconciler/componentbuild/componentbuild.go:114-206 | the in-place handler refines its specification for every pattern of failing calls |
| `Controller.Reconciler.HandleArtifactBuild` | pkg/reconciler/componentbuild/componentbuild.go:311-329 | the loop over the listed copies refines the fan-out, though earlier rounds have changed the store since the listing |
| `Controller.Reconciler.FindOwner` | pkg/reconciler/componentbuild/componentbuild.go:343-349 | the first owner of the kind, none if there is none |
| `Controller.FirstOwnerMeaning` | pkg/reconciler/componentbuild/componentbuild.go:343-349 | the first owner of the kind decides, whatever follows it |
| `Controller.Reconciler.HandleTaskRun` | pkg/reconciler/componentbuild/componentbuild.go:331-380 | the mark is written before the fan-out, and the fan-out happens even if the mark could not be written |
| `Controller.Reconciler.HandlePipelineRun` | pkg/reconciler/componentbuild/componentbuild.go:382-426 | a delivered notice sets the flag whatever the state is, anything else finished is handled as the ComponentBuild |
| `Controller.Reconciler.Reconcile` | pkg/reconciler/componentbuild/componentbuild.go:53-112 | four reads, then the first kind in the order ComponentBuild, ArtifactBuild, TaskRun, PipelineRun is handled |
| `Controller.FanOutTouchesVisited` | pkg/reconciler/componentbuild/componentbuild.go:318-327 | a ComponentBuild not reached yet is still equal to its listed copy, so using the stale list is harmless |
| `Status.ScanGathers` | pkg/reconciler/componentbuild/componentbuild.go:145-177 | any faults: the states cover the spec and Outstanding is at least the number of pending positions; no faults: both are exact |
| `Status.StatusFromGathered` | pkg/reconciler/componentbuild/componentbuild.go:178-203 | the imperative verdict, count, map and flag equal the declared status once nothing is outstanding or no call failed |
| `Status.SettledIffNonePending` | pkg/reconciler/componentbuild/componentbuild.go:156-178 | Outstanding counts positions, duplicates included, yet is 0 exactly when every distinct artifact is done or failed |
| `Status.FailedInLists` | pkg/reconciler/componentbuild/componentbuild.go:238-243 | a failure message lists exactly the failed GAVs, each once, in any ranging order |
| `Status.NoticeTruthful` | pkg/reconciler/componentbuild/componentbuild.go:236-247 | a success notice means every artifact done; a failure notice lists exactly the failed ones and is not empty |
| `Status.HandleExtends` | pkg/reconciler/componentbuild/componentbuild.go:114-206 | frame for any faults: runs and builds are only added, added deploys belong to built unmarked artifacts, added notices are true |
| `SingleReconcile.ScanKeepsOne` | pkg/reconciler/componentbuild/componentbuild.go:149-177 | several artifacts of one DependencyBuild in one loop, any faults: still at most one deploy in flight |
| `SingleReconcile.HandleKeepsOne` | pkg/reconciler/componentbuild/componentbuild.go:114-310 | at most one deploy in flight per DependencyBuild and one notice per ComponentBuild are kept |
| `SingleReconcile.FaultTolerantVerdict` | pkg/reconciler/componentbuild/componentbuild.go:145-205 | any faults: a published Complete or Failed is the fault-free status in full, and Outstanding is never too small |
| `SingleReconcile.FaultsOnlyDelay` | pkg/reconciler/componentbuild/componentbuild.go:149-192 | compared with a fault-free scan: at least as much outstanding, and the same status if nothing is |
| `SingleReconcile.LoopRefinesStatus` | pkg/reconciler/componentbuild/componentbuild.go:145-205 | what an error-free reconcile publishes is one function of the store it started from |
| `SingleReconcile.StatusMeaning` | pkg/reconciler/componentbuild/componentbuild.go:428-463 | done means built, with a last DependencyBuild owner that exists and is marked "true"; failed means failed or missing; never both |
| `SingleReconcile.VerdictMeaning` | pkg/reconciler/componentbuild/componentbuild.go:155-203 | Outstanding 0, Complete, Failed and InProgress are each characterised, in both directions, by what is built, owned and marked |
| `SingleReconcile.NoSilentStall` | pkg/reconciler/componentbuild/componentbuild.go:149-177 | after an error-free reconcile every outstanding artifact has a running build, a deploy in flight, no resolvable DependencyBuild, or an odd mark |
| `SingleReconcile.FixedPoint` | pkg/reconciler/componentbuild/componentbuild.go:114-310 | handling a ComponentBuild a second time leaves the whole store unchanged, for every store, config and spec |
| `FanningOut.FanOutExtends` | pkg/reconciler/componentbuild/componentbuild.go:311-329 | the frame and the one-run invariant hold after any prefix of a fan-out with any faults |
| `FanningOut.HandleVerdictSound` | pkg/reconciler/componentbuild/componentbuild.go:145-205 | any faults: what every ComponentBuild publishes afterwards is what it did before up to the message, or still open with no too small count, or up to date; the flag is never set |
| `FanningOut.FanOutVerdictsSound` | pkg/reconciler/componentbuild/componentbuild.go:311-329 | the same for a whole fan-out, against the store as it is when the fan-out ends |
| `FanningOut.HandleEffect` | pkg/reconciler/componentbuild/componentbuild.go:114-310 | exact effect of one handling: status, requested builds, DependencyBuilds being deployed, ComponentBuilds being announced |
| `FanningOut.FanOutEffect` | pkg/reconciler/componentbuild/componentbuild.go:318-327 | exact effect of a fan-out in terms of the store before it, though members share artifacts and DependencyBuilds |
| `FanningOut.CompleteFanOut` | pkg/reconciler/componentbuild/componentbuild.go:311-329 | an event brings exactly the ComponentBuilds whose index holds the GAV up to date |
| `FanningOut.FanOutServes` | pkg/reconciler/componentbuild/componentbuild.go:318-327 | after an event no artifact of any ComponentBuild it concerns is stalled |
| `FanningOut.Confluence` | pkg/reconciler/componentbuild/componentbuild.go:311-329 | any two handling orders give the same ComponentBuilds, requested builds, and sets of running deploys and notices |
| `Requests.SuccessShape` | pkg/reconciler/componentbuild/componentbuild.go:366-379 | a finished deploy marks at most the DependencyBuild that owns its artifact, and then only extends the store |
| `Requests.ReconcileShape` | pkg/reconciler/componentbuild/componentbuild.go:53-112 | any request, any faults: the store is extended, at most after marking one DependencyBuild whose deploy succeeded |
| `Requests.ReconcileResults` | pkg/reconciler/componentbuild/componentbuild.go:100-109 | any request, any faults: every publication is sound against the resulting store, and ResultNotified appears only for a delivered notice |
| `Requests.HandlesIsTrue` | pkg/reconciler/componentbuild/componentbuild.go:100-109 | any request, any faults elsewhere: a ComponentBuild handled without an error and with the config present, directly or in a fan-out, ends with no final verdict but the true one, whether it changed or not |
| `Requests.DeployRecordedIff` | pkg/reconciler/componentbuild/componentbuild.go:100-109 | a succeeded deploy is recorded by its own event if and only if no ComponentBuild and no ArtifactBuild has the TaskRun's name and the owning ArtifactBuild exists |
| `Requests.NoticeRecordedIff` | pkg/reconciler/componentbuild/componentbuild.go:382-424 | a delivered notice is recorded by its own event, and nothing else changes, if and only if nothing looked up earlier has the run's name |
| `Requests.FailedNoticeRetried` | pkg/reconciler/componentbuild/componentbuild.go:382-426 | handling a failed notice of a result that still stands leaves exactly one notice in flight |
| `Requests.FailedDeployRetried` | pkg/reconciler/componentbuild/componentbuild.go:331-379 | handling a failed deploy leaves exactly one deploy in flight for every need of the ComponentBuilds it concerns |
| `Errors.ConfiguredMeans` | pkg/reconciler/componentbuild/componentbuild.go:116-133 | the config counts exactly if all three keys are there and none is empty |
| `Errors.NothingCounted` | pkg/reconciler/componentbuild/componentbuild.go:145-178 | any faults: nothing is counted as outstanding exactly if every position is seen to be failed, or built and deployed |
| `Errors.HandlingErrsIff` | pkg/reconciler/componentbuild/componentbuild.go:114-206 | handling a ComponentBuild errs exactly if the config read, a build that is missing, a notice that is due, or the status write fails |
| `Errors.RequestErrsIff` | pkg/reconciler/componentbuild/componentbuild.go:53-426 | any faults: the exact condition, by kind of object, under which a request returns an error and is queued again |
| `Errors.CleanErrsIff` | pkg/reconciler/componentbuild/componentbuild.go:53-426 | if no call fails, a request errs exactly if its key names a finished deploy or notifier run whose named owner is gone |
| `Errors.IgnoredRuns` | pkg/reconciler/componentbuild/componentbuild.go:331-409 | events of runs that are unfinished, not labelled, or name no owner change nothing and return no error |
| `Errors.FailedReadChangesNothing` | pkg/reconciler/componentbuild/componentbuild.go:60-95 | a failing read of the key returns an error and changes nothing |
| `Errors.RefusedChangesNothing` | pkg/reconciler/componentbuild/componentbuild.go:114-426 | a request all of whose writes are refused leaves the store as it is |
| `Errors.AnnotationsKept` | pkg/reconciler/componentbuild/componentbuild.go:366-378 | no request touches an annotation of a DependencyBuild other than the deployed mark, which it only sets to true |
| `Errors.HandledAnnounces` | pkg/reconciler/componentbuild/componentbuild.go:193-270 | any faults: a handling that returns no error leaves a settled result announced |
| `Entries.PublishedEntries` | pkg/reconciler/componentbuild/componentbuild.go:145-177 | what an error-free handling publishes of exactly the artifacts of the spec: build name, built, deployed and failed, read off the objects |
| `Entries.PublishedFields` | pkg/reconciler/componentbuild/componentbuild.go:132-205 | what an error-free handling makes of the message and the notified flag, and that the spec stays |
| `Entries.PublishedCount` | pkg/reconciler/componentbuild/componentbuild.go:156-177 | an error-free handling counts every position of the spec whose artifact is neither deployed nor failed, duplicates included |
| `Entries.FaultyEntries` | pkg/reconciler/componentbuild/componentbuild.go:145-205 | any faults: every entry published anew is empty if its read failed, and otherwise right but that a deploy may go unseen |
| `Entries.ResolvedIff` | pkg/reconciler/componentbuild/componentbuild.go:441-464 | any faults: a DependencyBuild is found exactly if both reads work and it exists and is the last owner of its kind |
| `Entries.EventDeploysIff` | pkg/reconciler/componentbuild/componentbuild.go:272-329 | after an error-free event a deploy is in flight exactly where one was, or where a subscriber has a built artifact without a mark |
| `Entries.EventAnnouncesIff` | pkg/reconciler/componentbuild/componentbuild.go:193-329 | after an error-free event a notice is in flight exactly where one was, or for a settled subscriber with a URL not yet told |
| `Entries.UnnamedUntouched` | pkg/reconciler/componentbuild/componentbuild.go:318-327 | any faults: a ComponentBuild whose published states do not name the GAV stays as it is |
| `Entries.NamedUpdated` | pkg/reconciler/componentbuild/componentbuild.go:318-327 | an error-free event makes every ComponentBuild whose published states name the GAV say what the objects say |
| `Runs.NextKeepsOne` | pkg/reconciler/componentbuild/componentbuild.go:213-307 | one step of any kind keeps the one-run invariant |
| `Runs.OneRunAlways` | pkg/reconciler/componentbuild/componentbuild.go:213-307 | at most one deploy in flight per DependencyBuild and one notice per ComponentBuild in every reachable state |
| `Runs.IndexAlways` | pkg/reconciler/componentbuild/controller.go:16-52 | in every reachable state each ComponentBuild is queued, blocked by missing config, or indexed by exactly its spec |
| `Runs.EventReachesSpec` | pkg/reconciler/componentbuild/componentbuild.go:318-327 | an event for an artifact reaches an idle, unblocked ComponentBuild if and only if its spec names the GAV |
| `Runs.MarksAlwaysBacked` | pkg/reconciler/componentbuild/componentbuild.go:275-378 | over whole runs every mark on a DependencyBuild is backed by a succeeded, completed task labelled with its name |
| `Runs.CompleteMeansDeployed` | pkg/reconciler/componentbuild/componentbuild.go:178-205 | whenever a step changes a status to Complete, or handles a ComponentBuild without an error and leaves it Complete, the status is the true one and every artifact is built and really deployed |
| `Runs.CompleteAlwaysBacked` | pkg/reconciler/componentbuild/componentbuild.go:178-204 | in every reachable state, whatever a ComponentBuild that says Complete lists was deployed by a task that succeeded for the DependencyBuild owning it |
| `Runs.CompleteSpecDeployed` | pkg/reconciler/componentbuild/componentbuild.go:145-204 | in every reachable state an idle, unblocked ComponentBuild that says Complete had its whole spec really deployed, after edits of the spec too |
| `Runs.NotifiedAlwaysBacked` | pkg/reconciler/componentbuild/componentbuild.go:382-424 | over whole runs in which no PipelineRun is deleted, ResultNotified implies a succeeded notifier run owned by that ComponentBuild |
| `Runs.NoticesWereTrue` | pkg/reconciler/componentbuild/componentbuild.go:236-252 | over such runs every notifier run in every reachable state said what was true in the state in which it appeared |
| `Progress.WorkBound` | pkg/reconciler/componentbuild/componentbuild.go:155-158 | the work left is at most two per artifact, and 0 exactly when nothing is outstanding |
| `Progress.ReconcileAdvances` | pkg/reconciler/componentbuild/componentbuild.go:53-112 | no request, with any faults, ever makes an artifact less finished or forgets a recorded deploy |
| `Progress.PassRecords` | pkg/reconciler/componentbuild/componentbuild.go:366-378 | a succeeded deploy is recorded by a pass over the finished tasks, wherever in the pass it is handled |
| `Progress.PassPublishes` | pkg/reconciler/componentbuild/componentbuild.go:145-205 | after a pass over all ComponentBuilds the published status is that of the final store and a final result is being announced, though later members changed the store |
| `Progress.RoundProgresses` | pkg/reconciler/componentbuild/componentbuild.go:114-206 | a round in which one build or needed deploy finishes lowers the work that is left |
| `Progress.NeverStuck` | pkg/reconciler/componentbuild/componentbuild.go:149-177 | at the end of any round, while work is left, some build or needed deploy is running, so that the next round can go on |
| `Progress.VerdictReached` | pkg/reconciler/componentbuild/componentbuild.go:178-203 | after two rounds per artifact the verdict is Complete or Failed with nothing outstanding, and the pull request has been or is being told |
| `Ordered.StringsCompare` | java-components/apheleia-processor/src/main/java/io/apheleia/AnalyserCommand.java:249-249 | String.compareTo is a comparator: antisymmetric and transitive |
| `Ordered.CompareIff` | java-components/apheleia-processor/src/main/java/io/apheleia/AnalyserCommand.java:249-249 | String.compareTo is lexicographic: a proper prefix comes first, else the first difference decides |
| `Ordered.AddElements` | java-components/apheleia-processor/src/main/java/io/apheleia/AnalyserCommand.java:244-253 | TreeSet.add keeps the order and adds the element unless one that compares as 0 is present |
| `Ordered.AscendingUnique` | java-components/apheleia-processor/src/main/java/io/apheleia/AnalyserCommand.java:244-253 | a sorted set is determined by its elements |
| `MavenPaths.IndexGav` | java-components/apheleia-processor/src/main/java/io/apheleia/AnalyserCommand.java:165-175 | the loop builds group:artifact:version from the fields of the relative path |
| `MavenPaths.SplitOfJoin` | java-components/apheleia-processor/src/main/java/io/apheleia/AnalyserCommand.java:165-165 | splitting a printed path gives back its directories |
| `MavenPaths.SameGav` | java-components/apheleia-processor/src/main/java/io/apheleia/AnalyserCommand.java:165-175 | the index pass and the reporting pass name any Maven-layout jar alike |
| `MavenPaths.GavFields` | java-components/apheleia-processor/src/main/java/io/apheleia/AnalyserCommand.java:165-175 | the fields of a GAV are the group, artifact and version directories it was made of |
| `Analyser.IndexJar` | java-components/apheleia-processor/src/main/java/io/apheleia/AnalyserCommand.java:177-185 | the index maps each class of the jar, module-info excepted, to the hash read last, and keeps all other entries |
| `Analyser.BillJar` | java-components/apheleia-processor/src/main/java/io/apheleia/AnalyserCommand.java:186-200 | exactly the records of a jar are billed, and the jar itself unless a record names it |
| `Analyser.IndexRepository` | java-components/apheleia-processor/src/main/java/io/apheleia/AnalyserCommand.java:160-226 | the index and the bill agree exactly with the jars outside locally built directories; it fails exactly on a jar less than three levels deep |
| `Analyser.JarsMeaning` | java-components/apheleia-processor/src/main/java/io/apheleia/AnalyserCommand.java:164-224 | a file is read exactly when it is a jar, no runner, and no directory above it was built locally |
| `Analyser.PruneProduced` | java-components/apheleia-processor/src/main/java/io/apheleia/AnalyserCommand.java:228-239 | exactly the classes that class files of the output declare leave the index |
| `Matching.MatchClass` | java-components/apheleia-processor/src/main/java/io/apheleia/AnalyserCommand.java:262-296 | one observed class: its candidates are definite if single, recorded as an ambiguous set if several |
| `Matching.MatchOutputs` | java-components/apheleia-processor/src/main/java/io/apheleia/AnalyserCommand.java:255-312 | definite jars, recorded sets, records and GAVs are functions of the set of things seen, not of the order |
| `Matching.KeepsAllIff` | java-components/apheleia-processor/src/main/java/io/apheleia/AnalyserCommand.java:244-253 | no ambiguous set is lost if and only if no two of one size print alike |
| `Matching.ResolveSets` | java-components/apheleia-processor/src/main/java/io/apheleia/AnalyserCommand.java:313-325 | the loop computes the greedy resolution |
| `Greedy.EverySetMet` | java-components/apheleia-processor/src/main/java/io/apheleia/AnalyserCommand.java:313-325 | after the pass every ambiguous set meets the chosen jars |
| `Greedy.TakenDecides` | java-components/apheleia-processor/src/main/java/io/apheleia/AnalyserCommand.java:313-325 | what is chosen in the end is what was, and the sets at exactly the positions that nothing chosen before meets |
| `Greedy.WholesaleDisjoint` | java-components/apheleia-processor/src/main/java/io/apheleia/AnalyserCommand.java:321-324 | a set added whole was disjoint from everything chosen before it |
| `Greedy.WholesaleMinimal` | java-components/apheleia-processor/src/main/java/io/apheleia/AnalyserCommand.java:244-253 | a set added whole has no proper subset among the ambiguous sets |
| `Greedy.WholesaleCost` | java-components/apheleia-processor/src/main/java/io/apheleia/AnalyserCommand.java:313-325 | any jars that meet the unmet sets are at least as many as the sets added whole |
| `Greedy.ApproximationBound` | java-components/apheleia-processor/src/main/java/io/apheleia/AnalyserCommand.java:313-325 | the pass adds at most k times as many jars as any solution, k bounding the sets added whole |
| `Greedy.BoundIsTight` | java-components/apheleia-processor/src/main/java/io/apheleia/AnalyserCommand.java:313-325 | the factor k cannot be improved, for any number of ambiguous sets |
| `GreedyOrder.LevelReached` | java-components/apheleia-processor/src/main/java/io/apheleia/AnalyserCommand.java:313-325 | without clashes, the jars chosen and the sets taken whole once all sets smaller than n are dealt with do not depend on the order |
| `GreedyOrder.OrderFreeIff` | java-components/apheleia-processor/src/main/java/io/apheleia/AnalyserCommand.java:244-325 | which sets are taken whole is independent of the order among equally large sets if and only if no two that are unmet when their turn comes share a jar |
| `GreedyOrder.ClashlessChooses` | java-components/apheleia-processor/src/main/java/io/apheleia/AnalyserCommand.java:244-325 | without clashes the chosen jars are the same in every order |
| `GreedyOrder.SameJarsDespiteClash` | java-components/apheleia-processor/src/main/java/io/apheleia/AnalyserCommand.java:313-325 | clashing sets on which two orders take other sets whole, yet choose the same jars |
| `Analysis.AddJarGavs` | java-components/apheleia-processor/src/main/java/io/apheleia/AnalyserCommand.java:328-351 | every chosen jar adds its GAV and a community record |
| `Analysis.DropAllowed` | java-components/apheleia-processor/src/main/java/io/apheleia/AnalyserCommand.java:353-362 | exactly the GAVs that no pattern matches remain; it throws if and only if two patterns match one GAV |
| `Analysis.DoAnalysis` | java-components/apheleia-processor/src/main/java/io/apheleia/AnalyserCommand.java:153-365 | the whole analysis; it throws exactly on a too shallow jar or a GAV allowed twice |
| `Analysis.Coverage` | java-components/apheleia-processor/src/main/java/io/apheleia/AnalyserCommand.java:255-362 | every observed class left in the index, unless its candidates print like another ambiguous set, has a chosen provider, hash-equal if several provide it and some agree, whose GAV is reported or allowed |
| `Analysis.Soundness` | java-components/apheleia-processor/src/main/java/io/apheleia/AnalyserCommand.java:161-325 | every chosen jar provides an output class the build did not produce and lies under no locally built directory |
| `Analysis.Backed` | java-components/apheleia-processor/src/main/java/io/apheleia/AnalyserCommand.java:297-362 | every reported GAV is backed by a tracking record |
| `Analysis.Billing` | java-components/apheleia-processor/src/main/java/io/apheleia/AnalyserCommand.java:165-200 | the build bill names every chosen jar by the GAV that the reporting pass gives it |
| `Analysis.GreedyQuality` | java-components/apheleia-processor/src/main/java/io/apheleia/AnalyserCommand.java:244-325 | the approximation bound against all true ambiguous sets, and minimality, for the sets of an analysis |
| `Analysis.ScanOrderIrrelevant` | java-components/apheleia-processor/src/main/java/io/apheleia/AnalyserCommand.java:160-312 | two scans of the same contents in any orders find the same index, definite jars, ambiguous sets, output records, tracked community GAVs and bill |
| `Analysis.OutputOrderIrrelevant` | java-components/apheleia-processor/src/main/java/io/apheleia/AnalyserCommand.java:255-362 | after the same walk of the repository the order of the output plays no part: all findings are equal, unless sets print alike |
| `Analysis.ClashlessWalksAgree` | java-components/apheleia-processor/src/main/java/io/apheleia/AnalyserCommand.java:228-362 | however both walks go and hash sets print, all findings are equal if no ambiguous sets clash and none print alike |
| `Meaning.ReadIff` | java-components/apheleia-processor/src/main/java/io/apheleia/AnalyserCommand.java:161-224 | exactly the files named *.jar but not *-runner.jar are read that lie under no directory all of whose records end with > |
| `Meaning.ProvidesIff` | java-components/apheleia-processor/src/main/java/io/apheleia/AnalyserCommand.java:176-184 | the analysis takes a class for provided exactly if a jar that is read holds it, with the hash read last; module-info never is |
| `Meaning.CandidateIff` | java-components/apheleia-processor/src/main/java/io/apheleia/AnalyserCommand.java:228-296 | a jar is a candidate exactly if the build did not make the class and the jar provides it, with the observed hash if several do and one has it |
| `Meaning.DefiniteIff` | java-components/apheleia-processor/src/main/java/io/apheleia/AnalyserCommand.java:262-296 | a jar is definite exactly if something observed that the build did not make can come from it alone |
| `Meaning.AmbiguousIff` | java-components/apheleia-processor/src/main/java/io/apheleia/AnalyserCommand.java:262-287 | a set is recorded exactly if it has several jars and they are the candidates for something observed that the build did not make |
| `Meaning.ChosenIff` | java-components/apheleia-processor/src/main/java/io/apheleia/AnalyserCommand.java:255-325 | a jar is chosen exactly if it is a sole candidate or lies in a set taken whole, and such sets are candidate sets |
| `Meaning.AllVersionsTaken` | java-components/apheleia-processor/src/main/java/io/apheleia/AnalyserCommand.java:283-362 | if several jars provide a class and no hash agrees, all of them make up the set; taken whole, all are chosen and reported or allowed |
| `Meaning.GavsIff` | java-components/apheleia-processor/src/main/java/io/apheleia/AnalyserCommand.java:297-362 | a GAV is reported exactly if no pattern allows it and a tracked class from no allowed source or a chosen jar has it |
| `Meaning.TrackingIff` | java-components/apheleia-processor/src/main/java/io/apheleia/AnalyserCommand.java:297-351 | the records are exactly those of the output and a community record for every chosen jar |
| `Meaning.BillIff` | java-components/apheleia-processor/src/main/java/io/apheleia/AnalyserCommand.java:186-200 | a record is billed exactly if a jar that is read holds it, or no record of that jar names the jar and this one does |
| `Clashes.PrintFreeIff` | java-components/apheleia-processor/src/main/java/io/apheleia/AnalyserCommand.java:244-325 | which ambiguous sets an analysis takes whole is independent of how hash sets print if and only if no two that are unmet when their turn comes share a jar |
| `AnalysisExamples.FirstPrintedChosen` | java-components/apheleia-processor/src/main/java/io/apheleia/AnalyserCommand.java:244-325 | of two ambiguous sets of one size that share a jar, the one that prints first is chosen |
| `AnalysisExamples.ChosenDependsOnWalk` | java-components/apheleia-processor/src/main/java/io/apheleia/AnalyserCommand.java:183-325 | two walks of one repository with three versions of an artifact choose different jars and report different GAVs |
| `AnalysisExamples.LostProvider` | java-components/apheleia-processor/src/main/java/io/apheleia/AnalyserCommand.java:244-325 | an input on which every analysis leaves an observed class, which the repository provides, without a chosen provider; its sets print as assumed after any walk |
| `SpecMerge.EditArtifacts` | java-components/apheleia-processor/src/main/java/io/apheleia/AnalyserCommand.java:104-112 | the edited list is the old list then the community GAVs, first occurrences kept |
| `SpecMerge.DistinctOrder` | java-components/apheleia-processor/src/main/java/io/apheleia/AnalyserCommand.java:107-109 | kept GAVs stand in the order of their first occurrences |
| `SpecMerge.EditKeeps` | java-components/apheleia-processor/src/main/java/io/apheleia/AnalyserCommand.java:107-109 | an edit keeps the old list as a prefix and appends only new community GAVs |
| `SpecMerge.EditAgain` | java-components/apheleia-processor/src/main/java/io/apheleia/AnalyserCommand.java:107-109 | repeating an edit, in any order, changes nothing |
| `SpecMerge.CreateArtifacts` | java-components/apheleia-processor/src/main/java/io/apheleia/AnalyserCommand.java:114-137 | the new list is sorted and holds the community GAVs and the tracked GAVs no pattern allows; it throws exactly on a null record |
| `SpecMerge.CreatedSpec` | java-components/apheleia-processor/src/main/java/io/apheleia/AnalyserCommand.java:103-138 | a new spec is exactly the tracked GAVs that no pattern allows, each once, and an edit with the same findings is a no-op |
| `SpecMerge.CreatedIff` | java-components/apheleia-processor/src/main/java/io/apheleia/AnalyserCommand.java:114-137 | a new spec names a GAV exactly if some record has it and no pattern matches it |
| `Deploy.DeployCommand.GroupByImage` | java-components/apheleia-processor/src/main/java/io/apheleia/DeployCommand.java:122-127 | each image maps to its members in listing order, artifacts without an image are left out |
| `Deploy.DeployCommand.DecideGroup` | java-components/apheleia-processor/src/main/java/io/apheleia/DeployCommand.java:130-144 | stops at the first member that settles it: absent or other version, or one that is no number |
| `Deploy.DeployCommand.MarkGroup` | java-components/apheleia-processor/src/main/java/io/apheleia/DeployCommand.java:222-235 | marks the members one by one; a stop in between leaves exactly a prefix marked |
| `Deploy.DeployCommand.HandleGroup` | java-components/apheleia-processor/src/main/java/io/apheleia/DeployCommand.java:128-238 | effects of one group, for every stopping point, and whether the run goes on |
| `Deploy.DeployCommand.Run` | java-components/apheleia-processor/src/main/java/io/apheleia/DeployCommand.java:122-244 | a run stopped after any number of effects leaves exactly that prefix of its plan applied, and throws exactly if its plan does and it lives that long |
| `DeploySafety.SkippedIffMarked` | java-components/apheleia-processor/src/main/java/io/apheleia/DeployCommand.java:130-147 | an unforced run skips a group if and only if every member is marked with the current version |
| `DeploySafety.DecideThrowsIff` | java-components/apheleia-processor/src/main/java/io/apheleia/DeployCommand.java:132-143 | deciding throws if and only if the first member not marked has a version that is no number |
| `DeploySafety.ThrowsIff` | java-components/apheleia-processor/src/main/java/io/apheleia/DeployCommand.java:128-243 | a run throws if and only if some group stumbles so, or is to be deployed and cannot be |
| `DeploySafety.StoppedRunSafe` | java-components/apheleia-processor/src/main/java/io/apheleia/DeployCommand.java:145-235 | stopping anywhere, between two marks included, leaves every mark backed by a deployed image, and changes an artifact only by marking it |
| `DeploySafety.MarksAlwaysBacked` | java-components/apheleia-processor/src/main/java/io/apheleia/DeployCommand.java:122-235 | from no marks, in every state reachable by stopped runs a marked artifact had its image deployed |
| `DeployResume.MarksOfPlan` | java-components/apheleia-processor/src/main/java/io/apheleia/DeployCommand.java:145-235 | a run marks exactly the members of the groups that it reaches, decides to deploy and can extract |
| `DeployResume.CompleteRun` | java-components/apheleia-processor/src/main/java/io/apheleia/DeployCommand.java:122-238 | a complete run over all artifacts that does not throw, forced or not, leaves marked exactly what was marked and what can be extracted |
| `DeployResume.StoppedKeepsFinal` | java-components/apheleia-processor/src/main/java/io/apheleia/DeployCommand.java:145-235 | no run, stopped or thrown out of, changes which marks a complete run leads to |
| `DeployResume.FinalAfterStops` | java-components/apheleia-processor/src/main/java/io/apheleia/DeployCommand.java:122-238 | after any stopped runs with any options, a complete run that does not throw leaves the final marks of the start |
| `DeployResume.NothingLeft` | java-components/apheleia-processor/src/main/java/io/apheleia/DeployCommand.java:130-147 | after a complete run that does not throw, with all images extractable, the next unforced run has no effect |
| `DeployResume.ResumableIff` | java-components/apheleia-processor/src/main/java/io/apheleia/DeployCommand.java:130-235 | every stop of a run can be resumed to the same marks and the same exit if and only if the run is forced or deploys no group with an unreadable version |
| `DeployResume.StopBreaks` | java-components/apheleia-processor/src/main/java/io/apheleia/DeployCommand.java:130-147 | a stop right before a member with an unreadable version makes the same unforced run, started again, throw |
| `DeployResume.Resumes` | java-components/apheleia-processor/src/main/java/io/apheleia/DeployCommand.java:122-238 | however often such a run is stopped and run again, it ends as if it had not been stopped |
| `DeployResume.StopExample` | java-components/apheleia-processor/src/main/java/io/apheleia/DeployCommand.java:130-235 | two artifacts on which an uninterrupted run succeeds, and throws once it has been stopped after the first mark |
| `DeployMeaning.ParseIntIff` | java-components/apheleia-processor/src/main/java/io/apheleia/DeployCommand.java:135-135 | a version parses as a number exactly if it is an optional sign and digits that stand for it in 32 bits |
| `DeployMeaning.PrintedParses` | java-components/apheleia-processor/src/main/java/io/apheleia/DeployCommand.java:134-135 | a printed number parses as itself if it has 32 bits and not at all otherwise |
| `DeployMeaning.MarkedIff` | java-components/apheleia-processor/src/main/java/io/apheleia/DeployCommand.java:133-141 | an artifact counts as marked exactly if the version is there and reads as 3 |
| `DeployMeaning.StoppedRunAnnotations` | java-components/apheleia-processor/src/main/java/io/apheleia/DeployCommand.java:128-235 | wherever a run stops, images and all other annotations are as they were, and what changed carries exactly version 3 and had its image deployed |
| `DeployMeaning.MembersInOrder` | java-components/apheleia-processor/src/main/java/io/apheleia/DeployCommand.java:122-127 | the members of a group come in the order of the listing |
| `DeployMeaning.MembersCount` | java-components/apheleia-processor/src/main/java/io/apheleia/DeployCommand.java:122-127 | every listed artifact of an image is a member of its group as often as it is listed, and no other is |
| `DeployMeaning.DecideGoesIff` | java-components/apheleia-processor/src/main/java/io/apheleia/DeployCommand.java:130-147 | a group is to be deployed exactly if the first member that is not marked has no version or another number |
| `DeployMeaning.DeployedIff` | java-components/apheleia-processor/src/main/java/io/apheleia/DeployCommand.java:128-238 | a run deploys an image, and marks its artifacts, exactly if no earlier group fails and its group is forced or outdated and extractable |

## Left out

- Kubernetes API server, informer cache, resource versions and conflicts: a consistent store with failing calls stands for them.
- Several namespaces: every object read or written by a request is in the request's own namespace.
- Exactly one deploy or notification: not guaranteed by the code, since a second run can start before the result of the first is recorded.
- Prompt refresh of a ComponentBuild that shares only the DependencyBuild of a finished task: not guaranteed, the fan-out goes by the owner's GAV.
- Message texts, letter case of owner kinds, and pipeline workspaces: messages and kinds are symbolic, the two spellings of an owner kind are one.
- Start-up, scheme registration, generated client and deep-copy code, logging and event recording: they decide nothing.
- Concurrent requests: the controller is modelled with one worker, which is its default.
- Gradle-cache GAVs: a path-length heuristic that drops jars on purpose; the analysis is modelled in Maven mode.
- ClassFileTracker, hashes and regular expressions: inputs, equality and predicates; the callback for class files of the output takes the class name.
- AnalysisExamples.ChosenDependsOnWalk: how the hash sets of jars print is a parameter, since `Path.hashCode` and hash buckets are not modelled.
- AnalysisExamples.LostProvider: how its two hash sets print is a parameter for the same reason; the buckets given beside it follow the hash code of Unix paths.
- Ordered.Compare: characters are compared as Unicode scalars and not as UTF-16 code units.
- Deploy.ParseInt: only ASCII digits count as digits.
- SBOM output, process exit code and naming of a new ComponentBuild: the artifact list is what later code depends on.
- Registry download, archive extraction, AWS and Aether: one action per image that works, finds nothing or throws.
- Others editing or deleting RebuiltArtifacts during a deploy run: between runs only the command acts on them.
- `handleThrottling`: its retries of a deletion change no modelled state.
