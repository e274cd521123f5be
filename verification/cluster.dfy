/** The objects of one namespace that the ComponentBuild controller reads and writes. */
module Cluster {
  import opened Wrappers

  type Name = string
  type Gav = string

  /** Label, annotation and config keys are kept symbolic: only their identity matters. */
  datatype LabelKey = DeployTask | NotifyPipeline | TektonPipeline | OtherLabel(text: string)
  datatype AnnotationKey = DeployedKey | OtherAnnotation(text: string)
  datatype ConfigKey = MavenRepo | AwsDomain | AwsOwner | OtherConfig(text: string)

  const NOTIFIER_PIPELINE := "component-build-notifier"
  const DEPLOYED := "true"

  datatype OwnerKind = ArtifactBuildKind | ComponentBuildKind | DependencyBuildKind | OtherKind(text: string)
  datatype OwnerRef = OwnerRef(kind: OwnerKind, name: Name)

  /** The Succeeded condition of a run; a run without one counts as Unknown. */
  datatype Condition = Unknown | True | False

  datatype BuildState = Unset | New | Discovering | Missing | Building | BuildFailed | BuildComplete

  datatype ArtifactBuild = ArtifactBuild(gav: Gav, state: BuildState)
  datatype RebuiltArtifact = RebuiltArtifact(owners: seq<OwnerRef>)
  datatype DependencyBuild = DependencyBuild(annotations: map<AnnotationKey, string>)

  datatype DeployParams = DeployParams(domain: string, owner: string, repo: string, force: string, artifact: Name)

  datatype TaskRun = TaskRun(labels: map<LabelKey, string>, owners: seq<OwnerRef>,
                             completed: bool, succeeded: Condition, params: DeployParams)

  /** What the notifier posts on the pull request. */
  datatype Notice = NoText | Retest | FailedBuilds(gavs: seq<Gav>)

  datatype PipelineRun = PipelineRun(labels: map<LabelKey, string>, owners: seq<OwnerRef>,
                                     completed: bool, succeeded: Condition, url: string, notice: Notice)

  datatype ArtifactState = ArtifactState(artifactBuild: Name, built: bool, deployed: bool, failed: bool) {
    predicate Done() {
      built && deployed
    }

    /** Neither done nor failed: the artifact counts as outstanding. */
    predicate Pending() {
      !Done() && !failed
    }
  }

  datatype Verdict = NoVerdict | InProgress | Complete | Failed
  datatype Message = NoMessage | NoConfig | OtherMessage(text: string)

  datatype ComponentBuildSpec = ComponentBuildSpec(scmUrl: string, prUrl: string, tag: string, artifacts: seq<Gav>)
  datatype ComponentBuildStatus = ComponentBuildStatus(state: Verdict, outstanding: nat,
                                                       artifactState: map<Gav, ArtifactState>,
                                                       message: Message, resultNotified: bool)
  datatype ComponentBuild = ComponentBuild(spec: ComponentBuildSpec, status: ComponentBuildStatus)

  const EMPTY_STATUS := ComponentBuildStatus(NoVerdict, 0, map[], NoMessage, false)

  /** `abrName` is the (uninterpreted) naming scheme from GAVs to ArtifactBuild names. */
  datatype Store = Store(abrName: Gav -> Name,
                         config: map<ConfigKey, string>,
                         cbs: map<Name, ComponentBuild>,
                         abs: map<Name, ArtifactBuild>,
                         ras: map<Name, RebuiltArtifact>,
                         dbs: map<Name, DependencyBuild>,
                         trs: map<Name, TaskRun>,
                         prs: map<Name, PipelineRun>)

  /** Looks a key up the way Go does: an absent key reads as the empty string. */
  function Lookup<K>(m: map<K, string>, k: K): string {
    if k in m then m[k] else ""
  }

  /** The annotation that records a finished deploy. */
  function Mark(db: DependencyBuild): string {
    Lookup(db.annotations, DeployedKey)
  }

  /** A missing config map and a map without the keys behave alike. */
  predicate Configured(config: map<ConfigKey, string>) {
    Lookup(config, MavenRepo) != "" && Lookup(config, AwsOwner) != "" && Lookup(config, AwsDomain) != ""
  }

  /** The name of the last owner that is a DependencyBuild, "" if there is none. */
  function LastDependencyOwner(owners: seq<OwnerRef>): Name {
    if owners == [] then ""
    else if owners[|owners| - 1].kind == DependencyBuildKind then owners[|owners| - 1].name
    else LastDependencyOwner(owners[..|owners| - 1])
  }

  /** The name of the first owner of the given kind, "" if there is none. */
  function FirstOwner(owners: seq<OwnerRef>, kind: OwnerKind): Name {
    if owners == [] then ""
    else if owners[0].kind == kind then owners[0].name
    else FirstOwner(owners[1..], kind)
  }

  /** A deploy of DependencyBuild `db` that has not finished. */
  predicate Deploying(tr: TaskRun, db: Name) {
    DeployTask in tr.labels && tr.labels[DeployTask] == db && tr.succeeded == Unknown
  }

  /** A notification about ComponentBuild `cb` that has not finished. */
  predicate Notifying(pr: PipelineRun, cb: Name) {
    NotifyPipeline in pr.labels && pr.labels[NotifyPipeline] == cb && pr.succeeded == Unknown
  }

  predicate Terminal(state: BuildState) {
    state in {Missing, BuildFailed, BuildComplete}
  }

  function Named(artifacts: seq<Gav>): set<Gav> {
    set g | g in artifacts
  }

  /** The distinct artifacts a ComponentBuild names. */
  function Artifacts(cb: ComponentBuild): set<Gav> {
    Named(cb.spec.artifacts)
  }

  /** `order` lists every element of `keys` exactly once. */
  ghost predicate Enumerates<T(!new)>(order: seq<T>, keys: set<T>) {
    && (forall x :: x in order <==> x in keys)
    && (forall i, j | 0 <= i < j < |order| :: order[i] != order[j])
  }

  /** The name the server gives to a generated object: its random suffix is drawn again while the name is taken. */
  function FreshName(hint: Name, taken: set<Name>): (name: Name)
    ensures name !in taken && |name| >= |hint|
    ensures hint !in taken ==> name == hint
    decreases |taken|
  {
    if hint !in taken then hint else FreshName(hint + "x", taken - {hint})
  }
}
