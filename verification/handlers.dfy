/** What one request does to the store, as functions of the store and of the outcome of every client call. */
module Handlers {
  import opened Wrappers
  import opened Cluster

  /** A write succeeds, is refused, or takes effect although the caller sees an error. */
  datatype Write = Ok | Rejected | Lost

  /** Outcomes of the client calls made for one position of the spec; `true` means the call succeeds. */
  datatype ArtifactCalls = ArtifactCalls(get: bool, create: Write,
                                         stateRa: bool, stateDb: bool,
                                         deployRa: bool, deployDb: bool, list: bool,
                                         task: Write, taskName: Name)

  /** Outcomes for one ComponentBuild; `range` is the order in which the runtime ranges over its artifact states. */
  datatype CbCalls = CbCalls(config: bool, artifact: nat -> ArtifactCalls,
                             list: bool, notify: Write, runName: Name, range: seq<Gav>,
                             status: Write)

  /** Outcomes for one request; `order` is the order in which the server lists the ComponentBuilds. */
  datatype RequestCalls = RequestCalls(getAb: bool, getCb: bool, getTr: bool, getPr: bool,
                                       listCbs: bool, order: seq<Name>, cb: Name -> CbCalls,
                                       owner: bool, ownerRa: bool, ownerDb: bool, mark: Write, status: Write)

  datatype Result = Result(store: Store, err: bool)

  /** Progress of the loop over the spec. */
  datatype Scan = Scan(store: Store, states: map<Gav, ArtifactState>, outstanding: nat, err: bool)

  const NO_BUILD := ArtifactState("", false, false, false)

  ghost function DependencyBuildOf(s: Store, ab: Name, ra: bool, db: bool): Option<Name> {
    if !ra || ab !in s.ras then None
    else
      var d := LastDependencyOwner(s.ras[ab].owners);
      if d != "" && db && d in s.dbs then Some(d) else None
  }

  ghost function StateOf(s: Store, ab: Name, ra: bool, db: bool): ArtifactState
    requires ab in s.abs
  {
    var state := s.abs[ab].state;
    var built := state == BuildComplete;
    var d := DependencyBuildOf(s, ab, ra, db);
    ArtifactState(ab, built, built && d.Some? && Mark(s.dbs[d.value]) == DEPLOYED, state == BuildFailed || state == Missing)
  }

  function DeployTaskFor(config: map<ConfigKey, string>, ab: Name, db: Name): TaskRun {
    TaskRun(map[DeployTask := db], [OwnerRef(ArtifactBuildKind, ab)], false, Unknown,
            DeployParams(Lookup(config, AwsDomain), Lookup(config, AwsOwner), Lookup(config, MavenRepo), "false", ab))
  }

  ghost predicate DeployInFlight(s: Store, db: Name) {
    exists r :: r in s.trs && Deploying(s.trs[r], db)
  }

  ghost predicate NoticeInFlight(s: Store, cb: Name) {
    exists r :: r in s.prs && Notifying(s.prs[r], cb)
  }

  ghost function Deploy(s: Store, ab: Name, c: ArtifactCalls): (t: Store)
    ensures t == s.(trs := t.trs)
  {
    var d := DependencyBuildOf(s, ab, c.deployRa, c.deployDb);
    if d.None? || Mark(s.dbs[d.value]) != "" || !c.list || DeployInFlight(s, d.value) || c.task.Rejected? then s
    else s.(trs := s.trs[FreshName(c.taskName, s.trs.Keys) := DeployTaskFor(s.config, ab, d.value)])
  }

  ghost function ScanOne(p: Scan, gav: Gav, c: ArtifactCalls): (r: Scan)
    ensures r.store == p.store.(abs := r.store.abs, trs := r.store.trs)
  {
    var s := p.store;
    var ab := s.abrName(gav);
    if !c.get then
      Scan(s, p.states[gav := NO_BUILD], p.outstanding + 1, false)
    else if ab in s.abs then
      var a := StateOf(s, ab, c.stateRa, c.stateDb);
      Scan(if a.built && !a.deployed then Deploy(s, ab, c) else s,
           p.states[gav := a],
           p.outstanding + if a.Pending() then 1 else 0,
           false)
    else
      var s' := if c.create.Rejected? then s else s.(abs := s.abs[ab := ArtifactBuild(gav, Unset)]);
      if !c.create.Ok? then p.(store := s', err := true)
      else Scan(s', p.states[gav := ArtifactState(ab, false, false, false)], p.outstanding + 1, false)
  }

  /** The first `n` rounds of the loop; an error ends it. */
  ghost function ScanFirst(s: Store, artifacts: seq<Gav>, calls: nat -> ArtifactCalls, n: nat): (p: Scan)
    requires n <= |artifacts|
    ensures p.store == s.(abs := p.store.abs, trs := p.store.trs)
  {
    if n == 0 then Scan(s, map[], 0, false)
    else
      var p := ScanFirst(s, artifacts, calls, n - 1);
      if p.err then p else ScanOne(p, artifacts[n - 1], calls(n - 1))
  }

  /** The failed GAVs in the order in which the runtime ranges over the states. */
  function FailedIn(range: seq<Gav>, states: map<Gav, ArtifactState>): seq<Gav> {
    if range == [] then []
    else
      var rest := FailedIn(range[..|range| - 1], states);
      var g := range[|range| - 1];
      if g in states && states[g].failed then rest + [g] else rest
  }

  function NoticeFor(state: Verdict, range: seq<Gav>, states: map<Gav, ArtifactState>): Notice {
    if state == Failed then FailedBuilds(FailedIn(range, states))
    else if state == Complete then Retest
    else NoText
  }

  function NotifierFor(cb: Name, url: string, notice: Notice): PipelineRun {
    PipelineRun(map[NotifyPipeline := cb], [OwnerRef(ComponentBuildKind, cb)], false, Unknown, url, notice)
  }

  ghost function Notify(s: Store, cb: Name, url: string, st: ComponentBuildStatus, calls: CbCalls): (r: Result)
    ensures r.store == s.(prs := r.store.prs)
  {
    if url == "" then Result(s, false)
    else if !calls.list then Result(s, true)
    else if NoticeInFlight(s, cb) then Result(s, false)
    else
      var run := NotifierFor(cb, url, NoticeFor(st.state, calls.range, st.artifactState));
      Result(if calls.notify.Rejected? then s else s.(prs := s.prs[FreshName(calls.runName, s.prs.Keys) := run]),
             !calls.notify.Ok?)
  }

  ghost function PutStatus(s: Store, cb: Name, st: ComponentBuildStatus, w: Write): Result
    requires cb in s.cbs
  {
    Result(if w.Rejected? then s else s.(cbs := s.cbs[cb := s.cbs[cb].(status := st)]), !w.Ok?)
  }

  ghost predicate AnyFailed(states: map<Gav, ArtifactState>) {
    exists g :: g in states && states[g].failed
  }

  /** The status computed from a finished scan. */
  ghost function StatusFrom(before: ComponentBuildStatus, p: Scan): ComponentBuildStatus {
    ComponentBuildStatus(
      if p.outstanding > 0 then InProgress else if AnyFailed(p.states) then Failed else Complete,
      p.outstanding,
      p.states,
      if before.message == NoConfig then NoMessage else before.message,
      p.outstanding == 0 && before.resultNotified)
  }

  /** After the loop: announce a settled result that was not announced yet, then write the status. */
  ghost function Announce(p: Scan, cb: Name, c: ComponentBuild, calls: CbCalls): (r: Result)
    ensures r.store == p.store.(prs := r.store.prs)
  {
    var st := StatusFrom(c.status, p);
    if p.outstanding == 0 && !st.resultNotified then Notify(p.store, cb, c.spec.prUrl, st, calls)
    else Result(p.store, false)
  }

  ghost function FullScan(s: Store, cb: Name, calls: CbCalls): (p: Scan)
    requires cb in s.cbs
    ensures p.store == s.(abs := p.store.abs, trs := p.store.trs)
  {
    ScanFirst(s, s.cbs[cb].spec.artifacts, calls.artifact, |s.cbs[cb].spec.artifacts|)
  }

  ghost function HandleComponentBuild(s: Store, cb: Name, calls: CbCalls): (r: Result)
    requires cb in s.cbs
    ensures r.store.cbs.Keys == s.cbs.Keys
  {
    var c := s.cbs[cb];
    if !calls.config then Result(s, true)
    else if !Configured(s.config) then PutStatus(s, cb, c.status.(message := NoConfig), calls.status)
    else
      var p := FullScan(s, cb, calls);
      if p.err then Result(p.store, true)
      else
        var n := Announce(p, cb, c, calls);
        if n.err then Result(n.store, true) else PutStatus(n.store, cb, StatusFrom(c.status, p), calls.status)
  }

  ghost predicate Affected(s: Store, cb: Name, gav: Gav) {
    cb in s.cbs && gav in s.cbs[cb].status.artifactState
  }

  /** Handles the first `n` listed ComponentBuilds whose status names the GAV; their errors are only logged. */
  ghost function FanOut(s: Store, gav: Gav, calls: RequestCalls, n: nat): (t: Store)
    requires n <= |calls.order|
    ensures t.cbs.Keys == s.cbs.Keys
  {
    if n == 0 then s
    else
      var p := FanOut(s, gav, calls, n - 1);
      var cb := calls.order[n - 1];
      if Affected(s, cb, gav) then HandleComponentBuild(p, cb, calls.cb(cb)).store else p
  }

  ghost function HandleArtifactBuild(s: Store, gav: Gav, calls: RequestCalls): Result {
    if !calls.listCbs then Result(s, true) else Result(FanOut(s, gav, calls, |calls.order|), false)
  }

  /** Records a finished deploy on the DependencyBuild that owns the artifact; a failing write is only logged. */
  ghost function MarkDeployed(s: Store, ab: Name, calls: RequestCalls): Store {
    var d := DependencyBuildOf(s, ab, calls.ownerRa, calls.ownerDb);
    if d.None? || calls.mark.Rejected? then s
    else s.(dbs := s.dbs[d.value := DependencyBuild(s.dbs[d.value].annotations[DeployedKey := DEPLOYED])])
  }

  ghost function HandleTaskRun(s: Store, tr: TaskRun, calls: RequestCalls): Result {
    var ab := FirstOwner(tr.owners, ArtifactBuildKind);
    if !tr.completed || Lookup(tr.labels, DeployTask) == "" || ab == "" then Result(s, false)
    else if !calls.owner || ab !in s.abs then Result(s, true)
    else
      HandleArtifactBuild(if tr.succeeded == True then MarkDeployed(s, ab, calls) else s, s.abs[ab].gav, calls)
  }

  ghost function HandlePipelineRun(s: Store, pr: PipelineRun, calls: RequestCalls): Result {
    var cb := FirstOwner(pr.owners, ComponentBuildKind);
    if Lookup(pr.labels, TektonPipeline) != NOTIFIER_PIPELINE || !pr.completed || cb == "" then Result(s, false)
    else if !calls.owner || cb !in s.cbs then Result(s, true)
    else if pr.succeeded == True then PutStatus(s, cb, s.cbs[cb].status.(resultNotified := true), calls.status)
    else HandleComponentBuild(s, cb, calls.cb(cb))
  }

  /** A key carries no kind: the first kind that has an object of that name is the one handled. */
  ghost function Reconcile(s: Store, key: Name, calls: RequestCalls): Result {
    if !calls.getAb || !calls.getCb || !calls.getTr || !calls.getPr then Result(s, true)
    else if key in s.cbs then HandleComponentBuild(s, key, calls.cb(key))
    else if key in s.abs then HandleArtifactBuild(s, s.abs[key].gav, calls)
    else if key in s.trs then HandleTaskRun(s, s.trs[key], calls)
    else if key in s.prs then HandlePipelineRun(s, s.prs[key], calls)
    else Result(s, false)
  }

  /** The orders a request sees really list the objects they range over. */
  ghost predicate Listed(s: Store, calls: RequestCalls) {
    && Enumerates(calls.order, s.cbs.Keys)
    && forall n | n in s.cbs :: Ranged(s.cbs[n], calls.cb(n))
  }

  ghost predicate Ranged(cb: ComponentBuild, calls: CbCalls) {
    Enumerates(calls.range, Artifacts(cb))
  }

  ghost predicate CleanArtifact(c: ArtifactCalls) {
    c.get && c.create.Ok? && c.stateRa && c.stateDb && c.deployRa && c.deployDb && c.list && c.task.Ok?
  }

  /** No client call fails while a ComponentBuild is handled. */
  ghost predicate Clean(calls: CbCalls) {
    && calls.config && calls.list && calls.notify.Ok? && calls.status.Ok?
    && forall i :: CleanArtifact(calls.artifact(i))
  }

  /** No client call fails during a request. */
  ghost predicate CleanRequest(calls: RequestCalls) {
    && calls.getAb && calls.getCb && calls.getTr && calls.getPr && calls.listCbs
    && calls.owner && calls.ownerRa && calls.ownerDb && calls.mark.Ok? && calls.status.Ok?
    && forall n :: Clean(calls.cb(n))
  }
}
