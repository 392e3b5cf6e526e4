/** The files and the command history of the check-in test script, and what one
    invocation does to them as a function of its options and its command results. */
module CheckinState {
  import opened Wrappers

  // ---------- state that survives an invocation ----------

  /** The commands of all invocations, in order. `selected` are the build cases of the pulling invocation. */
  datatype Event =
    | InitialPull(passed: bool, selected: set<string>)
    | Configure(name: string, rtn: int)
    | Make(name: string, rtn: int)
    | CTest(name: string, rtn: int)
    | SkippedTests(name: string)
    | FinalPull(repo: nat, rtn: int)
    | Amend(repo: nat, rtn: int)
    | Push(repo: nat, forced: bool, rtn: int)

  /** The success markers of a build directory. A marker that exists holds the history index of the event that touched it. */
  datatype BuildDir = BuildDir(configure: Option<nat>, make: Option<nat>, ctest: Option<nat>, email: bool)

  datatype World = World(pull: Option<nat>, dirs: map<string, BuildDir>, log: seq<Event>)

  const NEW_DIR := BuildDir(None, None, None, false)
  const NEW_WORLD := World(None, map[], [])

  // ---------- inputs of an invocation ----------

  datatype Options = Options(
    doPull: bool, doConfigure: bool, doBuild: bool, doTest: bool, doAll: bool, localDoAll: bool,
    doPush: bool, doPushReadinessCheck: bool, forcePush: bool, appendTestResults: bool,
    wipeClean: bool, allowNoPull: bool,
    abortGracefullyIfNoChangesPulled: bool, abortGracefullyIfNoChangesToPush: bool, skipPush: bool)

  function Expand(o: Options): Options {
    var o := if o.doAll then o.(doPull := true, doConfigure := true, doBuild := true, doTest := true) else o;
    if o.localDoAll then o.(allowNoPull := true, doConfigure := true, doBuild := true, doTest := true) else o
  }

  predicate PerformAnyBuildTestActions(o: Options) {
    o.doConfigure || o.doBuild || o.doTest || o.doAll || o.localDoAll
  }

  predicate PerformAnyActions(o: Options) {
    PerformAnyBuildTestActions(o) || o.doPull
  }

  datatype Case = Case(name: string, run: bool)

  datatype Analysis = AnalysisPassed | AnalysisFailed | AnalysisRaised(emailTouched: bool)

  /** What happens while one case runs; a field that is not reached has no effect. */
  datatype CaseOutcome = CaseOutcome(
    entryRaises: bool, setupRaises: bool, preConfigurePassed: bool, anyEnables: bool,
    configureRtn: int, makeRtn: int, ctestRtn: int, analysis: Analysis)

  datatype RepoOutcome = RepoOutcome(hasCommits: bool, finalPullRtn: int, amendRaises: bool, amendRtn: int, pushRtn: int)

  /** Where an exception ends the invocation before its build cases, if anywhere. */
  datatype Interrupt = NoInterrupt | InStatus | InPull | InDiff

  /** What happens in the rest of an invocation. */
  datatype Outcomes = Outcomes(
    interrupt: Interrupt, hasChangesToPush: bool, reposAreClean: bool, pullCommandsPass: bool, pulledSomeChanges: bool,
    cases: seq<CaseOutcome>, readinessRaises: bool, summariesRaise: bool, repos: seq<RepoOutcome>)

  // ---------- 1) cleaning ----------

  /** The directory after cleaning; None if it is removed. */
  function CleanDir(o: Options, d: BuildDir): Option<BuildDir> {
    if o.wipeClean then None
    else if PerformAnyActions(o) then
      var d := if o.doConfigure || o.doPull then d.(configure := None) else d;
      var d := if o.doBuild || o.doConfigure || o.doPull then d.(make := None) else d;
      var d := if o.doTest || o.doBuild || o.doConfigure || o.doPull then d.(ctest := None) else d;
      Some(d.(email := false))
    else Some(d)
  }

  function CleanCase(o: Options, c: Case, dirs: map<string, BuildDir>): map<string, BuildDir> {
    if !c.run || c.name !in dirs then dirs
    else
      var cleaned := CleanDir(o, dirs[c.name]);
      if cleaned.None? then dirs - {c.name} else dirs[c.name := cleaned.value]
  }

  function CleanCases(o: Options, cases: seq<Case>, dirs: map<string, BuildDir>): map<string, BuildDir> {
    if cases == [] then dirs
    else CleanCase(o, cases[|cases| - 1], CleanCases(o, cases[..|cases| - 1], dirs))
  }

  function Clean(o: Options, cases: seq<Case>, w: World): World {
    World(if o.doPull then None else w.pull, CleanCases(o, cases, w.dirs), w.log)
  }

  // ---------- 3) initial pull ----------

  function Selected(cases: seq<Case>): set<string> {
    set c | c in cases && c.run :: c.name
  }

  /** The pull passes if the repositories are clean, every pull command returns 0 and nothing is raised. */
  predicate PullSucceeds(x: Outcomes) {
    x.reposAreClean && x.pullCommandsPass && x.interrupt != InPull
  }

  function InitialPullStep(o: Options, cases: seq<Case>, x: Outcomes, w: World): World {
    if !o.doPull then w
    else
      var passed := PullSucceeds(x);
      w.(pull := if passed then Some(|w.log|) else w.pull, log := w.log + [InitialPull(passed, Selected(cases))])
  }

  function PullPassed(o: Options, x: Outcomes, w: World): bool {
    if o.doPull then PullSucceeds(x) else w.pull.Some? || o.allowNoPull
  }

  // ---------- 5) build cases ----------

  predicate AbortGracefully(o: Options, x: Outcomes) {
    && PerformAnyBuildTestActions(o) && o.doPull && x.reposAreClean
    && ((!x.pulledSomeChanges && o.abortGracefullyIfNoChangesPulled)
        || (!x.hasChangesToPush && o.abortGracefullyIfNoChangesToPush))
  }

  predicate RunBuildCases(o: Options, x: Outcomes, w: World) {
    && PerformAnyBuildTestActions(o)
    && !AbortGracefully(o, x)
    && (if o.doPull then PullPassed(o, x, w) else o.allowNoPull || w.pull.Some?)
  }

  /** A case in progress: its directory and the history so far, whether it was skipped for lack of enabled
      packages, whether an exception was raised, and whether the last step passed. */
  datatype Progress = Progress(dir: BuildDir, log: seq<Event>, skipped: bool, raised: bool, passed: bool)

  function ConfigureStep(o: Options, name: string, c: CaseOutcome, dir: BuildDir, log: seq<Event>): Progress {
    if c.setupRaises then Progress(dir, log, false, true, false)
    else if o.doConfigure && !c.preConfigurePassed then Progress(dir, log, false, false, false)
    else if !c.anyEnables then Progress(dir, log, true, false, false)
    else if o.doConfigure then
      var log' := log + [Configure(name, c.configureRtn)];
      if c.configureRtn == 0 then Progress(dir.(configure := Some(|log|)), log', false, false, true)
      else Progress(dir, log', false, true, false)
    else Progress(dir, log, false, false, dir.configure.Some?)
  }

  function BuildStep(o: Options, name: string, c: CaseOutcome, p: Progress): Progress {
    if p.raised then p
    else if o.doBuild && p.passed then
      var log' := p.log + [Make(name, c.makeRtn)];
      if c.makeRtn == 0 then p.(dir := p.dir.(make := Some(|p.log|)), log := log')
      else p.(log := log', raised := true, passed := false)
    else if o.doBuild then p
    else p.(passed := p.dir.make.Some?)
  }

  function TestStep(o: Options, name: string, c: CaseOutcome, p: Progress): Progress {
    if p.raised then p
    else if o.doTest && p.passed then
      var log' := p.log + [CTest(name, c.ctestRtn)];
      if c.ctestRtn == 0 then p.(dir := p.dir.(ctest := Some(|p.log|)), log := log')
      else p.(log := log', raised := true)
    else if o.doTest && p.skipped then
      p.(dir := p.dir.(ctest := Some(|p.log|)), log := p.log + [SkippedTests(name)])
    else p
  }

  /** The three steps of a case. An exception in one of them skips the rest. */
  function CaseSteps(o: Options, name: string, c: CaseOutcome, dir: BuildDir, log: seq<Event>): Progress {
    TestStep(o, name, c, BuildStep(o, name, c, ConfigureStep(o, name, c, dir, log)))
  }

  datatype CaseResult = CaseResult(w: World, success: bool, skipped: bool)

  function RunCase(o: Options, name: string, c: CaseOutcome, w: World): CaseResult {
    if c.entryRaises then CaseResult(w, false, false)
    else if !PerformAnyActions(o) then CaseResult(w, true, false)
    else
      var dir := if name in w.dirs then w.dirs[name] else NEW_DIR;
      var p := CaseSteps(o, name, c, dir, w.log);
      var touched := c.analysis == AnalysisPassed || c.analysis == AnalysisRaised(true);
      var dir := if touched then p.dir.(email := true) else p.dir;
      CaseResult(w.(dirs := w.dirs[name := dir], log := p.log), !p.raised && c.analysis == AnalysisPassed, p.skipped)
  }

  datatype CasesResult = CasesResult(w: World, success: bool, skipped: seq<bool>)

  /** Runs the first `n` cases. */
  function RunCases(o: Options, cases: seq<Case>, x: seq<CaseOutcome>, w: World, n: nat): (r: CasesResult)
    requires n <= |cases| == |x|
    ensures |r.skipped| == n
  {
    if n == 0 then CasesResult(w, true, [])
    else
      var before := RunCases(o, cases, x, w, n - 1);
      if !cases[n - 1].run then before.(skipped := before.skipped + [false])
      else
        var r := RunCase(o, cases[n - 1].name, x[n - 1], before.w);
        CasesResult(r.w, before.success && r.success, before.skipped + [r.skipped])
  }

  // ---------- 6) push readiness ----------

  predicate CaseOkayToCommit(c: Case, skipped: bool, w: World) {
    !c.run || skipped || (c.name in w.dirs && w.dirs[c.name].ctest.Some?)
  }

  predicate OkayToCommit(cases: seq<Case>, r: CasesResult)
    requires |r.skipped| == |cases|
  {
    && r.success
    && (forall i :: 0 <= i < |cases| ==> CaseOkayToCommit(cases[i], r.skipped[i], r.w))
    && (exists i :: 0 <= i < |cases| && cases[i].run && CaseOkayToCommit(cases[i], r.skipped[i], r.w) && !r.skipped[i])
  }

  // ---------- 7) final pull, amend, push ----------

  datatype Logged = Logged(log: seq<Event>, passed: bool)

  /** The final pulls of the first `n` repositories; the first failure ends them. */
  function FinalPulls(repos: seq<RepoOutcome>, log: seq<Event>, n: nat): Logged
    requires n <= |repos|
  {
    if n == 0 then Logged(log, true)
    else
      var before := FinalPulls(repos, log, n - 1);
      if !before.passed then before
      else Logged(before.log + [FinalPull(n - 1, repos[n - 1].finalPullRtn)], repos[n - 1].finalPullRtn == 0)
  }

  /** A failed amend ends the loop (`stopped`), an exception does not. */
  datatype Amended = Amended(log: seq<Event>, passed: bool, stopped: bool)

  function Amends(repos: seq<RepoOutcome>, log: seq<Event>, n: nat): Amended
    requires n <= |repos|
  {
    if n == 0 then Amended(log, true, false)
    else
      var before, repo := Amends(repos, log, n - 1), repos[n - 1];
      if before.stopped || !repo.hasCommits then before
      else if repo.amendRaises then before.(passed := false)
      else
        var log' := before.log + [Amend(n - 1, repo.amendRtn)];
        if repo.amendRtn == 0 then before.(log := log') else Amended(log', false, true)
  }

  function Pushes(repos: seq<RepoOutcome>, forced: bool, log: seq<Event>, n: nat): Logged
    requires n <= |repos|
  {
    if n == 0 then Logged(log, true)
    else
      var before, repo := Pushes(repos, forced, log, n - 1), repos[n - 1];
      if !before.passed || !repo.hasCommits then before
      else Logged(before.log + [Push(n - 1, forced, repo.pushRtn)], repo.pushRtn == 0)
  }

  function PushStep(o: Options, x: Outcomes, forced: bool, w: World): World {
    var n := |x.repos|;
    var pulled := FinalPulls(x.repos, w.log, n);
    if !pulled.passed then w.(log := pulled.log)
    else
      var amended := if o.appendTestResults then Amends(x.repos, pulled.log, n) else Amended(pulled.log, true, false);
      if !amended.passed || x.summariesRaise || o.skipPush then w.(log := amended.log)
      else w.(log := Pushes(x.repos, forced, amended.log, n).log)
  }

  // ---------- one invocation, and any number of them ----------

  /** The state when the build cases are done. */
  function BuildPhase(o: Options, cases: seq<Case>, x: Outcomes, w: World): (r: CasesResult)
    requires |cases| == |x.cases|
    ensures |r.skipped| == |cases|
  {
    var pulled := InitialPullStep(o, cases, x, Clean(o, cases, w));
    if RunBuildCases(o, x, pulled) then RunCases(o, cases, x.cases, pulled, |cases|)
    else CasesResult(pulled, true, seq(|cases|, _ => false))
  }

  function PushPhase(o: Options, cases: seq<Case>, x: Outcomes, r: CasesResult): World
    requires |r.skipped| == |cases|
  {
    if !o.doPushReadinessCheck || x.readinessRaises then r.w
    else
      var okayToCommit := OkayToCommit(cases, r);
      var forced := !okayToCommit && o.forcePush;
      if o.doPush && (okayToCommit || forced) && r.w.pull.Some? then PushStep(o, x, forced, r.w) else r.w
  }

  function Invoke(options: Options, cases: seq<Case>, x: Outcomes, w: World): World
    requires |cases| == |x.cases|
  {
    var o := Expand(options);
    match x.interrupt
    case InStatus => Clean(o, cases, w)
    case InPull => InitialPullStep(o, cases, x, Clean(o, cases, w))
    case InDiff => InitialPullStep(o, cases, x, Clean(o, cases, w))
    case NoInterrupt => PushPhase(o, cases, x, BuildPhase(o, cases, x, w))
  }

  datatype Invocation = Invocation(options: Options, cases: seq<Case>, outcomes: Outcomes)

  function InvokeAll(runs: seq<Invocation>, w: World): World
    requires forall r :: r in runs ==> |r.cases| == |r.outcomes.cases|
  {
    if runs == [] then w
    else
      var last := runs[|runs| - 1];
      Invoke(last.options, last.cases, last.outcomes, InvokeAll(runs[..|runs| - 1], w))
  }
}
