/** What an invocation of the check-in test script achieves: the markers that passing cases earn, and exactly what is pushed. */
module CheckinProgress {
  import opened Wrappers
  import opened CheckinState
  import opened CheckinSafety

  // ---------- one case ----------

  /** Every step of the case succeeds. */
  predicate Passes(c: CaseOutcome) {
    && !c.entryRaises && !c.setupRaises && c.preConfigurePassed && c.anyEnables
    && c.configureRtn == 0 && c.makeRtn == 0 && c.ctestRtn == 0 && c.analysis == AnalysisPassed
  }

  /** Nothing goes wrong, but no packages are enabled. */
  predicate Skips(c: CaseOutcome) {
    !c.entryRaises && !c.setupRaises && c.preConfigurePassed && !c.anyEnables && c.analysis == AnalysisPassed
  }

  predicate RequestsAllSteps(o: Options) {
    o.doConfigure && o.doBuild && o.doTest
  }

  /** The case has been configured, built and tested, in this order and from history index `from` on. */
  ghost predicate AllStepsMarked(name: string, w: World, from: nat) {
    name in w.dirs &&
    var d := w.dirs[name];
    && d.configure.Some? && d.make.Some? && d.ctest.Some? && d.email
    && from <= d.configure.value < d.make.value < d.ctest.value < |w.log|
    && w.log[d.configure.value] == Configure(name, 0)
    && w.log[d.make.value] == Make(name, 0)
    && w.log[d.ctest.value] == CTest(name, 0)
  }

  lemma CaseResultIs(o: Options, name: string, c: CaseOutcome, w: World)
    requires RequestsAllSteps(o) && !HasTestMarker(name, w)
    ensures var r := RunCase(o, name, c, w);
            && (Passes(c) ==> r.success && !r.skipped && AllStepsMarked(name, r.w, |w.log|))
            && (Skips(c) ==> r.success && r.skipped && HasTestMarker(name, r.w)
                             && Touched(r.w.dirs[name].ctest, r.w.log, SkippedTests(name)))
            && (!Passes(c) && !Skips(c) ==> !(r.success && (r.skipped || HasTestMarker(name, r.w))))
  {
  }

  /** Whether a case's tests are run and pass, given the markers in its directory. A step that is not requested relies on
      its marker; a configure or build that fails ends the case. */
  predicate TestsPass(o: Options, c: CaseOutcome, hasConfigure: bool, hasMake: bool) {
    var isConfigured := c.anyEnables && (if o.doConfigure then c.preConfigurePassed && c.configureRtn == 0 else hasConfigure);
    var configureRaises := o.doConfigure && c.preConfigurePassed && c.anyEnables && c.configureRtn != 0;
    var isBuilt := if o.doBuild then isConfigured && c.makeRtn == 0 else hasMake && !configureRaises;
    o.doTest && !c.entryRaises && !c.setupRaises && isBuilt && c.ctestRtn == 0
  }

  function DirOf(w: World, name: string): BuildDir {
    if name in w.dirs then w.dirs[name] else NEW_DIR
  }

  lemma TestsPassIff(o: Options, name: string, c: CaseOutcome, w: World)
    requires PerformAnyActions(o)
    ensures var d, r := DirOf(w, name), RunCase(o, name, c, w);
            && w.log <= r.w.log
            && (CTest(name, 0) in r.w.log[|w.log|..] <==> TestsPass(o, c, d.configure.Some?, d.make.Some?))
  {
    hide ConfigureStep, BuildStep, TestStep, TestsPass;
    StepsTestIff(o, name, c, DirOf(w, name), w.log);
    if c.entryRaises {
      EntryRaisesTestsNothing(o, c, DirOf(w, name));
    }
  }

  lemma EntryRaisesTestsNothing(o: Options, c: CaseOutcome, d: BuildDir)
    requires c.entryRaises
    ensures !TestsPass(o, c, d.configure.Some?, d.make.Some?)
  {
  }

  lemma StepsTestIff(o: Options, name: string, c: CaseOutcome, d: BuildDir, log: seq<Event>)
    ensures var p := CaseSteps(o, name, c, d, log);
            && log <= p.log
            && (!c.entryRaises ==>
                  (CTest(name, 0) in p.log[|log|..] <==> TestsPass(o, c, d.configure.Some?, d.make.Some?)))
  {
    var p := BuildStep(o, name, c, ConfigureStep(o, name, c, d, log));
    BeforeTests(o, name, c, d, log);
    BuiltIff(o, name, c, d, log);
    hide ConfigureStep, BuildStep, TestsPass;
    var q := TestStep(o, name, c, p);
    assert q.log[|log|..] == p.log[|log|..] + q.log[|p.log|..];
    assert CTest(name, 0) in q.log[|p.log|..] <==> o.doTest && p.passed && !p.raised && c.ctestRtn == 0;
  }

  lemma BuiltIff(o: Options, name: string, c: CaseOutcome, d: BuildDir, log: seq<Event>)
    ensures var p := BuildStep(o, name, c, ConfigureStep(o, name, c, d, log));
            o.doTest && !c.entryRaises && p.passed && !p.raised && c.ctestRtn == 0
            <==> TestsPass(o, c, d.configure.Some?, d.make.Some?)
  {
  }

  /** The commands that the three steps of a case add to the history. */
  lemma StepsAdd(o: Options, name: string, c: CaseOutcome, d: BuildDir, log: seq<Event>)
    ensures var p := ConfigureStep(o, name, c, d, log);
            var q := BuildStep(o, name, c, p);
            var t := TestStep(o, name, c, q);
            && (p.log == log || p.log == log + [Configure(name, c.configureRtn)])
            && (q.log == p.log || q.log == p.log + [Make(name, c.makeRtn)])
            && (t.log == q.log || t.log == q.log + [CTest(name, c.ctestRtn)] || t.log == q.log + [SkippedTests(name)])
  {
  }

  lemma InEither(a: seq<Event>, b: seq<Event>, c: seq<Event>, e: Event)
    requires a <= b <= c
    ensures e in c[|a|..] <==> e in b[|a|..] || e in c[|b|..]
  {
    NewEvents(a, b, c);
  }

  lemma BeforeTests(o: Options, name: string, c: CaseOutcome, d: BuildDir, log: seq<Event>)
    ensures var q := BuildStep(o, name, c, ConfigureStep(o, name, c, d, log));
            log <= q.log && forall e :: e in q.log[|log|..] ==> !e.CTest?
  {
    StepsAdd(o, name, c, d, log);
    hide *;
    var p := ConfigureStep(o, name, c, d, log);
    var q := BuildStep(o, name, c, p);
    NewEvents(log, p.log, q.log);
  }

  lemma TestsOnlyItself(o: Options, name: string, c: CaseOutcome, w: World, e: Event)
    requires e.CTest? && e.name != name
    ensures var r := RunCase(o, name, c, w); w.log <= r.w.log && e !in r.w.log[|w.log|..]
  {
    hide ConfigureStep, BuildStep, TestStep;
    var d := DirOf(w, name);
    BeforeTests(o, name, c, d, w.log);
    StepsAdd(o, name, c, d, w.log);
    var q := BuildStep(o, name, c, ConfigureStep(o, name, c, d, w.log));
    InEither(w.log, q.log, TestStep(o, name, c, q).log, e);
  }

  // ---------- all cases ----------

  ghost predicate CaseReachesEnd(c: Case, outcome: CaseOutcome, skipped: bool, success: bool, w: World, from: nat) {
    && (Passes(outcome) ==> !skipped && AllStepsMarked(c.name, w, from))
    && (Skips(outcome) ==> skipped)
    && (!Passes(outcome) && !Skips(outcome) ==> !(success && (skipped || HasTestMarker(c.name, w))))
  }

  lemma OtherCaseKeepsEnd(c: Case, outcome: CaseOutcome, skipped: bool, success: bool, w: World, from: nat, success': bool, w': World)
    requires CaseReachesEnd(c, outcome, skipped, success, w, from)
    requires (success' ==> success) && w.log <= w'.log
    requires c.name in w.dirs ==> c.name in w'.dirs && w'.dirs[c.name] == w.dirs[c.name]
    requires HasTestMarker(c.name, w') <==> HasTestMarker(c.name, w)
    ensures CaseReachesEnd(c, outcome, skipped, success', w', from)
  {
  }

  lemma {:induction false} CasesReachEnd(o: Options, cases: seq<Case>, x: seq<CaseOutcome>, w: World, n: nat)
    requires n <= |cases| == |x| && DistinctNames(cases) && RequestsAllSteps(o)
    requires forall i :: 0 <= i < |cases| && cases[i].run ==> !HasTestMarker(cases[i].name, w)
    ensures var r := RunCases(o, cases, x, w, n);
            && w.log <= r.w.log
            && (forall i :: n <= i < |cases| && cases[i].run ==> !HasTestMarker(cases[i].name, r.w))
            && (forall i :: 0 <= i < n && cases[i].run ==>
                  CaseReachesEnd(cases[i], x[i], r.skipped[i], r.success, r.w, |w.log|))
            && ((forall i :: 0 <= i < n && cases[i].run ==> Passes(x[i]) || Skips(x[i])) ==> r.success)
  {
    hide RunCase, Passes, Skips, AllStepsMarked, CaseReachesEnd, HasTestMarker;
    if n > 0 {
      CasesReachEnd(o, cases, x, w, n - 1);
      var before, c := RunCases(o, cases, x, w, n - 1), cases[n - 1];
      if c.run {
        var r := RunCase(o, c.name, x[n - 1], before.w);
        RunCaseTests(o, c.name, x[n - 1], before.w);
        CaseEnds(o, cases, x, w, before, n - 1);
        forall i | 0 <= i < n - 1 && cases[i].run
          ensures CaseReachesEnd(cases[i], x[i], before.skipped[i], before.success && r.success, r.w, |w.log|)
        {
          OtherCaseKeepsEnd(cases[i], x[i], before.skipped[i], before.success, before.w, |w.log|, before.success && r.success, r.w);
        }
      }
    }
  }

  lemma CaseEnds(o: Options, cases: seq<Case>, x: seq<CaseOutcome>, w: World, before: CasesResult, i: nat)
    requires i < |cases| == |x| && RequestsAllSteps(o) && !HasTestMarker(cases[i].name, before.w) && w.log <= before.w.log
    ensures var r := RunCase(o, cases[i].name, x[i], before.w);
            && CaseReachesEnd(cases[i], x[i], r.skipped, before.success && r.success, r.w, |w.log|)
            && (Passes(x[i]) || Skips(x[i]) ==> r.success)
  {
    hide RunCase, Passes, Skips;
    CaseResultIs(o, cases[i].name, x[i], before.w);
  }

  /** No selected case fails, and some selected case passes. */
  ghost predicate Ready(cases: seq<Case>, x: seq<CaseOutcome>)
    requires |cases| == |x|
  {
    && (forall i :: 0 <= i < |cases| && cases[i].run ==> Passes(x[i]) || Skips(x[i]))
    && (exists i :: 0 <= i < |cases| && cases[i].run && Passes(x[i]))
  }

  lemma ReadyIff(o: Options, cases: seq<Case>, x: seq<CaseOutcome>, w: World)
    requires |cases| == |x| && DistinctNames(cases) && RequestsAllSteps(o)
    requires forall i :: 0 <= i < |cases| && cases[i].run ==> !HasTestMarker(cases[i].name, w)
    ensures OkayToCommit(cases, RunCases(o, cases, x, w, |cases|)) <==> Ready(cases, x)
  {
    var r := RunCases(o, cases, x, w, |cases|);
    CasesReachEnd(o, cases, x, w, |cases|);
    hide RunCases, Passes, Skips;
    if OkayToCommit(cases, r) {
      forall i | 0 <= i < |cases| && cases[i].run
        ensures Passes(x[i]) || Skips(x[i])
      {
        assert CaseOkayToCommit(cases[i], r.skipped[i], r.w);
      }
      var i :| 0 <= i < |cases| && cases[i].run && CaseOkayToCommit(cases[i], r.skipped[i], r.w) && !r.skipped[i];
      assert Passes(x[i]);
    }
  }

  // ---------- the final steps ----------

  ghost predicate FinalPullsReturnZero(repos: seq<RepoOutcome>, n: nat)
    requires n <= |repos|
  {
    forall i :: 0 <= i < n ==> repos[i].finalPullRtn == 0
  }

  ghost predicate AmendsReturnZero(repos: seq<RepoOutcome>, n: nat)
    requires n <= |repos|
  {
    forall i :: 0 <= i < n && repos[i].hasCommits ==> !repos[i].amendRaises && repos[i].amendRtn == 0
  }

  /** Every repository with commits before the `n`-th is pushed successfully. */
  ghost predicate PushesReturnZero(repos: seq<RepoOutcome>, n: nat)
    requires n <= |repos|
  {
    forall i :: 0 <= i < n && repos[i].hasCommits ==> repos[i].pushRtn == 0
  }

  lemma {:induction false} FinalPullsPassIff(repos: seq<RepoOutcome>, log: seq<Event>, n: nat)
    requires n <= |repos|
    ensures FinalPulls(repos, log, n).passed <==> FinalPullsReturnZero(repos, n)
  {
    if n > 0 {
      FinalPullsPassIff(repos, log, n - 1);
    }
  }

  lemma {:induction false} AmendsPassIff(repos: seq<RepoOutcome>, log: seq<Event>, n: nat)
    requires n <= |repos|
    ensures Amends(repos, log, n).passed <==> AmendsReturnZero(repos, n)
    ensures Amends(repos, log, n).stopped ==> !Amends(repos, log, n).passed
  {
    if n > 0 {
      AmendsPassIff(repos, log, n - 1);
    }
  }

  /** Each repository with commits is pushed, in order, until a push fails. */
  lemma {:induction false} PushesAre(repos: seq<RepoOutcome>, forced: bool, log: seq<Event>, n: nat, e: Event)
    requires n <= |repos|
    ensures log <= Pushes(repos, forced, log, n).log
    ensures Pushes(repos, forced, log, n).passed <==> PushesReturnZero(repos, n)
    ensures e in Pushes(repos, forced, log, n).log[|log|..] <==>
              && e.Push? && e.repo < n && repos[e.repo].hasCommits && e.forced == forced && e.rtn == repos[e.repo].pushRtn
              && PushesReturnZero(repos, e.repo)
  {
    if n > 0 {
      PushesAre(repos, forced, log, n - 1, e);
      var before, after := Pushes(repos, forced, log, n - 1), Pushes(repos, forced, log, n);
      if before.passed && repos[n - 1].hasCommits {
        assert after.log[|log|..] == before.log[|log|..] + [Push(n - 1, forced, repos[n - 1].pushRtn)];
      } else {
        assert after == before;
      }
    }
  }

  ghost predicate FinalStepsReturnZero(o: Options, x: Outcomes) {
    && FinalPullsReturnZero(x.repos, |x.repos|)
    && (o.appendTestResults ==> AmendsReturnZero(x.repos, |x.repos|))
    && !x.summariesRaise
  }

  /** The push of one repository in a push step that is reached: the final steps and the earlier pushes returned 0. */
  ghost predicate IsPush(o: Options, x: Outcomes, e: Event) {
    && e.Push? && e.repo < |x.repos| && x.repos[e.repo].hasCommits && e.rtn == x.repos[e.repo].pushRtn
    && FinalStepsReturnZero(o, x) && !o.skipPush && PushesReturnZero(x.repos, e.repo)
  }

  lemma PushStepIs(o: Options, x: Outcomes, forced: bool, w: World, e: Event)
    requires e.Push?
    ensures w.log <= PushStep(o, x, forced, w).log
    ensures e in PushStep(o, x, forced, w).log[|w.log|..] <==> IsPush(o, x, e) && e.forced == forced
  {
    hide FinalPulls, Amends, Pushes;
    var n := |x.repos|;
    var pulled := FinalPulls(x.repos, w.log, n);
    FinalPullsPassIff(x.repos, w.log, n);
    FinalPullsGrow(x.repos, w.log, n);
    AmendsPassIff(x.repos, pulled.log, n);
    AmendsGrow(x.repos, pulled.log, n);
    var amended := if o.appendTestResults then Amends(x.repos, pulled.log, n) else Amended(pulled.log, true, false);
    PushesAre(x.repos, forced, amended.log, n, e);
    NewEvents(w.log, pulled.log, amended.log);
    NewEvents(w.log, amended.log, Pushes(x.repos, forced, amended.log, n).log);
  }

  /** What one invocation pushes, given what its build cases leave. */
  lemma InvocationPushes(options: Options, cases: seq<Case>, x: Outcomes, w: World, e: Event)
    requires |cases| == |x.cases| && x.interrupt == NoInterrupt && e.Push?
    ensures var o, w', r := Expand(options), Invoke(options, cases, x, w), BuildPhase(Expand(options), cases, x, w);
            && w.log <= r.w.log <= w'.log && w'.dirs == r.w.dirs && w'.pull == r.w.pull
            && (e in w'.log[|w.log|..] <==>
                  && o.doPush && o.doPushReadinessCheck && !x.readinessRaises && r.w.pull.Some? && IsPush(o, x, e)
                  && (if e.forced then !OkayToCommit(cases, r) && o.forcePush else OkayToCommit(cases, r)))
  {
    hide BuildPhase, OkayToCommit, PushStep, IsPush;
    var o, w', r := Expand(options), Invoke(options, cases, x, w), BuildPhase(Expand(options), cases, x, w);
    var forced := !OkayToCommit(cases, r) && o.forcePush;
    BuildPhasePushesNothing(o, cases, x, w);
    PushStepIs(o, x, forced, r.w, e);
    PushStepGrows(o, x, forced, r.w);
    NewEvents(w.log, r.w.log, w'.log);
  }

  // ---------- invocations ----------

  /** The pulls let the build cases run: they pass and no graceful abort applies, or without pulling none are needed
      or earlier ones passed. */
  predicate PullsLetCasesRun(o: Options, x: Outcomes, w: World) {
    if o.doPull then
      && x.reposAreClean && x.pullCommandsPass
      && (x.pulledSomeChanges || !o.abortGracefullyIfNoChangesPulled)
      && (x.hasChangesToPush || !o.abortGracefullyIfNoChangesToPush)
    else
      o.allowNoPull || w.pull.Some?
  }

  lemma {:induction false} NoCaseRunsNothing(o: Options, cases: seq<Case>, dirs: map<string, BuildDir>, name: string)
    requires forall i :: 0 <= i < |cases| && cases[i].run ==> cases[i].name != name
    ensures name in CleanCases(o, cases, dirs) <==> name in dirs
    ensures name in dirs ==> CleanCases(o, cases, dirs)[name] == dirs[name]
    decreases |cases|
  {
    if cases != [] {
      hide CleanDir;
      NoCaseRunsNothing(o, cases[..|cases| - 1], dirs, name);
    }
  }

  lemma {:induction false} RunCasesKeepOthers(o: Options, cases: seq<Case>, x: seq<CaseOutcome>, w: World, n: nat, name: string)
    requires n <= |cases| == |x|
    requires forall i :: 0 <= i < |cases| && cases[i].run ==> cases[i].name != name
    ensures var r := RunCases(o, cases, x, w, n);
            (name in r.w.dirs <==> name in w.dirs) && (name in w.dirs ==> r.w.dirs[name] == w.dirs[name])
  {
    if n > 0 {
      RunCasesKeepOthers(o, cases, x, w, n - 1, name);
      hide CaseSteps;
    }
  }

  /** Whatever an invocation does, it leaves the build directories of cases that are not selected alone. */
  lemma UnselectedDirsStay(options: Options, cases: seq<Case>, x: Outcomes, w: World, name: string)
    requires |cases| == |x.cases|
    requires forall i :: 0 <= i < |cases| && cases[i].run ==> cases[i].name != name
    ensures var w' := Invoke(options, cases, x, w);
            (name in w'.dirs <==> name in w.dirs) && (name in w.dirs ==> w'.dirs[name] == w.dirs[name])
  {
    hide RunCases, CleanCases, OkayToCommit, PushStep;
    var o := Expand(options);
    NoCaseRunsNothing(o, cases, w.dirs, name);
    var pulled := InitialPullStep(o, cases, x, Clean(o, cases, w));
    RunCasesKeepOthers(o, cases, x.cases, pulled, |cases|, name);
    var r := BuildPhase(o, cases, x, w);
    PushStepGrows(o, x, true, r.w);
    PushStepGrows(o, x, false, r.w);
  }

  lemma CleanedCasesHaveNoTestMarker(o: Options, cases: seq<Case>, x: Outcomes, w: World)
    requires IsExpanded(o) && RequestsAllSteps(o)
    ensures var pulled := InitialPullStep(o, cases, x, Clean(o, cases, w));
            forall i :: 0 <= i < |cases| && cases[i].run ==> !HasTestMarker(cases[i].name, pulled)
  {
    hide CleanCases;
    forall i | 0 <= i < |cases| && cases[i].run
      ensures !HasTestMarker(cases[i].name, InitialPullStep(o, cases, x, Clean(o, cases, w)))
    {
      SelectedAreCleaned(o, cases, w.dirs, cases[i]);
    }
  }

  /** The build phase of an invocation that requests all steps and runs its cases. */
  lemma FullBuildPhase(o: Options, cases: seq<Case>, x: Outcomes, w: World)
    requires |cases| == |x.cases| && DistinctNames(cases) && IsExpanded(o) && RequestsAllSteps(o)
    requires x.interrupt == NoInterrupt && PullsLetCasesRun(o, x, w)
    ensures var r := BuildPhase(o, cases, x, w);
            && w.log <= r.w.log
            && (OkayToCommit(cases, r) <==> Ready(cases, x.cases))
            && (forall i :: 0 <= i < |cases| && cases[i].run && Passes(x.cases[i]) ==>
                  AllStepsMarked(cases[i].name, r.w, |w.log|))
            && (if o.doPull then r.w.pull == Some(|w.log|) && |w.log| < |r.w.log|
                                 && r.w.log[|w.log|] == InitialPull(true, Selected(cases))
                else r.w.pull == w.pull)
  {
    var pulled := InitialPullStep(o, cases, x, Clean(o, cases, w));
    assert RunBuildCases(o, x, pulled);
    CleanedCasesHaveNoTestMarker(o, cases, x, w);
    hide RunCases, Passes, Skips, Ready, OkayToCommit, CleanCases, HasTestMarker;
    ReadyIff(o, cases, x.cases, pulled);
    CasesReachEnd(o, cases, x.cases, pulled, |cases|);
    RunCasesKeepPull(o, cases, x.cases, pulled, |cases|);
  }

  /** An invocation that requests configure, build and test and runs its cases, whatever their results: every passing
      case ends with fresh markers, and exactly these pushes happen: unforced ones iff no selected case failed and some
      passed, forced ones iff that is not so and they are requested; in both cases only with a pull marker, after final
      pulls and amends that returned 0, and up to the first push that fails. */
  lemma FullRunPushesExactly(options: Options, cases: seq<Case>, x: Outcomes, w: World, e: Event)
    requires |cases| == |x.cases| && DistinctNames(cases) && RequestsAllSteps(Expand(options)) && e.Push?
    requires x.interrupt == NoInterrupt && PullsLetCasesRun(Expand(options), x, w)
    ensures var o, w' := Expand(options), Invoke(options, cases, x, w);
            && w.log <= w'.log
            && (forall i :: 0 <= i < |cases| && cases[i].run && Passes(x.cases[i]) ==>
                  AllStepsMarked(cases[i].name, w', |w.log|))
            && (if o.doPull then w'.pull == Some(|w.log|) && |w.log| < |w'.log|
                                 && w'.log[|w.log|] == InitialPull(true, Selected(cases))
                else w'.pull == w.pull)
            && (e in w'.log[|w.log|..] <==>
                  && o.doPush && o.doPushReadinessCheck && !x.readinessRaises
                  && (o.doPull || w.pull.Some?)
                  && (if e.forced then !Ready(cases, x.cases) && o.forcePush else Ready(cases, x.cases))
                  && IsPush(o, x, e))
  {
    hide Invoke, BuildPhase, Passes, Ready, OkayToCommit, IsPush, Selected, PullsLetCasesRun;
    var o := Expand(options);
    ExpandedOptions(options);
    FullBuildPhase(o, cases, x, w);
    InvocationPushes(options, cases, x, w, e);
  }

  predicate FinalCommandsReturnZero(repos: seq<RepoOutcome>) {
    forall k :: 0 <= k < |repos| ==>
      repos[k].finalPullRtn == 0 && !repos[k].amendRaises && repos[k].amendRtn == 0 && repos[k].pushRtn == 0
  }

  lemma EveryRepoIsPushed(o: Options, x: Outcomes, repo: nat, forced: bool)
    requires FinalCommandsReturnZero(x.repos) && !x.summariesRaise && !o.skipPush
    requires repo < |x.repos| && x.repos[repo].hasCommits
    ensures IsPush(o, x, Push(repo, forced, 0))
  {
  }

  /** Everything is requested and every command returns 0: each selected case is configured, built and tested in this
      invocation, and every repository with commits is pushed, unforced. */
  lemma PassingRunPushes(options: Options, cases: seq<Case>, x: Outcomes, w: World, repo: nat)
    requires |cases| == |x.cases| && DistinctNames(cases)
    requires var o := Expand(options);
             && RequestsAllSteps(o) && o.doPush && o.doPushReadinessCheck && !o.skipPush
             && (o.doPull || w.pull.Some?) && PullsLetCasesRun(o, x, w)
    requires x.interrupt == NoInterrupt && !x.readinessRaises && !x.summariesRaise
    requires exists i :: 0 <= i < |cases| && cases[i].run
    requires forall i :: 0 <= i < |cases| && cases[i].run ==> Passes(x.cases[i])
    requires FinalCommandsReturnZero(x.repos)
    requires repo < |x.repos| && x.repos[repo].hasCommits
    ensures var w' := Invoke(options, cases, x, w);
            && w.log <= w'.log && Push(repo, false, 0) in w'.log[|w.log|..]
            && forall i :: 0 <= i < |cases| && cases[i].run ==> AllStepsMarked(cases[i].name, w', |w.log|)
  {
    EveryRepoIsPushed(Expand(options), x, repo, false);
    hide Invoke, PullsLetCasesRun, Passes, AllStepsMarked, IsPush;
    FullRunPushesExactly(options, cases, x, w, Push(repo, false, 0));
    assert Ready(cases, x.cases);
  }

  /** A local run neither needs nor makes a pull; it earns its markers, but pushes only if an earlier pull is current. */
  lemma LocalRunNeedsPullToPush(options: Options, cases: seq<Case>, x: Outcomes, w: World, e: Event)
    requires |cases| == |x.cases| && DistinctNames(cases) && e.Push?
    requires options.localDoAll && !options.doPull && !options.doAll && x.interrupt == NoInterrupt
    ensures var w' := Invoke(options, cases, x, w);
            && w.log <= w'.log && w'.pull == w.pull
            && (forall i :: 0 <= i < |cases| && cases[i].run && Passes(x.cases[i]) ==>
                  AllStepsMarked(cases[i].name, w', |w.log|))
            && (e in w'.log[|w.log|..] ==> w.pull.Some?)
  {
    hide Invoke, Passes, AllStepsMarked, IsPush;
    FullRunPushesExactly(options, cases, x, w, e);
  }

  /** --do-all and --local-do-all request steps, and change nothing about pushing. */
  lemma ForcingIsKept(options: Options)
    ensures var o := Expand(options);
            && o.forcePush == options.forcePush && o.doPush == options.doPush
            && o.doPull == (options.doPull || options.doAll)
            && o.doConfigure == (options.doConfigure || options.doAll || options.localDoAll)
            && o.doBuild == (options.doBuild || options.doAll || options.localDoAll)
            && o.doTest == (options.doTest || options.doAll || options.localDoAll)
  {
    var a := if options.doAll then options.(doPull := true, doConfigure := true, doBuild := true, doTest := true) else options;
    var b := if a.localDoAll then a.(allowNoPull := true, doConfigure := true, doBuild := true, doTest := true) else a;
    assert a.localDoAll == options.localDoAll && a.forcePush == options.forcePush && a.doPush == options.doPush;
    assert Expand(options) == b;
  }

  lemma FailingIsNotReady(cases: seq<Case>, x: seq<CaseOutcome>, failing: nat)
    requires |cases| == |x| && failing < |cases| && cases[failing].run && !Passes(x[failing]) && !Skips(x[failing])
    ensures !Ready(cases, x)
  {
    hide Passes, Skips;
  }

  /** If some selected case fails, every repository with commits is pushed, forced, iff forcing is requested. */
  lemma FailingRunPushesIffForced(options: Options, cases: seq<Case>, x: Outcomes, w: World, failing: nat, repo: nat)
    requires |cases| == |x.cases| && DistinctNames(cases)
    requires var o := Expand(options);
             && RequestsAllSteps(o) && o.doPush && o.doPushReadinessCheck && !o.skipPush
             && (o.doPull || w.pull.Some?) && PullsLetCasesRun(o, x, w)
    requires x.interrupt == NoInterrupt && !x.readinessRaises && !x.summariesRaise
    requires failing < |cases| && cases[failing].run && !Passes(x.cases[failing]) && !Skips(x.cases[failing])
    requires FinalCommandsReturnZero(x.repos)
    requires repo < |x.repos| && x.repos[repo].hasCommits
    ensures var w' := Invoke(options, cases, x, w);
            w.log <= w'.log && (Push(repo, true, 0) in w'.log[|w.log|..] <==> options.forcePush) && !UnforcedPush(w'.log[|w.log|..])
  {
    hide Expand;
    var o, w' := Expand(options), Invoke(options, cases, x, w);
    ForcingIsKept(options);
    EveryRepoIsPushed(o, x, repo, true);
    FailingIsNotReady(cases, x.cases, failing);
    hide Invoke, PullsLetCasesRun, Passes, Skips, AllStepsMarked, IsPush, Ready, DistinctNames, Selected;
    FullRunPushesExactly(options, cases, x, w, Push(repo, true, 0));
    var events := w'.log[|w.log|..];
    if UnforcedPush(events) {
      var e :| e in events && e.Push? && !e.forced;
      FullRunPushesExactly(options, cases, x, w, e);
    }
  }

  /** An invocation that requests no action but the push relies on the markers that it finds, and leaves them alone. */
  lemma PushOnlyPushesExactly(options: Options, cases: seq<Case>, x: Outcomes, w: World, e: Event)
    requires |cases| == |x.cases| && x.interrupt == NoInterrupt && e.Push?
    requires !PerformAnyActions(Expand(options)) && !options.wipeClean
    ensures var o, w' := Expand(options), Invoke(options, cases, x, w);
            && w.log <= w'.log && w'.dirs == w.dirs && w'.pull == w.pull
            && (e in w'.log[|w.log|..] <==>
                  && o.doPush && o.doPushReadinessCheck && !x.readinessRaises && w.pull.Some?
                  && (if e.forced then !AllHaveTestMarkers(cases, w) && o.forcePush else AllHaveTestMarkers(cases, w))
                  && IsPush(o, x, e))
  {
    hide Expand, BuildPhase, OkayToCommit, Invoke, IsPush, AllHaveTestMarkers, PerformAnyActions;
    PushOnlyBuildPhase(options, cases, x, w);
    InvocationPushes(options, cases, x, w, e);
  }

  lemma PushOnlyBuildPhase(options: Options, cases: seq<Case>, x: Outcomes, w: World)
    requires |cases| == |x.cases| && !PerformAnyActions(Expand(options)) && !options.wipeClean
    ensures BuildPhase(Expand(options), cases, x, w).w == w
    ensures OkayToCommit(cases, BuildPhase(Expand(options), cases, x, w)) <==> AllHaveTestMarkers(cases, w)
  {
    var o := Expand(options);
    hide OkayToCommit, AllHaveTestMarkers, CleanCases, RunCases;
    CleaningWithoutActions(o, cases, w.dirs);
    assert o == options;
    assert Clean(o, cases, w) == w && !RunBuildCases(o, x, w);
    OkayWithoutSkips(cases, CasesResult(w, true, seq(|cases|, _ => false)));
  }

  /** Every selected case has a test marker, and some case is selected. */
  ghost predicate AllHaveTestMarkers(cases: seq<Case>, w: World) {
    && (forall i :: 0 <= i < |cases| && cases[i].run ==> HasTestMarker(cases[i].name, w))
    && (exists i :: 0 <= i < |cases| && cases[i].run)
  }

  lemma OkayWithoutSkips(cases: seq<Case>, r: CasesResult)
    requires |r.skipped| == |cases| && r.success && forall i :: 0 <= i < |cases| ==> !r.skipped[i]
    ensures OkayToCommit(cases, r) <==> AllHaveTestMarkers(cases, r.w)
  {
    if exists i :: 0 <= i < |cases| && cases[i].run {
      var i :| 0 <= i < |cases| && cases[i].run;
      assert CaseOkayToCommit(cases[i], r.skipped[i], r.w) <==> HasTestMarker(cases[i].name, r.w);
    }
    assert forall i :: 0 <= i < |cases| && cases[i].run ==>
             (CaseOkayToCommit(cases[i], r.skipped[i], r.w) <==> HasTestMarker(cases[i].name, r.w));
  }

  predicate IsBuildCommand(e: Event) {
    e.Configure? || e.Make? || e.CTest? || e.SkippedTests?
  }

  lemma {:induction false} FinalPullsBuildNothing(repos: seq<RepoOutcome>, log: seq<Event>, n: nat, e: Event)
    requires n <= |repos| && IsBuildCommand(e)
    ensures log <= FinalPulls(repos, log, n).log && e !in FinalPulls(repos, log, n).log[|log|..]
  {
    if n > 0 {
      FinalPullsBuildNothing(repos, log, n - 1, e);
    }
  }

  lemma {:induction false} AmendsBuildNothing(repos: seq<RepoOutcome>, log: seq<Event>, n: nat, e: Event)
    requires n <= |repos| && IsBuildCommand(e)
    ensures log <= Amends(repos, log, n).log && e !in Amends(repos, log, n).log[|log|..]
  {
    if n > 0 {
      AmendsBuildNothing(repos, log, n - 1, e);
    }
  }

  lemma PushStepBuildsNothing(o: Options, x: Outcomes, forced: bool, w: World, e: Event)
    requires IsBuildCommand(e)
    ensures w.log <= PushStep(o, x, forced, w).log && e !in PushStep(o, x, forced, w).log[|w.log|..]
  {
    hide FinalPulls, Amends, Pushes;
    var n := |x.repos|;
    var pulled := FinalPulls(x.repos, w.log, n);
    FinalPullsBuildNothing(x.repos, w.log, n, e);
    AmendsBuildNothing(x.repos, pulled.log, n, e);
    var amended := if o.appendTestResults then Amends(x.repos, pulled.log, n) else Amended(pulled.log, true, false);
    PushesAre(x.repos, forced, amended.log, n, e);
    assert !e.Push?;
    NewEvents(w.log, pulled.log, amended.log);
    NewEvents(w.log, amended.log, Pushes(x.repos, forced, amended.log, n).log);
  }

  /** Without build actions, after a graceful abort, after a failed pull and without any pull no case is configured, built or tested. */
  lemma NoBuildCommandUnlessRun(options: Options, cases: seq<Case>, x: Outcomes, w: World, e: Event)
    requires |cases| == |x.cases| && IsBuildCommand(e)
    requires var o := Expand(options);
             !RequestsAnyStep(o) || !PullsLetCasesRun(o, x, w) || x.interrupt != NoInterrupt
    ensures var w' := Invoke(options, cases, x, w); w.log <= w'.log && e !in w'.log[|w.log|..]
  {
    hide Expand, BuildPhase, RunCases, PushPhase, CleanCases, Selected, PullsLetCasesRun, IsBuildCommand, RequestsAnyStep, PullSucceeds;
    var o := Expand(options);
    var pulled := InitialPullStep(o, cases, x, Clean(o, cases, w));
    ExpandedOptions(options);
    PullBuildsNothing(o, cases, x, w, e);
    if x.interrupt == NoInterrupt {
      var r := BuildPhase(o, cases, x, w);
      CasesDoNotRun(o, cases, x, w);
      PushPhaseBuildsNothing(o, cases, x, r, e);
      InEither(w.log, pulled.log, PushPhase(o, cases, x, r).log, e);
    }
  }

  lemma PullBuildsNothing(o: Options, cases: seq<Case>, x: Outcomes, w: World, e: Event)
    requires IsBuildCommand(e)
    ensures var log := InitialPullStep(o, cases, x, Clean(o, cases, w)).log; w.log <= log && e !in log[|w.log|..]
  {
    hide CleanCases, Selected;
  }

  lemma CasesDoNotRun(o: Options, cases: seq<Case>, x: Outcomes, w: World)
    requires |cases| == |x.cases| && x.interrupt == NoInterrupt && IsExpanded(o)
    requires !RequestsAnyStep(o) || !PullsLetCasesRun(o, x, w)
    ensures BuildPhase(o, cases, x, w).w == InitialPullStep(o, cases, x, Clean(o, cases, w))
  {
    hide RunCases, CleanCases, Selected;
  }

  lemma PushPhaseBuildsNothing(o: Options, cases: seq<Case>, x: Outcomes, r: CasesResult, e: Event)
    requires |r.skipped| == |cases| && IsBuildCommand(e)
    ensures var log := PushPhase(o, cases, x, r).log; r.w.log <= log && e !in log[|r.w.log|..]
  {
    hide OkayToCommit, PushStep, IsBuildCommand;
    PushStepBuildsNothing(o, x, true, r.w, e);
    PushStepBuildsNothing(o, x, false, r.w, e);
  }

  predicate RequestsAnyStep(o: Options) {
    o.doConfigure || o.doBuild || o.doTest
  }

  /** A removed directory, or one that has lost the markers of all steps from the first requested one on. */
  predicate IsCleaned(o: Options, dirs: map<string, BuildDir>, dirs': map<string, BuildDir>, name: string)
    requires name in dirs
  {
    && (name in dirs' <==> !o.wipeClean)
    && (!o.wipeClean ==>
          var d, d' := dirs[name], dirs'[name];
          && d'.configure == (if o.doPull || o.doConfigure then None else d.configure)
          && d'.make == (if o.doPull || o.doConfigure || o.doBuild then None else d.make)
          && d'.ctest == (if o.doPull || o.doConfigure || o.doBuild || o.doTest then None else d.ctest))
  }

  lemma CleanedOnce(o: Options, c: Case, dirs: map<string, BuildDir>)
    requires IsExpanded(o) && c.run && c.name in dirs
    ensures IsCleaned(o, dirs, CleanCase(o, c, dirs), c.name)
  {
  }

  lemma OtherCaseKeepsDir(o: Options, c: Case, dirs: map<string, BuildDir>, name: string)
    requires !c.run || c.name != name
    ensures name in CleanCase(o, c, dirs) <==> name in dirs
    ensures name in dirs ==> CleanCase(o, c, dirs)[name] == dirs[name]
  {
    hide CleanDir;
  }

  lemma CleanedTwice(o: Options, a: map<string, BuildDir>, b: map<string, BuildDir>, c: map<string, BuildDir>, name: string)
    requires name in a && IsCleaned(o, a, b, name)
    requires if name in b then IsCleaned(o, b, c, name) else name !in c
    ensures IsCleaned(o, a, c, name)
  {
  }

  /** Which markers of a selected case cleaning removes, and which it keeps. */
  lemma {:induction false} CleaningRemovesExactly(o: Options, cases: seq<Case>, dirs: map<string, BuildDir>, c: Case)
    requires IsExpanded(o) && c in cases && c.run && c.name in dirs
    ensures IsCleaned(o, dirs, CleanCases(o, cases, dirs), c.name)
    decreases |cases|
  {
    var init, last := cases[..|cases| - 1], cases[|cases| - 1];
    assert cases == init + [last];
    var before := CleanCases(o, init, dirs);
    CleaningOfLast(o, cases, dirs);
    hide CleanCases, CleanCase, IsCleaned, IsExpanded;
    if exists i :: 0 <= i < |init| && init[i].run && init[i].name == c.name {
      var i :| 0 <= i < |init| && init[i].run && init[i].name == c.name;
      CleaningRemovesExactly(o, init, dirs, init[i]);
      if last.run && last.name == c.name {
        if c.name in before {
          CleanedOnce(o, last, before);
        } else {
          NothingToClean(o, last, before);
        }
        CleanedTwice(o, dirs, before, CleanCase(o, last, before), c.name);
      } else {
        OtherCaseKeepsDir(o, last, before, c.name);
        SameDirIsCleaned(o, dirs, before, CleanCase(o, last, before), c.name);
      }
    } else {
      NoCaseRunsNothing(o, init, dirs, c.name);
      CleanedOnce(o, last, before);
      CleanedFromSame(o, dirs, before, CleanCase(o, last, before), c.name);
    }
  }

  lemma CleaningOfLast(o: Options, cases: seq<Case>, dirs: map<string, BuildDir>)
    requires cases != []
    ensures CleanCases(o, cases, dirs) == CleanCase(o, cases[|cases| - 1], CleanCases(o, cases[..|cases| - 1], dirs))
  {
    hide CleanCase;
  }

  lemma NothingToClean(o: Options, c: Case, dirs: map<string, BuildDir>)
    requires c.name !in dirs
    ensures CleanCase(o, c, dirs) == dirs
  {
  }

  lemma SameDirIsCleaned(o: Options, a: map<string, BuildDir>, b: map<string, BuildDir>, c: map<string, BuildDir>, name: string)
    requires name in a && IsCleaned(o, a, b, name) && (name in b <==> name in c) && (name in b ==> b[name] == c[name])
    ensures IsCleaned(o, a, c, name)
  {
  }

  lemma CleanedFromSame(o: Options, a: map<string, BuildDir>, b: map<string, BuildDir>, c: map<string, BuildDir>, name: string)
    requires name in a && name in b && a[name] == b[name] && IsCleaned(o, b, c, name)
    ensures IsCleaned(o, a, c, name)
  {
  }

  /** The tests of one case among all cases. */
  lemma {:induction false} CaseIsTestedAmongAll(o: Options, cases: seq<Case>, x: seq<CaseOutcome>, w: World, n: nat, i: nat)
    requires n <= |cases| == |x| && i < |cases| && cases[i].run && DistinctNames(cases) && PerformAnyActions(o)
    ensures var r, d := RunCases(o, cases, x, w, n), DirOf(w, cases[i].name);
            && w.log <= r.w.log
            && (i >= n ==> DirOf(r.w, cases[i].name) == d)
            && (CTest(cases[i].name, 0) in r.w.log[|w.log|..] <==>
                  i < n && TestsPass(o, x[i], d.configure.Some?, d.make.Some?))
  {
    if n > 0 {
      assert n - 1 != i ==> cases[n - 1].name != cases[i].name;
      NextCaseRuns(o, cases, x, w, n);
      hide RunCase, RunCases, TestsPass, DirOf, DistinctNames, PerformAnyActions;
      CaseIsTestedAmongAll(o, cases, x, w, n - 1, i);
      var before, c := RunCases(o, cases, x, w, n - 1), cases[n - 1];
      if c.run {
        var r := RunCase(o, c.name, x[n - 1], before.w);
        if n - 1 == i {
          TestsPassIff(o, c.name, x[i], before.w);
        } else {
          TestsOnlyItself(o, c.name, x[n - 1], before.w, CTest(cases[i].name, 0));
          OtherDirStays(o, c.name, x[n - 1], before.w, cases[i].name);
        }
        InEither(w.log, before.w.log, r.w.log, CTest(cases[i].name, 0));
      }
    }
  }

  lemma NextCaseRuns(o: Options, cases: seq<Case>, x: seq<CaseOutcome>, w: World, n: nat)
    requires 0 < n <= |cases| == |x|
    ensures var before, c := RunCases(o, cases, x, w, n - 1), cases[n - 1];
            RunCases(o, cases, x, w, n).w == if c.run then RunCase(o, c.name, x[n - 1], before.w).w else before.w
  {
    hide RunCase;
  }

  lemma OtherDirStays(o: Options, name: string, c: CaseOutcome, w: World, other: string)
    requires other != name
    ensures DirOf(RunCase(o, name, c, w).w, other) == DirOf(w, other)
  {
    hide CaseSteps;
  }

  /** Exactly when an invocation runs the tests of a selected case with success, whatever steps it requests: its own
      configure and build passed, or were not requested and their markers survived the cleaning. */
  lemma CaseIsTestedIff(options: Options, cases: seq<Case>, x: Outcomes, w: World, i: nat)
    requires |cases| == |x.cases| && DistinctNames(cases) && i < |cases| && cases[i].run
    ensures var o, w', d := Expand(options), Invoke(options, cases, x, w), DirOf(w, cases[i].name);
            && w.log <= w'.log
            && (CTest(cases[i].name, 0) in w'.log[|w.log|..] <==>
                  && x.interrupt == NoInterrupt && RequestsAnyStep(o) && PullsLetCasesRun(o, x, w)
                  && TestsPass(o, x.cases[i],
                       d.configure.Some? && !o.doPull && !o.doConfigure && !o.wipeClean,
                       d.make.Some? && !o.doPull && !o.doConfigure && !o.doBuild && !o.wipeClean))
  {
    var o, w' := Expand(options), Invoke(options, cases, x, w);
    var e := CTest(cases[i].name, 0);
    if x.interrupt == NoInterrupt && RequestsAnyStep(o) && PullsLetCasesRun(o, x, w) {
      CaseRunsTests(options, cases, x, w, i);
    } else {
      NoBuildCommandUnlessRun(options, cases, x, w, e);
    }
  }

  lemma CaseRunsTests(options: Options, cases: seq<Case>, x: Outcomes, w: World, i: nat)
    requires |cases| == |x.cases| && DistinctNames(cases) && i < |cases| && cases[i].run
    requires x.interrupt == NoInterrupt && RequestsAnyStep(Expand(options)) && PullsLetCasesRun(Expand(options), x, w)
    ensures var o, w', d := Expand(options), Invoke(options, cases, x, w), DirOf(w, cases[i].name);
            && w.log <= w'.log
            && (CTest(cases[i].name, 0) in w'.log[|w.log|..] <==>
                  TestsPass(o, x.cases[i],
                    d.configure.Some? && !o.doPull && !o.doConfigure && !o.wipeClean,
                    d.make.Some? && !o.doPull && !o.doConfigure && !o.doBuild && !o.wipeClean))
  {
    hide Expand;
    var o, w', name := Expand(options), Invoke(options, cases, x, w), cases[i].name;
    var e := CTest(name, 0);
    ExpandedOptions(options);
    var cleaned := Clean(o, cases, w);
    var pulled := InitialPullStep(o, cases, x, cleaned);
    var r := BuildPhase(o, cases, x, w);
    BuildPhaseRuns(o, cases, x, w);
    TestRelevantMarkers(o, cases, w, cases[i]);
    hide RunCases, TestsPass, OkayToCommit, CleanCases, PushStep, BuildPhase, PullsLetCasesRun;
    CaseIsTestedAmongAll(o, cases, x.cases, pulled, |cases|, i);
    TestsPassWithout(o, x.cases[i], DirOf(pulled, name).configure.Some?, DirOf(pulled, name).make.Some?);
    assert e !in pulled.log[|w.log|..];
    NewEvents(w.log, pulled.log, r.w.log);
    PushStepBuildsNothing(o, x, true, r.w, e);
    PushStepBuildsNothing(o, x, false, r.w, e);
    NewEvents(w.log, r.w.log, w'.log);
  }

  lemma BuildPhaseRuns(o: Options, cases: seq<Case>, x: Outcomes, w: World)
    requires |cases| == |x.cases| && x.interrupt == NoInterrupt && RequestsAnyStep(o) && PullsLetCasesRun(o, x, w)
    ensures BuildPhase(o, cases, x, w)
         == RunCases(o, cases, x.cases, InitialPullStep(o, cases, x, Clean(o, cases, w)), |cases|)
  {
    hide RunCases, CleanCases;
  }

  lemma TestsPassWithout(o: Options, c: CaseOutcome, hasConfigure: bool, hasMake: bool)
    ensures TestsPass(o, c, hasConfigure, hasMake)
       <==> TestsPass(o, c, hasConfigure && !o.doConfigure, hasMake && !o.doBuild)
  {
  }

  /** The markers of a selected case after cleaning. */
  lemma TestRelevantMarkers(o: Options, cases: seq<Case>, w: World, c: Case)
    requires IsExpanded(o) && c in cases && c.run
    ensures var d, d' := DirOf(w, c.name), DirOf(Clean(o, cases, w), c.name);
            && (d'.configure.Some? <==> d.configure.Some? && !o.doPull && !o.doConfigure && !o.wipeClean)
            && (d'.make.Some? <==> d.make.Some? && !o.doPull && !o.doConfigure && !o.doBuild && !o.wipeClean)
  {
    hide CleanCases;
    if c.name in w.dirs {
      CleaningRemovesExactly(o, cases, w.dirs, c);
    } else {
      CleaningAddsNothing(o, cases, w.dirs, c.name);
    }
  }

  lemma {:induction false} CleaningAddsNothing(o: Options, cases: seq<Case>, dirs: map<string, BuildDir>, name: string)
    requires name !in dirs
    ensures name !in CleanCases(o, cases, dirs)
    decreases |cases|
  {
    if cases != [] {
      hide CleanDir;
      CleaningAddsNothing(o, cases[..|cases| - 1], dirs, name);
    }
  }

  /** Whether the marker of the e-mail exists after a case: it was there, or the analysis touched it. */
  lemma EmailMarkerIff(o: Options, name: string, c: CaseOutcome, w: World)
    requires PerformAnyActions(o) && !c.entryRaises
    ensures var r := RunCase(o, name, c, w);
            && name in r.w.dirs
            && (r.w.dirs[name].email <==>
                  DirOf(w, name).email || c.analysis == AnalysisPassed || c.analysis == AnalysisRaised(true))
  {
  }

  /** Each repository is pulled for the push, in order, until a pull fails. */
  lemma {:induction false} FinalPullsAre(repos: seq<RepoOutcome>, log: seq<Event>, n: nat, e: Event)
    requires n <= |repos|
    ensures log <= FinalPulls(repos, log, n).log
    ensures FinalPulls(repos, log, n).passed <==> FinalPullsReturnZero(repos, n)
    ensures e in FinalPulls(repos, log, n).log[|log|..] <==>
              && e.FinalPull? && e.repo < n && e.rtn == repos[e.repo].finalPullRtn && FinalPullsReturnZero(repos, e.repo)
  {
    if n > 0 {
      FinalPullsAre(repos, log, n - 1, e);
      var before, after := FinalPulls(repos, log, n - 1), FinalPulls(repos, log, n);
      if before.passed {
        assert after.log[|log|..] == before.log[|log|..] + [FinalPull(n - 1, repos[n - 1].finalPullRtn)];
      } else {
        assert after == before;
      }
    }
  }

  /** No amend before the `n`-th repository returns something else than 0; one that raises does not count. */
  ghost predicate NoAmendFails(repos: seq<RepoOutcome>, n: nat)
    requires n <= |repos|
  {
    forall i :: 0 <= i < n && repos[i].hasCommits && !repos[i].amendRaises ==> repos[i].amendRtn == 0
  }

  /** Each repository with commits is amended, in order, until an amend fails; an exception does not end the amends. */
  lemma {:induction false} AmendsAre(repos: seq<RepoOutcome>, log: seq<Event>, n: nat, e: Event)
    requires n <= |repos|
    ensures log <= Amends(repos, log, n).log
    ensures Amends(repos, log, n).stopped <==> !NoAmendFails(repos, n)
    ensures e in Amends(repos, log, n).log[|log|..] <==>
              && e.Amend? && e.repo < n && repos[e.repo].hasCommits && !repos[e.repo].amendRaises
              && e.rtn == repos[e.repo].amendRtn && NoAmendFails(repos, e.repo)
  {
    if n > 0 {
      AmendsAre(repos, log, n - 1, e);
      var before, after, repo := Amends(repos, log, n - 1), Amends(repos, log, n), repos[n - 1];
      if !before.stopped && repo.hasCommits && !repo.amendRaises {
        assert after.log[|log|..] == before.log[|log|..] + [Amend(n - 1, repo.amendRtn)];
      } else {
        assert after.log == before.log;
      }
    }
  }

  /** The initial pull and its marker, whatever else happens. */
  lemma InitialPullIs(options: Options, cases: seq<Case>, x: Outcomes, w: World)
    requires |cases| == |x.cases|
    ensures var o, w' := Expand(options), Invoke(options, cases, x, w);
            var passes := x.reposAreClean && x.pullCommandsPass && x.interrupt != InPull;
            && w.log <= w'.log
            && (o.doPull && x.interrupt != InStatus ==>
                  && |w.log| < |w'.log| && w'.log[|w.log|] == InitialPull(passes, Selected(cases))
                  && w'.pull == if passes then Some(|w.log|) else None)
            && (o.doPull && x.interrupt == InStatus ==> w'.pull == None)
            && (!o.doPull ==> w'.pull == w.pull)
  {
    hide Expand, RunCases, OkayToCommit, PushStep, CleanCases, Selected;
    var o := Expand(options);
    var pulled := InitialPullStep(o, cases, x, Clean(o, cases, w));
    RunCasesKeepPull(o, cases, x.cases, pulled, |cases|);
    var r := BuildPhase(o, cases, x, w);
    PushStepGrows(o, x, true, r.w);
    PushStepGrows(o, x, false, r.w);
  }
}
