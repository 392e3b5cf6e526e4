/** What holds over all runs of the check-in test script: how the success markers
    depend on each other, and what a push implies. */
module CheckinSafety {
  import opened Wrappers
  import opened CheckinState

  // ---------- the invariant ----------

  ghost predicate Touched(marker: Option<nat>, log: seq<Event>, e: Event) {
    marker.Some? && marker.value < |log| && log[marker.value] == e
  }

  /** The marker, if it exists, was touched after every initial pull attempt for which the case was selected. */
  ghost predicate NewerThanPulls(name: string, marker: Option<nat>, log: seq<Event>) {
    marker.Some? ==>
      forall i :: 0 <= i < |log| && log[i].InitialPull? && name in log[i].selected ==> i < marker.value
  }

  /** Every marker stems from a command that returned 0; a build needs a configure, and tests need a build
      unless they were skipped because no packages were enabled. */
  ghost predicate DirOk(name: string, d: BuildDir, log: seq<Event>) {
    && (d.configure.Some? ==> Touched(d.configure, log, Configure(name, 0)))
    && (d.make.Some? ==> Touched(d.make, log, Make(name, 0)) && d.configure.Some?)
    && (d.ctest.Some? ==>
          || (Touched(d.ctest, log, CTest(name, 0)) && d.make.Some?)
          || Touched(d.ctest, log, SkippedTests(name)))
    && NewerThanPulls(name, d.configure, log)
    && NewerThanPulls(name, d.make, log)
    && NewerThanPulls(name, d.ctest, log)
  }

  /** The pull marker exists only if the latest initial pull attempt passed. */
  ghost predicate PullOk(pull: Option<nat>, log: seq<Event>) {
    pull.Some? ==>
      && pull.value < |log| && log[pull.value].InitialPull? && log[pull.value].passed
      && forall i :: pull.value < i < |log| ==> !log[i].InitialPull?
  }

  ghost predicate DirsOk(dirs: map<string, BuildDir>, log: seq<Event>) {
    forall name :: name in dirs ==> DirOk(name, dirs[name], log)
  }

  ghost predicate WorldOk(w: World) {
    PullOk(w.pull, w.log) && DirsOk(w.dirs, w.log)
  }

  /** The history grows, without another initial pull. */
  ghost predicate Grows(log: seq<Event>, log': seq<Event>) {
    log <= log' && forall i :: |log| <= i < |log'| ==> !log'[i].InitialPull?
  }

  lemma DirOkGrows(name: string, d: BuildDir, log: seq<Event>, log': seq<Event>)
    requires DirOk(name, d, log) && Grows(log, log')
    ensures DirOk(name, d, log')
  {
    assert forall i :: 0 <= i < |log| ==> log'[i] == log[i];
  }

  lemma WorldOkGrows(w: World, log: seq<Event>)
    requires WorldOk(w) && Grows(w.log, log)
    ensures WorldOk(w.(log := log))
  {
    forall name | name in w.dirs
      ensures DirOk(name, w.dirs[name], log)
    {
      DirOkGrows(name, w.dirs[name], w.log, log);
    }
    assert forall i :: 0 <= i < |w.log| ==> log[i] == w.log[i];
  }

  // ---------- cleaning and pulling ----------

  lemma CleanCaseOk(o: Options, c: Case, dirs: map<string, BuildDir>, log: seq<Event>)
    requires DirsOk(dirs, log)
    ensures DirsOk(CleanCase(o, c, dirs), log)
  {
  }

  lemma {:induction false} CleanCasesOk(o: Options, cases: seq<Case>, dirs: map<string, BuildDir>, log: seq<Event>)
    requires DirsOk(dirs, log)
    ensures DirsOk(CleanCases(o, cases, dirs), log)
    decreases |cases|
  {
    if cases != [] {
      var init := cases[..|cases| - 1];
      CleanCasesOk(o, init, dirs, log);
      CleanCaseOk(o, cases[|cases| - 1], CleanCases(o, init, dirs), log);
    }
  }

  predicate IsExpanded(o: Options) {
    && (o.doAll ==> o.doPull && o.doConfigure && o.doBuild && o.doTest)
    && (o.localDoAll ==> o.doConfigure && o.doBuild && o.doTest)
  }

  /** What cleaning removes from the directory of a selected case. */
  ghost predicate Cleaned(o: Options, d: BuildDir) {
    && (PerformAnyActions(o) ==> d.ctest == None)
    && (o.doPull ==> d.configure == None && d.make == None)
  }

  lemma {:induction false} SelectedAreCleaned(o: Options, cases: seq<Case>, dirs: map<string, BuildDir>, c: Case)
    requires IsExpanded(o) && c in cases && c.run
    ensures var dirs' := CleanCases(o, cases, dirs); c.name in dirs' ==> Cleaned(o, dirs'[c.name])
    decreases |cases|
  {
    var init := cases[..|cases| - 1];
    assert cases == init + [cases[|cases| - 1]];
    if c in init {
      SelectedAreCleaned(o, init, dirs, c);
    }
  }

  lemma PulledWorldOk(o: Options, cases: seq<Case>, x: Outcomes, w: World)
    requires WorldOk(w) && IsExpanded(o)
    ensures WorldOk(Clean(o, cases, w))
    ensures WorldOk(InitialPullStep(o, cases, x, Clean(o, cases, w)))
  {
    CleanCasesOk(o, cases, w.dirs, w.log);
    var cleaned := Clean(o, cases, w);
    if o.doPull {
      var log := InitialPullStep(o, cases, x, cleaned).log;
      forall name | name in cleaned.dirs
        ensures DirOk(name, cleaned.dirs[name], log)
      {
        if name in Selected(cases) {
          var c :| c in cases && c.run && c.name == name;
          SelectedAreCleaned(o, cases, w.dirs, c);
        }
      }
    }
  }

  // ---------- running the cases ----------

  lemma ConfigureOk(o: Options, name: string, c: CaseOutcome, dir: BuildDir, log: seq<Event>)
    requires DirOk(name, dir, log)
    ensures var p := ConfigureStep(o, name, c, dir, log);
            DirOk(name, p.dir, p.log) && Grows(log, p.log) && (p.passed ==> p.dir.configure.Some?)
  {
    var p := ConfigureStep(o, name, c, dir, log);
    assert Grows(log, p.log);
    DirOkGrows(name, dir, log, p.log);
  }

  lemma BuildOk(o: Options, name: string, c: CaseOutcome, p: Progress)
    requires DirOk(name, p.dir, p.log) && (p.passed ==> p.dir.configure.Some?)
    ensures var p' := BuildStep(o, name, c, p);
            DirOk(name, p'.dir, p'.log) && Grows(p.log, p'.log) && (!p'.raised && p'.passed ==> p'.dir.make.Some?)
  {
    var p' := BuildStep(o, name, c, p);
    assert Grows(p.log, p'.log);
    DirOkGrows(name, p.dir, p.log, p'.log);
  }

  lemma TestOk(o: Options, name: string, c: CaseOutcome, p: Progress)
    requires DirOk(name, p.dir, p.log) && (!p.raised && p.passed ==> p.dir.make.Some?)
    ensures var p' := TestStep(o, name, c, p);
            DirOk(name, p'.dir, p'.log) && Grows(p.log, p'.log)
  {
    var p' := TestStep(o, name, c, p);
    assert Grows(p.log, p'.log);
    DirOkGrows(name, p.dir, p.log, p'.log);
  }

  lemma StepsOk(o: Options, name: string, c: CaseOutcome, dir: BuildDir, log: seq<Event>)
    requires DirOk(name, dir, log)
    ensures var p := CaseSteps(o, name, c, dir, log);
            DirOk(name, p.dir, p.log) && Grows(log, p.log)
  {
    hide DirOk, ConfigureStep, BuildStep, TestStep;
    var p1 := ConfigureStep(o, name, c, dir, log);
    ConfigureOk(o, name, c, dir, log);
    BuildOk(o, name, c, p1);
    TestOk(o, name, c, BuildStep(o, name, c, p1));
  }

  lemma RunCaseOk(o: Options, name: string, c: CaseOutcome, w: World)
    requires WorldOk(w)
    ensures WorldOk(RunCase(o, name, c, w).w) && Grows(w.log, RunCase(o, name, c, w).w.log)
    ensures RunCase(o, name, c, w).w.pull == w.pull
  {
    hide DirOk, PullOk, TestStep, BuildStep, ConfigureStep;
    if !c.entryRaises && PerformAnyActions(o) {
      var dir := if name in w.dirs then w.dirs[name] else NEW_DIR;
      assert DirOk(name, dir, w.log) by {
        NewDirOk(name, w.log);
      }
      StepsOk(o, name, c, dir, w.log);
      var p := CaseSteps(o, name, c, dir, w.log);
      EmailIrrelevant(name, p.dir, p.log);
      WorldOkGrows(w, p.log);
    }
  }

  lemma NewDirOk(name: string, log: seq<Event>)
    ensures DirOk(name, NEW_DIR, log)
  {
  }

  lemma EmailIrrelevant(name: string, d: BuildDir, log: seq<Event>)
    requires DirOk(name, d, log)
    ensures DirOk(name, d.(email := true), log)
  {
  }

  lemma {:induction false} RunCasesOk(o: Options, cases: seq<Case>, x: seq<CaseOutcome>, w: World, n: nat)
    requires WorldOk(w) && n <= |cases| == |x|
    ensures var r := RunCases(o, cases, x, w, n);
            WorldOk(r.w) && Grows(w.log, r.w.log) && r.w.pull == w.pull
  {
    hide WorldOk, RunCase;
    if n > 0 {
      RunCasesOk(o, cases, x, w, n - 1);
      var before := RunCases(o, cases, x, w, n - 1);
      RunCaseOk(o, cases[n - 1].name, x[n - 1], before.w);
    }
  }

  // ---------- pushing ----------

  lemma {:induction false} FinalPullsGrow(repos: seq<RepoOutcome>, log: seq<Event>, n: nat)
    requires n <= |repos|
    ensures Grows(log, FinalPulls(repos, log, n).log)
    ensures FinalPulls(repos, log, n).passed ==>
              forall i: nat :: i < n ==> FinalPull(i, 0) in FinalPulls(repos, log, n).log[|log|..]
    ensures forall e :: e in FinalPulls(repos, log, n).log[|log|..] ==> !e.Push?
  {
    if n > 0 {
      FinalPullsGrow(repos, log, n - 1);
      NewEvents(log, FinalPulls(repos, log, n - 1).log, FinalPulls(repos, log, n).log);
    }
  }

  lemma {:induction false} AmendsGrow(repos: seq<RepoOutcome>, log: seq<Event>, n: nat)
    requires n <= |repos|
    ensures Grows(log, Amends(repos, log, n).log)
    ensures Amends(repos, log, n).stopped ==> !Amends(repos, log, n).passed
    ensures Amends(repos, log, n).passed ==>
              forall i: nat :: i < n && repos[i].hasCommits ==> Amend(i, 0) in Amends(repos, log, n).log[|log|..]
    ensures forall e :: e in Amends(repos, log, n).log[|log|..] ==> !e.Push?
  {
    if n > 0 {
      AmendsGrow(repos, log, n - 1);
      NewEvents(log, Amends(repos, log, n - 1).log, Amends(repos, log, n).log);
    }
  }

  lemma {:induction false} PushesGrow(repos: seq<RepoOutcome>, forced: bool, log: seq<Event>, n: nat)
    requires n <= |repos|
    ensures Grows(log, Pushes(repos, forced, log, n).log)
    ensures forall e :: e in Pushes(repos, forced, log, n).log[|log|..] ==> e.Push? && e.forced == forced
  {
    if n > 0 {
      PushesGrow(repos, forced, log, n - 1);
      NewEvents(log, Pushes(repos, forced, log, n - 1).log, Pushes(repos, forced, log, n).log);
    }
  }

  /** New events of a history that grew in two steps. */
  lemma NewEvents(a: seq<Event>, b: seq<Event>, c: seq<Event>)
    requires a <= b <= c
    ensures c[|a|..] == b[|a|..] + c[|b|..]
  {
  }

  /** What a push (of either kind) in the push step stands for. */
  ghost predicate FinalStepsPassed(o: Options, repos: seq<RepoOutcome>, events: seq<Event>) {
    && (forall i: nat :: i < |repos| ==> FinalPull(i, 0) in events)
    && (o.appendTestResults ==> forall i: nat :: i < |repos| && repos[i].hasCommits ==> Amend(i, 0) in events)
  }

  lemma PushStepGrows(o: Options, x: Outcomes, forced: bool, w: World)
    ensures var w' := PushStep(o, x, forced, w);
            && Grows(w.log, w'.log) && w'.pull == w.pull && w'.dirs == w.dirs
            && (forall e :: e in w'.log[|w.log|..] && e.Push? ==>
                  e.forced == forced && FinalStepsPassed(o, x.repos, w'.log[|w.log|..]))
  {
    var n, w' := |x.repos|, PushStep(o, x, forced, w);
    var pulled := FinalPulls(x.repos, w.log, n);
    FinalPullsGrow(x.repos, w.log, n);
    if pulled.passed {
      var amended := if o.appendTestResults then Amends(x.repos, pulled.log, n) else Amended(pulled.log, true, false);
      AmendsGrow(x.repos, pulled.log, n);
      NewEvents(w.log, pulled.log, amended.log);
      PushesGrow(x.repos, forced, amended.log, n);
      NewEvents(w.log, amended.log, w'.log);
    }
  }

  // ---------- the invariant over all runs ----------

  lemma ExpandedOptions(o: Options)
    ensures IsExpanded(Expand(o))
  {
  }

  lemma BuildPhaseOk(o: Options, cases: seq<Case>, x: Outcomes, w: World)
    requires WorldOk(w) && IsExpanded(o) && |cases| == |x.cases|
    ensures WorldOk(BuildPhase(o, cases, x, w).w)
    ensures var pulled := InitialPullStep(o, cases, x, Clean(o, cases, w));
            Grows(pulled.log, BuildPhase(o, cases, x, w).w.log) && BuildPhase(o, cases, x, w).w.pull == pulled.pull
  {
    hide WorldOk;
    PulledWorldOk(o, cases, x, w);
    RunCasesOk(o, cases, x.cases, InitialPullStep(o, cases, x, Clean(o, cases, w)), |cases|);
  }

  /** One invocation, with any options and any command results, keeps the invariant. */
  lemma InvokeKeepsWorldOk(options: Options, cases: seq<Case>, x: Outcomes, w: World)
    requires WorldOk(w) && |cases| == |x.cases|
    ensures WorldOk(Invoke(options, cases, x, w))
  {
    hide WorldOk, Expand, OkayToCommit;
    var o := Expand(options);
    ExpandedOptions(options);
    PulledWorldOk(o, cases, x, w);
    BuildPhaseOk(o, cases, x, w);
    var built := BuildPhase(o, cases, x, w).w;
    PushStepGrows(o, x, true, built);
    PushStepGrows(o, x, false, built);
    WorldOkGrows(built, PushStep(o, x, true, built).log);
    WorldOkGrows(built, PushStep(o, x, false, built).log);
  }

  /** Over every sequence of invocations: each build directory keeps make.success only with configure.success and
      ctest.success only with make.success (or from the no-enables path), every marker stems from a command that
      returned 0, and no marker predates an initial pull attempt for which its case was selected. */
  lemma {:induction false} AllRunsKeepWorldOk(runs: seq<Invocation>)
    requires forall r :: r in runs ==> |r.cases| == |r.outcomes.cases|
    ensures WorldOk(InvokeAll(runs, NEW_WORLD))
    decreases |runs|
  {
    if runs != [] {
      var last, init := runs[|runs| - 1], runs[..|runs| - 1];
      AllRunsKeepWorldOk(init);
      InvokeKeepsWorldOk(last.options, last.cases, last.outcomes, InvokeAll(init, NEW_WORLD));
    }
  }

  // ---------- what an unforced push implies ----------

  /** The events of a history from index `base` on. */
  function Since(log: seq<Event>, base: nat): seq<Event> {
    if base <= |log| then log[base..] else []
  }

  ghost predicate UnforcedPush(events: seq<Event>) {
    exists e :: e in events && e.Push? && !e.forced
  }

  ghost predicate DistinctNames(cases: seq<Case>) {
    forall i, j :: 0 <= i < j < |cases| ==> cases[i].name != cases[j].name
  }

  predicate HasTestMarker(name: string, w: World) {
    name in w.dirs && w.dirs[name].ctest.Some?
  }

  /** A test marker of a case that was not skipped comes from a ctest that returned 0 in this invocation. */
  ghost predicate FreshlyTested(name: string, skipped: bool, w: World, base: nat) {
    !skipped && HasTestMarker(name, w) ==>
      var t := w.dirs[name].ctest.value;
      base <= t < |w.log| && w.log[t] == CTest(name, 0)
  }

  lemma ConfigureKeepsTestMarker(o: Options, name: string, c: CaseOutcome, dir: BuildDir, log: seq<Event>)
    ensures var p := ConfigureStep(o, name, c, dir, log);
            && log <= p.log && p.dir.ctest == dir.ctest && (p.skipped ==> !c.anyEnables)
            && (forall e :: e in p.log[|log|..] ==> !e.Push?)
  {
  }

  lemma MakeKeepsTestMarker(o: Options, name: string, c: CaseOutcome, p: Progress)
    ensures var p' := BuildStep(o, name, c, p);
            && p.log <= p'.log && p'.dir.ctest == p.dir.ctest && p'.skipped == p.skipped
            && (forall e :: e in p'.log[|p.log|..] ==> !e.Push?)
  {
  }

  /** Before its tests, a case leaves the test marker alone, and it is skipped only for lack of enabled packages. */
  lemma BuildKeepsTestMarker(o: Options, name: string, c: CaseOutcome, dir: BuildDir, log: seq<Event>)
    ensures var p := BuildStep(o, name, c, ConfigureStep(o, name, c, dir, log));
            && log <= p.log && p.dir.ctest == dir.ctest && (p.skipped ==> !c.anyEnables)
            && (forall e :: e in p.log[|log|..] ==> !e.Push?)
  {
    hide ConfigureStep, BuildStep;
    var p1 := ConfigureStep(o, name, c, dir, log);
    ConfigureKeepsTestMarker(o, name, c, dir, log);
    MakeKeepsTestMarker(o, name, c, p1);
    NewEvents(log, p1.log, BuildStep(o, name, c, p1).log);
  }

  lemma TestsTouchMarker(o: Options, name: string, c: CaseOutcome, p: Progress)
    requires p.dir.ctest == None
    ensures var p' := TestStep(o, name, c, p);
            && p.log <= p'.log && p'.skipped == p.skipped
            && (!p.skipped && p'.dir.ctest.Some? ==>
                  |p.log| <= p'.dir.ctest.value < |p'.log| && p'.log[p'.dir.ctest.value] == CTest(name, 0))
  {
  }

  lemma RunCaseTests(o: Options, name: string, c: CaseOutcome, w: World)
    requires !HasTestMarker(name, w)
    ensures var r := RunCase(o, name, c, w);
            && w.log <= r.w.log && FreshlyTested(name, r.skipped, r.w, |w.log|)
            && (forall n :: n != name ==> (HasTestMarker(n, r.w) <==> HasTestMarker(n, w)))
            && (forall n :: n != name && n in w.dirs ==> n in r.w.dirs && r.w.dirs[n] == w.dirs[n])
            && (r.skipped ==> !c.anyEnables)
  {
    hide ConfigureStep, BuildStep, TestStep;
    var dir := if name in w.dirs then w.dirs[name] else NEW_DIR;
    BuildKeepsTestMarker(o, name, c, dir, w.log);
    TestsTouchMarker(o, name, c, BuildStep(o, name, c, ConfigureStep(o, name, c, dir, w.log)));
  }

  lemma {:induction false} RunCasesTest(o: Options, cases: seq<Case>, x: seq<CaseOutcome>, w: World, n: nat)
    requires n <= |cases| == |x| && DistinctNames(cases)
    requires forall i :: 0 <= i < |cases| && cases[i].run ==> !HasTestMarker(cases[i].name, w)
    ensures var r := RunCases(o, cases, x, w, n);
            && w.log <= r.w.log
            && (forall i :: 0 <= i < n && cases[i].run ==> FreshlyTested(cases[i].name, r.skipped[i], r.w, |w.log|))
            && (forall i :: n <= i < |cases| && cases[i].run ==> !HasTestMarker(cases[i].name, r.w))
            && (forall i :: 0 <= i < n && r.skipped[i] ==> !x[i].anyEnables)
  {
    if n > 0 {
      RunCasesTest(o, cases, x, w, n - 1);
      var before := RunCases(o, cases, x, w, n - 1);
      if cases[n - 1].run {
        RunCaseTests(o, cases[n - 1].name, x[n - 1], before.w);
      }
    }
  }

  /** After the build cases of an invocation with actions: every test marker of a selected case is fresh,
      and without running them there is none. */
  lemma BuildPhaseTests(o: Options, cases: seq<Case>, x: Outcomes, w: World)
    requires IsExpanded(o) && |cases| == |x.cases| && DistinctNames(cases) && PerformAnyActions(o)
    ensures var r := BuildPhase(o, cases, x, w);
            && w.log <= r.w.log
            && (forall i :: 0 <= i < |cases| && cases[i].run ==> FreshlyTested(cases[i].name, r.skipped[i], r.w, |w.log|))
            && (forall i :: 0 <= i < |cases| && r.skipped[i] ==> !x.cases[i].anyEnables)
            && (!RunBuildCases(o, x, InitialPullStep(o, cases, x, Clean(o, cases, w))) ==> !OkayToCommit(cases, r))
  {
    var pulled := InitialPullStep(o, cases, x, Clean(o, cases, w));
    forall i | 0 <= i < |cases| && cases[i].run
      ensures !HasTestMarker(cases[i].name, pulled)
    {
      SelectedAreCleaned(o, cases, w.dirs, cases[i]);
    }
    if RunBuildCases(o, x, pulled) {
      RunCasesTest(o, cases, x.cases, pulled, |cases|);
    }
  }

  lemma RunCasePushesNothing(o: Options, name: string, c: CaseOutcome, w: World)
    ensures var r := RunCase(o, name, c, w);
            w.log <= r.w.log && forall e :: e in r.w.log[|w.log|..] ==> !e.Push?
  {
    hide ConfigureStep, BuildStep;
    var dir := if name in w.dirs then w.dirs[name] else NEW_DIR;
    BuildKeepsTestMarker(o, name, c, dir, w.log);
    if !c.entryRaises && PerformAnyActions(o) {
      NewEvents(w.log, BuildStep(o, name, c, ConfigureStep(o, name, c, dir, w.log)).log, RunCase(o, name, c, w).w.log);
    }
  }

  /** The build cases push nothing. */
  lemma {:induction false} RunCasesPushNothing(o: Options, cases: seq<Case>, x: seq<CaseOutcome>, w: World, n: nat)
    requires n <= |cases| == |x|
    ensures var r := RunCases(o, cases, x, w, n);
            w.log <= r.w.log && forall e :: e in r.w.log[|w.log|..] ==> !e.Push?
  {
    hide RunCase;
    if n > 0 {
      RunCasesPushNothing(o, cases, x, w, n - 1);
      var before := RunCases(o, cases, x, w, n - 1);
      RunCasePushesNothing(o, cases[n - 1].name, x[n - 1], before.w);
      NewEvents(w.log, before.w.log, RunCases(o, cases, x, w, n).w.log);
    }
  }

  lemma BuildPhasePushesNothing(o: Options, cases: seq<Case>, x: Outcomes, w: World)
    requires |cases| == |x.cases|
    ensures var r := BuildPhase(o, cases, x, w);
            w.log <= r.w.log && forall e :: e in r.w.log[|w.log|..] ==> !e.Push?
  {
    var pulled := InitialPullStep(o, cases, x, Clean(o, cases, w));
    RunCasesPushNothing(o, cases, x.cases, pulled, |cases|);
    var r := BuildPhase(o, cases, x, w);
    NewEvents(w.log, pulled.log, r.w.log);
  }

  /** An unforced push happens only when the readiness check passes, with the pull marker and all final steps. */
  lemma UnforcedPushWasReady(options: Options, cases: seq<Case>, x: Outcomes, w: World)
    requires |cases| == |x.cases|
    requires UnforcedPush(Since(Invoke(options, cases, x, w).log, |w.log|))
    ensures var o, w' := Expand(options), Invoke(options, cases, x, w);
            var r := BuildPhase(o, cases, x, w);
            && x.interrupt == NoInterrupt
            && w.log <= r.w.log <= w'.log && w'.dirs == r.w.dirs && w'.pull == r.w.pull
            && OkayToCommit(cases, r) && w'.pull.Some?
            && FinalStepsPassed(o, x.repos, w'.log[|w.log|..])
  {
    hide OkayToCommit, BuildPhase;
    var o, w' := Expand(options), Invoke(options, cases, x, w);
    var r := BuildPhase(o, cases, x, w);
    BuildPhasePushesNothing(o, cases, x, w);
    var e :| e in w'.log[|w.log|..] && e.Push? && !e.forced;
    assert x.interrupt == NoInterrupt;
    var forced := !OkayToCommit(cases, r) && o.forcePush;
    PushStepGrows(o, x, forced, r.w);
    NewEvents(w.log, r.w.log, w'.log);
    assert e in w'.log[|r.w.log|..];
  }

  ghost predicate TestedIn(name: string, events: seq<Event>) {
    CTest(name, 0) in events
  }

  /** In an invocation that requests any action, an unforced push implies: some selected case that was not skipped had
      ctest return 0 in this same invocation, every other selected case did too or had no enabled packages, the pull
      marker exists (and stems from this invocation, if it pulls), and the final pulls and requested amends passed. */
  lemma UnforcedPushMeansTested(options: Options, cases: seq<Case>, x: Outcomes, w: World)
    requires |cases| == |x.cases| && DistinctNames(cases) && PerformAnyActions(Expand(options))
    requires UnforcedPush(Since(Invoke(options, cases, x, w).log, |w.log|))
    ensures var o, w' := Expand(options), Invoke(options, cases, x, w);
            var r, events := BuildPhase(o, cases, x, w), Since(w'.log, |w.log|);
            && (exists i :: 0 <= i < |cases| && cases[i].run && !r.skipped[i] && TestedIn(cases[i].name, events))
            && (forall i :: 0 <= i < |cases| && cases[i].run ==>
                  if r.skipped[i] then !x.cases[i].anyEnables else TestedIn(cases[i].name, events))
            && r.success && w'.pull.Some?
            && (o.doPull ==> PullSucceeds(x) && InitialPull(true, Selected(cases)) in events)
            && FinalStepsPassed(o, x.repos, events)
  {
    hide BuildPhase, Invoke, PullSucceeds;
    var o, w' := Expand(options), Invoke(options, cases, x, w);
    ExpandedOptions(options);
    UnforcedPushWasReady(options, cases, x, w);
    BuildPhaseTests(o, cases, x, w);
    var r := BuildPhase(o, cases, x, w);
    forall i | 0 <= i < |cases| && cases[i].run && !r.skipped[i]
      ensures TestedIn(cases[i].name, Since(w'.log, |w.log|))
    {
      assert CaseOkayToCommit(cases[i], r.skipped[i], r.w);
      var t := r.w.dirs[cases[i].name].ctest.value;
      assert Since(w'.log, |w.log|)[t - |w.log|] == CTest(cases[i].name, 0);
    }
    if o.doPull {
      PullMarkerIsFresh(o, cases, x, w);
      assert Since(w'.log, |w.log|)[0] == InitialPull(true, Selected(cases));
    }
  }

  lemma PullMarkerIsFresh(o: Options, cases: seq<Case>, x: Outcomes, w: World)
    requires |cases| == |x.cases| && o.doPull && BuildPhase(o, cases, x, w).w.pull.Some?
    ensures PullSucceeds(x)
    ensures var log := BuildPhase(o, cases, x, w).w.log;
            |w.log| < |log| && log[|w.log|] == InitialPull(true, Selected(cases))
  {
    var pulled := InitialPullStep(o, cases, x, Clean(o, cases, w));
    RunCasesKeepPull(o, cases, x.cases, pulled, |cases|);
  }

  lemma {:induction false} RunCasesKeepPull(o: Options, cases: seq<Case>, x: seq<CaseOutcome>, w: World, n: nat)
    requires n <= |cases| == |x|
    ensures var r := RunCases(o, cases, x, w, n); r.w.pull == w.pull && w.log <= r.w.log
  {
    hide RunCase;
    if n > 0 {
      RunCasesKeepPull(o, cases, x, w, n - 1);
      var before := RunCases(o, cases, x, w, n - 1);
      RunCasePushesNothing(o, cases[n - 1].name, x[n - 1], before.w);
      RunCaseKeepsPull(o, cases[n - 1].name, x[n - 1], before.w);
    }
  }

  lemma RunCaseKeepsPull(o: Options, name: string, c: CaseOutcome, w: World)
    ensures RunCase(o, name, c, w).w.pull == w.pull
  {
  }

  /** A graceful abort, and any other reason not to run the build cases, never leads to an unforced push. */
  lemma NoRunNoUnforcedPush(options: Options, cases: seq<Case>, x: Outcomes, w: World)
    requires |cases| == |x.cases| && DistinctNames(cases) && PerformAnyActions(Expand(options))
    requires var o := Expand(options);
             AbortGracefully(o, x) || !RunBuildCases(o, x, InitialPullStep(o, cases, x, Clean(o, cases, w)))
    ensures !UnforcedPush(Since(Invoke(options, cases, x, w).log, |w.log|))
  {
    hide BuildPhase, Invoke;
    ExpandedOptions(options);
    if UnforcedPush(Since(Invoke(options, cases, x, w).log, |w.log|)) {
      UnforcedPushWasReady(options, cases, x, w);
      BuildPhaseTests(Expand(options), cases, x, w);
    }
  }

  /** Whatever the invocation requests, an unforced push relies on markers that are newer than every initial pull attempt
      that selected the case: from a ctest that returned 0 or from the no-enables path of some invocation. */
  lemma UnforcedPushReliesOnMarkers(options: Options, cases: seq<Case>, x: Outcomes, w: World)
    requires WorldOk(w) && |cases| == |x.cases|
    requires UnforcedPush(Since(Invoke(options, cases, x, w).log, |w.log|))
    ensures var w', r := Invoke(options, cases, x, w), BuildPhase(Expand(options), cases, x, w);
            && PullOk(w'.pull, w'.log) && w'.pull.Some?
            && (exists i :: 0 <= i < |cases| && cases[i].run && !r.skipped[i])
            && forall i :: 0 <= i < |cases| && cases[i].run && !r.skipped[i] ==>
                 var name := cases[i].name;
                 && HasTestMarker(name, w')
                 && NewerThanPulls(name, w'.dirs[name].ctest, w'.log)
                 && (Touched(w'.dirs[name].ctest, w'.log, CTest(name, 0))
                     || Touched(w'.dirs[name].ctest, w'.log, SkippedTests(name)))
  {
    hide BuildPhase, Invoke;
    UnforcedPushWasReady(options, cases, x, w);
    InvokeKeepsWorldOk(options, cases, x, w);
    var w', r := Invoke(options, cases, x, w), BuildPhase(Expand(options), cases, x, w);
    forall i | 0 <= i < |cases| && cases[i].run && !r.skipped[i]
      ensures HasTestMarker(cases[i].name, w') && DirOk(cases[i].name, w'.dirs[cases[i].name], w'.log)
    {
      assert CaseOkayToCommit(cases[i], r.skipped[i], r.w);
    }
  }

  // ---------- the same selection in every invocation ----------

  lemma InvokePullsSelected(options: Options, cases: seq<Case>, x: Outcomes, w: World)
    requires WorldOk(w) && |cases| == |x.cases|
    ensures var log := Invoke(options, cases, x, w).log;
            w.log <= log && forall i :: |w.log| <= i < |log| && log[i].InitialPull? ==> log[i].selected == Selected(cases)
  {
    hide WorldOk, OkayToCommit, Expand;
    var o := Expand(options);
    ExpandedOptions(options);
    BuildPhaseOk(o, cases, x, w);
    var built := BuildPhase(o, cases, x, w).w;
    PushStepGrows(o, x, true, built);
    PushStepGrows(o, x, false, built);
  }

  lemma {:induction false} AllPullsSelect(runs: seq<Invocation>, selected: set<string>)
    requires forall r :: r in runs ==> |r.cases| == |r.outcomes.cases| && Selected(r.cases) == selected
    ensures var log := InvokeAll(runs, NEW_WORLD).log;
            forall i :: 0 <= i < |log| && log[i].InitialPull? ==> log[i].selected == selected
    decreases |runs|
  {
    hide Invoke, WorldOk, Selected;
    if runs != [] {
      var last, init := runs[|runs| - 1], runs[..|runs| - 1];
      AllPullsSelect(init, selected);
      AllRunsKeepWorldOk(init);
      InvokePullsSelected(last.options, last.cases, last.outcomes, InvokeAll(init, NEW_WORLD));
      assert last in runs && Selected(last.cases) == selected;
      assert InvokeAll(runs, NEW_WORLD) == Invoke(last.options, last.cases, last.outcomes, InvokeAll(init, NEW_WORLD));
      var before, log := InvokeAll(init, NEW_WORLD).log, InvokeAll(runs, NEW_WORLD).log;
      assert forall i :: 0 <= i < |before| ==> log[i] == before[i];
    }
  }

  /** If the selected build cases stay the same, no marker of a selected case predates the latest initial pull attempt. */
  lemma SameSelectionKeepsMarkersNew(runs: seq<Invocation>, selected: set<string>, name: string, i: nat)
    requires forall r :: r in runs ==> |r.cases| == |r.outcomes.cases| && Selected(r.cases) == selected
    requires var w := InvokeAll(runs, NEW_WORLD);
             name in selected && name in w.dirs && i < |w.log| && w.log[i].InitialPull?
    ensures var d := InvokeAll(runs, NEW_WORLD).dirs[name];
            && (d.configure.Some? ==> i < d.configure.value)
            && (d.make.Some? ==> i < d.make.value)
            && (d.ctest.Some? ==> i < d.ctest.value)
  {
    AllRunsKeepWorldOk(runs);
    AllPullsSelect(runs, selected);
    assert DirOk(name, InvokeAll(runs, NEW_WORLD).dirs[name], InvokeAll(runs, NEW_WORLD).log);
  }

  // ---------- where the guarantee stops ----------

  const NOTHING := Options(false, false, false, false, false, false, false, true, false, true, false, false, false, false, false)
  const DO_ALL := NOTHING.(doAll := true)
  const PUSH_ONLY := NOTHING.(doPush := true)
  const PASSES := CaseOutcome(false, false, true, true, 0, 0, 0, AnalysisPassed)
  const NO_ENABLES := PASSES.(anyEnables := false)

  function Quiet(c: CaseOutcome): Outcomes {
    Outcomes(NoInterrupt, true, true, true, true, [c], false, false, [RepoOutcome(true, 0, false, 0, 0)])
  }

  /** Across invocations a push need not mean that anything was tested: the marker of a case without enabled packages
      allows a later, push-only invocation to push although no configure, build or test ever ran. */
  lemma SkippedCaseIsPushedLater()
    ensures var cases := [Case("A", true)];
            var w := Invoke(DO_ALL.(doPush := true), cases, Quiet(NO_ENABLES), NEW_WORLD);
            var w' := Invoke(PUSH_ONLY, cases, Quiet(PASSES), w);
            && !UnforcedPush(w.log) && UnforcedPush(Since(w'.log, |w.log|))
            && forall e :: e in w'.log ==> !e.Configure? && !e.Make? && !e.CTest?
  {
    var cases := [Case("A", true)];
    var o, x := Expand(DO_ALL.(doPush := true)), Quiet(NO_ENABLES);
    assert cases[..0] == [];
    assert Clean(o, cases, NEW_WORLD) == NEW_WORLD;
    var pulled := InitialPullStep(o, cases, x, NEW_WORLD);
    assert pulled == World(Some(0), map[], [InitialPull(true, Selected(cases))]);
    var ran := RunCase(o, "A", NO_ENABLES, pulled);
    assert ran.w == World(Some(0), map["A" := BuildDir(None, None, Some(1), true)], pulled.log + [SkippedTests("A")]);
    assert RunCases(o, cases, x.cases, pulled, 1) == CasesResult(ran.w, true, [] + [true]);
    var w := Invoke(DO_ALL.(doPush := true), cases, x, NEW_WORLD);
    assert w == ran.w;

    var y, n := Quiet(PASSES), 1;
    assert Clean(PUSH_ONLY, cases, w) == w;
    var r := BuildPhase(PUSH_ONLY, cases, y, w);
    assert r == CasesResult(w, true, r.skipped) && !r.skipped[0];
    assert CaseOkayToCommit(cases[0], r.skipped[0], w) && OkayToCommit(cases, r);
    assert FinalPulls(y.repos, w.log, n) == Logged(w.log + [FinalPull(0, 0)], true);
    var log := w.log + [FinalPull(0, 0)];
    assert Amends(y.repos, log, n) == Amended(log + [Amend(0, 0)], true, false);
    log := log + [Amend(0, 0)];
    assert Pushes(y.repos, false, log, n) == Logged(log + [Push(0, false, 0)], true);
    assert Since(Invoke(PUSH_ONLY, cases, y, w).log, |w.log|)[2] == Push(0, false, 0);
  }

  /** A selected case whose existing test marker was touched by a ctest that returned 0. */
  ghost predicate ReallyTested(c: Case, w: World) {
    c.run && HasTestMarker(c.name, w) && Touched(w.dirs[c.name].ctest, w.log, CTest(c.name, 0))
  }

  lemma {:induction false} CleaningWithoutActions(o: Options, cases: seq<Case>, dirs: map<string, BuildDir>)
    requires !PerformAnyActions(o)
    ensures !o.wipeClean ==> CleanCases(o, cases, dirs) == dirs
    ensures o.wipeClean ==> forall c :: c in cases && c.run ==> c.name !in CleanCases(o, cases, dirs)
    decreases |cases|
  {
    if cases != [] {
      var init := cases[..|cases| - 1];
      assert cases == init + [cases[|cases| - 1]];
      CleaningWithoutActions(o, init, dirs);
    }
  }

  /** Exactly when an unforced push means that something was tested: the pushing invocation performs some action itself,
      or before it some selected case has a test marker that does not come from the no-enables path. */
  lemma UnforcedPushTestedIff(options: Options, cases: seq<Case>, x: Outcomes, w: World)
    requires WorldOk(w) && |cases| == |x.cases| && DistinctNames(cases)
    requires UnforcedPush(Since(Invoke(options, cases, x, w).log, |w.log|))
    ensures (exists c :: c in cases && ReallyTested(c, Invoke(options, cases, x, w)))
       <==> PerformAnyActions(Expand(options)) || (exists c :: c in cases && ReallyTested(c, w))
  {
    hide Invoke, WorldOk;
    var o, w' := Expand(options), Invoke(options, cases, x, w);
    var r := BuildPhase(o, cases, x, w);
    ExpandedOptions(options);
    UnforcedPushWasReady(options, cases, x, w);
    if PerformAnyActions(o) {
      BuildPhaseTests(o, cases, x, w);
      var i :| 0 <= i < |cases| && cases[i].run && CaseOkayToCommit(cases[i], r.skipped[i], r.w) && !r.skipped[i];
      assert cases[i] in cases && ReallyTested(cases[i], w');
    } else {
      CleaningWithoutActions(o, cases, w.dirs);
      assert r.w == Clean(o, cases, w);
      assert !o.wipeClean;
      forall c | c in cases && c.run
        ensures ReallyTested(c, w') <==> ReallyTested(c, w)
      {
        MarkersWithinLog(w, c.name);
      }
    }
  }

  lemma MarkersWithinLog(w: World, name: string)
    requires WorldOk(w)
    ensures HasTestMarker(name, w) ==> w.dirs[name].ctest.value < |w.log|
  {
    assert name in w.dirs ==> DirOk(name, w.dirs[name], w.log);
  }
}
