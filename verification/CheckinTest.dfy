/** The check-in test script itself: it touches and removes marker files, runs commands and
    reassigns its flags step by step. The results of the commands it runs are its inputs. */
module CheckinTest {
  import opened Wrappers
  import opened CheckinState

  class BuildTestCase {
    const name: string
    const runBuildTestCase: bool
    var skippedConfigureDueToNoEnables: bool

    constructor (c: Case)
      ensures name == c.name && runBuildTestCase == c.run && !skippedConfigureDueToNoEnables
    {
      name, runBuildTestCase, skippedConfigureDueToNoEnables := c.name, c.run, false;
    }
  }

  class CheckinDirectory {
    var pullSuccess: Option<nat>
    var dirs: map<string, BuildDir>
    var log: seq<Event>

    function Contents(): World
      reads this
    {
      World(pullSuccess, dirs, log)
    }

    constructor ()
      ensures Contents() == NEW_WORLD
    {
      pullSuccess, dirs, log := None, map[], [];
    }

    method CleanBuildTestCaseOutputFiles(o: Options, c: Case)
      modifies this`dirs
      ensures dirs == CleanCase(o, c, old(dirs))
    {
      if c.run && c.name in dirs {
        if o.wipeClean {
          dirs := dirs - {c.name};
        } else if PerformAnyActions(o) {
          var d := dirs[c.name];
          if o.doConfigure || o.doPull {
            d := d.(configure := None);
          }
          if o.doBuild || o.doConfigure || o.doPull {
            d := d.(make := None);
          }
          if o.doTest || o.doBuild || o.doConfigure || o.doPull {
            d := d.(ctest := None);
          }
          dirs := dirs[c.name := d.(email := false)];
        }
      }
    }

    method CleanOldOutputFiles(o: Options, cases: seq<Case>)
      modifies this
      ensures Contents() == Clean(o, cases, old(Contents()))
    {
      if o.doPull {
        pullSuccess := None;
      }
      for i := 0 to |cases|
        invariant pullSuccess == (if o.doPull then None else old(pullSuccess)) && log == old(log)
        invariant dirs == CleanCases(o, cases[..i], old(dirs))
      {
        assert cases[..i + 1][..i] == cases[..i];
        CleanBuildTestCaseOutputFiles(o, cases[i]);
      }
      assert cases[..|cases|] == cases;
    }

    /** Runs the initial pulls. Returns whether the pull passed. */
    method DoInitialPull(o: Options, cases: seq<Case>, x: Outcomes) returns (pullPassed: bool)
      modifies this
      ensures Contents() == InitialPullStep(o, cases, x, old(Contents()))
      ensures pullPassed == PullPassed(o, x, Contents())
    {
      if o.doPull {
        pullPassed := x.reposAreClean;
        if pullPassed {
          pullPassed := x.pullCommandsPass && x.interrupt != InPull;
        }
        log := log + [InitialPull(pullPassed, Selected(cases))];
        if pullPassed {
          pullSuccess := Some(|log| - 1);
        }
      } else if pullSuccess.Some? {
        pullPassed := true;
      } else {
        pullPassed := o.allowNoPull;
      }
    }

    method DoConfigure(o: Options, testCase: BuildTestCase, c: CaseOutcome) returns (configurePassed: bool, raised: bool)
      requires testCase.name in dirs && !testCase.skippedConfigureDueToNoEnables
      modifies this`dirs, this`log, testCase
      ensures var p := ConfigureStep(o, testCase.name, c, old(dirs)[testCase.name], old(log));
              && dirs == old(dirs)[testCase.name := p.dir] && log == p.log
              && testCase.skippedConfigureDueToNoEnables == p.skipped && raised == p.raised && configurePassed == p.passed
    {
      var name := testCase.name;
      configurePassed, raised := false, c.setupRaises;
      if raised {
        return;
      }
      if o.doConfigure && !c.preConfigurePassed {
        // Skipped because the options could not be assembled.
      } else if !c.anyEnables {
        testCase.skippedConfigureDueToNoEnables := true;
      } else if o.doConfigure {
        log := log + [Configure(name, c.configureRtn)];
        if c.configureRtn == 0 {
          dirs := dirs[name := dirs[name].(configure := Some(|log| - 1))];
          configurePassed := true;
        } else {
          raised := true;
        }
      } else {
        configurePassed := dirs[name].configure.Some?;
      }
    }

    method DoBuild(o: Options, name: string, c: CaseOutcome, configurePassed: bool, ghost skipped: bool)
      returns (buildPassed: bool, raised: bool)
      requires name in dirs
      modifies this`dirs, this`log
      ensures var p := BuildStep(o, name, c, Progress(old(dirs)[name], old(log), skipped, false, configurePassed));
              && dirs == old(dirs)[name := p.dir] && log == p.log
              && raised == p.raised && buildPassed == p.passed && p.skipped == skipped
    {
      buildPassed, raised := false, false;
      if o.doBuild && configurePassed {
        log := log + [Make(name, c.makeRtn)];
        if c.makeRtn == 0 {
          dirs := dirs[name := dirs[name].(make := Some(|log| - 1))];
          buildPassed := true;
        } else {
          raised := true;
        }
      } else if o.doBuild && !configurePassed {
        // Skipped because the configure did not pass.
      } else {
        buildPassed := dirs[name].make.Some?;
      }
    }

    method DoTest(o: Options, name: string, c: CaseOutcome, buildPassed: bool, skipped: bool) returns (raised: bool)
      requires name in dirs
      modifies this`dirs, this`log
      ensures var p := TestStep(o, name, c, Progress(old(dirs)[name], old(log), skipped, false, buildPassed));
              && dirs == old(dirs)[name := p.dir] && log == p.log && raised == p.raised && p.skipped == skipped
    {
      raised := false;
      if o.doTest && buildPassed {
        log := log + [CTest(name, c.ctestRtn)];
        if c.ctestRtn == 0 {
          dirs := dirs[name := dirs[name].(ctest := Some(|log| - 1))];
        } else {
          raised := true;
        }
      } else if o.doTest && skipped {
        log := log + [SkippedTests(name)];
        dirs := dirs[name := dirs[name].(ctest := Some(|log| - 1))];
      }
    }

    /** The three steps of a case; an exception in one of them skips the rest. */
    method ConfigureBuildTest(o: Options, testCase: BuildTestCase, c: CaseOutcome) returns (raised: bool)
      requires testCase.name in dirs && !testCase.skippedConfigureDueToNoEnables
      modifies this`dirs, this`log, testCase
      ensures var p := CaseSteps(o, testCase.name, c, old(dirs)[testCase.name], old(log));
              && dirs == old(dirs)[testCase.name := p.dir] && log == p.log
              && testCase.skippedConfigureDueToNoEnables == p.skipped && raised == p.raised
    {
      hide ConfigureStep, BuildStep, TestStep;
      var name := testCase.name;
      ghost var p1 := ConfigureStep(o, name, c, dirs[name], log);
      ghost var p2 := BuildStep(o, name, c, p1);
      RaisedStops(o, name, c, p1);
      RaisedStops(o, name, c, p2);
      var configurePassed;
      configurePassed, raised := DoConfigure(o, testCase, c);
      if !raised {
        assert p1 == Progress(dirs[name], log, testCase.skippedConfigureDueToNoEnables, false, configurePassed);
        var buildPassed;
        buildPassed, raised := DoBuild(o, name, c, configurePassed, testCase.skippedConfigureDueToNoEnables);
        if !raised {
          assert p2 == Progress(dirs[name], log, testCase.skippedConfigureDueToNoEnables, false, buildPassed);
          raised := DoTest(o, name, c, buildPassed, testCase.skippedConfigureDueToNoEnables);
        }
      }
    }

    method RunBuildTestCase(o: Options, testCase: BuildTestCase, c: CaseOutcome) returns (success: bool)
      requires !c.entryRaises && !testCase.skippedConfigureDueToNoEnables
      modifies this`dirs, this`log, testCase
      ensures var r := RunCase(o, testCase.name, c, old(Contents()));
              && Contents() == r.w && success == r.success && testCase.skippedConfigureDueToNoEnables == r.skipped
    {
      hide CaseSteps;
      if !PerformAnyActions(o) {
        return true;
      }
      var name := testCase.name;
      if name !in dirs {
        dirs := dirs[name := NEW_DIR];
      }
      var raised := ConfigureBuildTest(o, testCase, c);
      success := !raised;
      ghost var p := CaseSteps(o, name, c, if name in old(dirs) then old(dirs)[name] else NEW_DIR, old(log));
      assert dirs == old(dirs)[name := p.dir];
      if c.analysis == AnalysisPassed || c.analysis == AnalysisRaised(true) {
        dirs := dirs[name := dirs[name].(email := true)];
      }
      if c.analysis != AnalysisPassed {
        success := false;
      }
    }

    method RunBuildTestCaseDriver(o: Options, testCase: BuildTestCase, c: CaseOutcome) returns (success: bool)
      requires !testCase.skippedConfigureDueToNoEnables
      modifies this`dirs, this`log, testCase
      ensures !testCase.runBuildTestCase ==>
                Contents() == old(Contents()) && success && !testCase.skippedConfigureDueToNoEnables
      ensures testCase.runBuildTestCase ==>
                var r := RunCase(o, testCase.name, c, old(Contents()));
                && Contents() == r.w && success == r.success && testCase.skippedConfigureDueToNoEnables == r.skipped
    {
      success := true;
      if testCase.runBuildTestCase {
        if c.entryRaises {
          return false;
        }
        success := RunBuildTestCase(o, testCase, c);
      }
    }

    /** Whether the case's actions passed, and whether it allows a push. */
    method CheckBuildTestCaseStatus(o: Options, testCase: BuildTestCase) returns (actionsPass: bool, okayToCommit: bool)
      ensures okayToCommit <==>
                CaseOkayToCommit(Case(testCase.name, testCase.runBuildTestCase), testCase.skippedConfigureDueToNoEnables, Contents())
      ensures actionsPass <==>
                || !testCase.runBuildTestCase || testCase.skippedConfigureDueToNoEnables
                || (if testCase.name in dirs then dirs[testCase.name].email else !PerformAnyBuildTestActions(o))
    {
      if !testCase.runBuildTestCase {
        return true, true;
      }
      if testCase.skippedConfigureDueToNoEnables {
        return true, true;
      }
      if testCase.name !in dirs && !PerformAnyBuildTestActions(o) {
        return true, false;
      }
      actionsPass := testCase.name in dirs && dirs[testCase.name].email;
      okayToCommit := testCase.name in dirs && dirs[testCase.name].ctest.Some?;
    }

    method CreateBuildTestCases(cases: seq<Case>) returns (list: seq<BuildTestCase>)
      ensures IsCaseList(list, cases) && Distinct(list)
      ensures forall i :: 0 <= i < |list| ==> fresh(list[i]) && !list[i].skippedConfigureDueToNoEnables
    {
      list := [];
      for i := 0 to |cases|
        invariant |list| == i && IsCaseList(list, cases[..i]) && Distinct(list)
        invariant forall j :: 0 <= j < i ==> fresh(list[j]) && !list[j].skippedConfigureDueToNoEnables
      {
        var testCase := new BuildTestCase(cases[i]);
        list := list + [testCase];
      }
      assert cases[..|cases|] == cases;
    }

    /** Runs all cases in order. */
    method RunBuildTestCases(o: Options, list: seq<BuildTestCase>, x: seq<CaseOutcome>, ghost cases: seq<Case>)
      returns (success: bool)
      requires |x| == |cases| && IsCaseList(list, cases) && Distinct(list)
      requires forall i :: 0 <= i < |list| ==> !list[i].skippedConfigureDueToNoEnables
      modifies this`dirs, this`log, list
      ensures var r := RunCases(o, cases, x, old(Contents()), |cases|);
              Contents() == r.w && success == r.success && SkippedAre(list, r.skipped)
    {
      hide RunCase;
      success := true;
      ghost var w := Contents();
      for i := 0 to |list|
        invariant var r := RunCases(o, cases, x, w, i);
                  && Contents() == r.w && success == r.success
                  && forall j :: 0 <= j < i ==> list[j].skippedConfigureDueToNoEnables == r.skipped[j]
        invariant forall j :: i <= j < |list| ==> !list[j].skippedConfigureDueToNoEnables
      {
        assert cases[i] == Case(list[i].name, list[i].runBuildTestCase);
        var result := RunBuildTestCaseDriver(o, list[i], x[i]);
        if !result {
          success := false;
        }
      }
    }

    method PushReadinessCheck(o: Options, list: seq<BuildTestCase>, success: bool, ghost cases: seq<Case>, ghost flags: seq<bool>)
      returns (okayToCommit: bool)
      requires IsCaseList(list, cases) && SkippedAre(list, flags)
      ensures okayToCommit <==> OkayToCommit(cases, CasesResult(Contents(), success, flags))
    {
      okayToCommit := success;
      var atLeastOneConfigureBuildAttemptPassed := false;
      ghost var w := Contents();
      for i := 0 to |list|
        invariant okayToCommit <==> success && forall j :: 0 <= j < i ==> CaseOkayToCommit(cases[j], flags[j], w)
        invariant atLeastOneConfigureBuildAttemptPassed <==>
                    exists j :: 0 <= j < i && cases[j].run && CaseOkayToCommit(cases[j], flags[j], w) && !flags[j]
      {
        assert cases[i] == Case(list[i].name, list[i].runBuildTestCase);
        var _, buildTestCaseOkayToCommit := CheckBuildTestCaseStatus(o, list[i]);
        if !buildTestCaseOkayToCommit {
          okayToCommit := false;
        }
        if list[i].runBuildTestCase && buildTestCaseOkayToCommit && !list[i].skippedConfigureDueToNoEnables {
          atLeastOneConfigureBuildAttemptPassed := true;
        }
      }
      if !atLeastOneConfigureBuildAttemptPassed {
        okayToCommit := false;
      }
    }

    method DoFinalPulls(repos: seq<RepoOutcome>) returns (pullFinalPassed: bool)
      modifies this`log
      ensures Logged(log, pullFinalPassed) == FinalPulls(repos, old(log), |repos|)
    {
      pullFinalPassed := true;
      for i := 0 to |repos|
        invariant pullFinalPassed && Logged(log, true) == FinalPulls(repos, old(log), i)
      {
        log := log + [FinalPull(i, repos[i].finalPullRtn)];
        if repos[i].finalPullRtn != 0 {
          pullFinalPassed := false;
          FinalPullsStopped(repos, old(log), i + 1, |repos|);
          return;
        }
      }
    }

    method DoAmends(repos: seq<RepoOutcome>) returns (amendFinalCommitPassed: bool)
      modifies this`log
      ensures var a := Amends(repos, old(log), |repos|); log == a.log && amendFinalCommitPassed == a.passed
    {
      amendFinalCommitPassed := true;
      for i := 0 to |repos|
        invariant Amended(log, amendFinalCommitPassed, false) == Amends(repos, old(log), i)
      {
        if repos[i].hasCommits {
          if repos[i].amendRaises {
            amendFinalCommitPassed := false;
          } else {
            log := log + [Amend(i, repos[i].amendRtn)];
            if repos[i].amendRtn != 0 {
              amendFinalCommitPassed := false;
              AmendsStopped(repos, old(log), i + 1, |repos|);
              return;
            }
          }
        }
      }
    }

    method DoPushes(repos: seq<RepoOutcome>, forced: bool) returns (pushPassed: bool)
      modifies this`log
      ensures Logged(log, pushPassed) == Pushes(repos, forced, old(log), |repos|)
    {
      pushPassed := true;
      for i := 0 to |repos|
        invariant pushPassed && Logged(log, true) == Pushes(repos, forced, old(log), i)
      {
        if repos[i].hasCommits {
          log := log + [Push(i, forced, repos[i].pushRtn)];
          if repos[i].pushRtn != 0 {
            pushPassed := false;
            PushesStopped(repos, forced, old(log), i + 1, |repos|);
            return;
          }
        }
      }
    }

    /** The final pull, the amend and the push, once a push is ready. */
    method DoFinalPush(o: Options, x: Outcomes, forcedCommitPush: bool)
      modifies this`log
      ensures Contents() == PushStep(o, x, forcedCommitPush, old(Contents()))
    {
      var okayToPush := DoFinalPulls(x.repos);
      if o.appendTestResults && okayToPush {
        okayToPush := DoAmends(x.repos);
      }
      if x.summariesRaise {
        return;
      }
      if okayToPush && !o.skipPush {
        var _ := DoPushes(x.repos, forcedCommitPush);
      }
    }

    /** One invocation of the script. */
    method CheckinTest(options: Options, cases: seq<Case>, x: Outcomes)
      requires |cases| == |x.cases|
      modifies this
      ensures Contents() == Invoke(options, cases, x, old(Contents()))
    {
      hide PushPhase, RunCases, RunBuildCases, Clean, InitialPullStep, PullPassed, Expand;
      var o := Expand(options);
      var list := CreateBuildTestCases(cases);

      CleanOldOutputFiles(o, cases);
      if x.interrupt == InStatus {
        return;
      }

      var pullPassed := DoInitialPull(o, cases, x);
      if x.interrupt == InPull || x.interrupt == InDiff {
        return;
      }

      var success := BuildAndTest(o, x, pullPassed, list, cases);
      CheckAndPush(o, x, list, success, cases, BuildPhase(o, cases, x, old(Contents())));
    }

    /** The readiness check and, if it passes or is forced, the push. */
    method CheckAndPush(o: Options, x: Outcomes, list: seq<BuildTestCase>, success: bool, ghost cases: seq<Case>, ghost r: CasesResult)
      requires IsCaseList(list, cases) && SkippedAre(list, r.skipped) && r.w == Contents() && r.success == success
      modifies this`log
      ensures Contents() == PushPhase(o, cases, x, r)
    {
      hide OkayToCommit, PushStep;
      if o.doPushReadinessCheck {
        if x.readinessRaises {
          return;
        }
        var forcedCommitPush := false;
        var okayToCommit := PushReadinessCheck(o, list, success, cases, r.skipped);
        if !okayToCommit && o.forcePush {
          okayToCommit, forcedCommitPush := true, true;
        }
        var okayToPush := okayToCommit && pullSuccess.Some?;
        if o.doPush && okayToPush {
          DoFinalPush(o, x, forcedCommitPush);
        }
      }
    }

    method BuildAndTest(o: Options, x: Outcomes, pullPassed: bool, list: seq<BuildTestCase>, ghost cases: seq<Case>)
      returns (success: bool)
      requires |x.cases| == |cases| && IsCaseList(list, cases) && Distinct(list)
      requires forall i :: 0 <= i < |list| ==> !list[i].skippedConfigureDueToNoEnables
      requires pullPassed == PullPassed(o, x, Contents())
      modifies this`dirs, this`log, list
      ensures var pulled := old(Contents());
              var r := if RunBuildCases(o, x, pulled) then RunCases(o, cases, x.cases, pulled, |cases|)
                       else CasesResult(pulled, true, seq(|cases|, _ => false));
              Contents() == r.w && success == r.success && SkippedAre(list, r.skipped)
    {
      hide RunCases;
      var runBuildCases := DecideToRun(o, x, pullPassed);
      success := true;
      if runBuildCases {
        success := RunBuildTestCases(o, list, x.cases, cases);
      }
    }

    method DecideToRun(o: Options, x: Outcomes, pullPassed: bool) returns (runBuildCases: bool)
      requires pullPassed == PullPassed(o, x, Contents())
      ensures runBuildCases == RunBuildCases(o, x, Contents())
    {
      if !PerformAnyBuildTestActions(o) {
        runBuildCases := false;
      } else if o.doPull {
        if x.reposAreClean && !x.pulledSomeChanges && o.abortGracefullyIfNoChangesPulled {
          runBuildCases := false;
        } else if x.reposAreClean && !x.hasChangesToPush && o.abortGracefullyIfNoChangesToPush {
          runBuildCases := false;
        } else {
          runBuildCases := pullPassed;
        }
      } else {
        runBuildCases := o.allowNoPull || pullSuccess.Some?;
      }
    }
  }

  // ---------- the list of cases ----------

  predicate IsCaseList(list: seq<BuildTestCase>, cases: seq<Case>) {
    |list| == |cases| && forall i :: 0 <= i < |list| ==> cases[i] == Case(list[i].name, list[i].runBuildTestCase)
  }

  ghost predicate Distinct(list: seq<BuildTestCase>) {
    forall i, j :: 0 <= i < j < |list| ==> list[i] != list[j]
  }

  ghost predicate SkippedAre(list: seq<BuildTestCase>, flags: seq<bool>)
    reads list
  {
    |flags| == |list| && forall i :: 0 <= i < |list| ==> list[i].skippedConfigureDueToNoEnables == flags[i]
  }

  // ---------- loops that end early ----------

  lemma FinalPullsStopped(repos: seq<RepoOutcome>, log: seq<Event>, k: nat, n: nat)
    requires k <= n <= |repos| && !FinalPulls(repos, log, k).passed
    ensures FinalPulls(repos, log, n) == FinalPulls(repos, log, k)
  {
  }

  lemma AmendsStopped(repos: seq<RepoOutcome>, log: seq<Event>, k: nat, n: nat)
    requires k <= n <= |repos| && Amends(repos, log, k).stopped
    ensures Amends(repos, log, n) == Amends(repos, log, k)
  {
  }

  lemma PushesStopped(repos: seq<RepoOutcome>, forced: bool, log: seq<Event>, k: nat, n: nat)
    requires k <= n <= |repos| && !Pushes(repos, forced, log, k).passed
    ensures Pushes(repos, forced, log, n) == Pushes(repos, forced, log, k)
  {
  }

  lemma RaisedStops(o: Options, name: string, c: CaseOutcome, p: Progress)
    ensures p.raised ==> BuildStep(o, name, c, p) == p && TestStep(o, name, c, p) == p
  {
  }
}
