/**
  The triad pipeline (`validator/core/runner.py`): preflight, then extraction, git
  baseline, image build, and the two phases that run the harness with the test patch
  alone and with both patches. Every external effect is an input: whether extraction or
  the git baseline raised (and with what message), and the command results of the build,
  the patch applications and the four harness runs, each as `run_cmd` returns it. Reset
  commands are not inputs: their results are neither recorded nor consulted.
 */
module Runner {
  import opened Wrappers
  import opened Models
  import opened Policies
  import opened Process
  import opened Text
  import Preflight

  /** What the outside world did during one job. `extractError` is the message of the
      exception extraction raised, if it raised; `gitError` is the message of the exception
      the git baseline commands raise when they are run, if they raise. */
  datatype Outcomes = Outcomes(
    extractError: Option<string>,
    hasGitDir: bool,
    gitError: Option<string>,
    build: RunResult,
    applyTest1: RunResult,
    base1: RunResult,
    new1: RunResult,
    applyTest2: RunResult,
    applySolution: RunResult,
    base2: RunResult,
    new2: RunResult)

  /** The sandbox identity the report carries. */
  datatype JobInfo = JobInfo(jobId: string, submissionDir: string, runsDir: string)

  /** A stage recording a command result under a chosen verdict. */
  function StageOf(name: string, r: CmdResult, ok: bool): (s: StageResult)
    ensures s.name == name && s.ok == ok && s.exitCode == r.exitCode && s.cmd == r.cmd
  {
    StageResult(name, ok, r.exitCode, r.elapsedMs, r.cmd, r.stdoutTail, r.stderrTail)
  }

  /** A stage whose verdict is the command's own. */
  function Recorded(name: string, r: CmdResult): StageResult
  {
    StageOf(name, r, r.ok)
  }

  /** The EXTRACT_REPO and ENSURE_GIT_BASELINE stages: no command; on an exception the
      stage fails and carries the message as its stderr, while the exit code stays 0. */
  function Marker(name: string, raised: Option<string>): (s: StageResult)
    ensures s.name == name && s.exitCode == 0
    ensures s.ok <==> raised.None?
  {
    StageResult(name, raised.None?, 0, 0, [], "", if raised.Some? then raised.value else "")
  }

  /** `_ensure_git`: nothing runs when `.git` exists; otherwise the git commands run and
      only an exception they raise makes the step fail. */
  function EnsureGit(hasGitDir: bool, gitError: Option<string>): (raised: Option<string>)
    ensures raised.Some? ==> !hasGitDir && raised == gitError
  {
    if hasGitDir then None else gitError
  }

  /** `_apply_patch`: the stage is named after the patch file and records `git apply`. */
  function ApplyStage(patchName: string, r: CmdResult): (s: StageResult)
    ensures s.name == "APPLY_" + patchName && s.ok == r.ok
  {
    Recorded("APPLY_" + patchName, r)
  }

  // ---------------------------------------------------------------------------
  // The fail-fast sequence
  // ---------------------------------------------------------------------------

  /** One step after preflight: its stage, and the reason the job stops with when the
      stage is not ok (`None` for a step that never stops the job). */
  datatype Step = Step(stage: StageResult, stopReason: Option<string>)

  /** The step ends the job. */
  predicate Stops(s: Step)
  {
    s.stopReason.Some? && !s.stage.ok
  }

  /** The stages recorded by a run of steps, and the reason it stopped, if it did. */
  datatype Run = Run(stages: seq<StageResult>, stopped: Option<string>)

  /** Record each step's stage in turn, stopping after the first step that stops. */
  function RunSteps(steps: seq<Step>): (r: Run)
    ensures |r.stages| <= |steps|
    ensures forall i :: 0 <= i < |r.stages| ==> r.stages[i] == steps[i].stage
    ensures r.stopped.None? <==> forall i :: 0 <= i < |steps| ==> !Stops(steps[i])
    ensures r.stopped.None? ==> |r.stages| == |steps|
    ensures r.stopped.Some? ==>
              && |r.stages| >= 1
              && Stops(steps[|r.stages| - 1])
              && r.stopped == steps[|r.stages| - 1].stopReason
              && forall i :: 0 <= i < |r.stages| - 1 ==> !Stops(steps[i])
  {
    if steps == [] then Run([], None)
    else if Stops(steps[0]) then Run([steps[0].stage], steps[0].stopReason)
    else
      var rest := RunSteps(steps[1..]);
      Run([steps[0].stage] + rest.stages, rest.stopped)
  }

  /** The phase-1 oracle: the new tests must fail with the test patch alone. */
  function ExpectFail(r: CmdResult): (s: StageResult)
    ensures s.name == "TESTPATCH_NEW_EXPECT_FAIL"
    ensures s.ok <==> r.exitCode != 0
  {
    StageOf("TESTPATCH_NEW_EXPECT_FAIL", r, r.exitCode != 0)
  }

  /** The ten steps after preflight, in the order `run_triad_job` performs them. */
  function TriadSteps(o: Outcomes): seq<Step>
  {
    [ Step(Marker("EXTRACT_REPO", o.extractError), Some("extract_failed")),
      Step(Marker("ENSURE_GIT_BASELINE", EnsureGit(o.hasGitDir, o.gitError)), Some("git_init_failed")),
      Step(Recorded("DOCKER_BUILD", o.build), Some("docker_build_failed")),
      Step(ApplyStage("test.patch", o.applyTest1), None),
      Step(Recorded("TESTPATCH_BASE", o.base1), Some("base_failed_with_test_patch")),
      Step(ExpectFail(o.new1), Some("new_unexpectedly_passed_with_test_patch")),
      Step(ApplyStage("test.patch", o.applyTest2), None),
      Step(ApplyStage("solution.patch", o.applySolution), None),
      Step(Recorded("BOTH_BASE", o.base2), Some("base_failed_with_both_patches")),
      Step(Recorded("BOTH_NEW", o.new2), Some("new_failed_with_both_patches")) ]
  }

  /** `run_triad_job` after preflight has produced `pre`. */
  function Triad(pre: Preflight.PreflightResult, o: Outcomes, info: JobInfo): (r: Report)
    ensures r.jobId == info.jobId && r.submissionDir == info.submissionDir && r.runsDir == info.runsDir
    ensures r.violations == pre.violations
    ensures |r.stages| >= 1 && r.stages[0] == pre.stage
    ensures !pre.ok ==> !r.ok && r.stages == [pre.stage] && r.summary == TriadSkipped("preflight_failed")
    ensures r.ok <==> r.summary == TriadOk
    ensures r.ok ==> |r.stages| == 11
  {
    if !pre.ok then
      Report(false, info.jobId, info.submissionDir, info.runsDir, [pre.stage], pre.violations,
             TriadSkipped("preflight_failed"))
    else
      var run := RunSteps(TriadSteps(o));
      Report(run.stopped.None?, info.jobId, info.submissionDir, info.runsDir,
             [pre.stage] + run.stages, pre.violations,
             if run.stopped.None? then TriadOk else TriadFail(run.stopped.value))
  }

  /** The whole job: preflight on the submission, then the triad. */
  function RunTriadJob(sub: Preflight.Submission, pol: Policy, o: Outcomes, info: JobInfo): (r: Report)
    ensures r.violations == Preflight.RunPreflight(sub, pol).violations
  {
    Triad(Preflight.RunPreflight(sub, pol), o, info)
  }

  // ---------------------------------------------------------------------------
  // Properties of the pipeline
  // ---------------------------------------------------------------------------

  /** The stage names of a complete run. */
  const StageNames: seq<string> := [
    "PREFLIGHT", "EXTRACT_REPO", "ENSURE_GIT_BASELINE", "DOCKER_BUILD", "APPLY_test.patch",
    "TESTPATCH_BASE", "TESTPATCH_NEW_EXPECT_FAIL", "APPLY_test.patch", "APPLY_solution.patch",
    "BOTH_BASE", "BOTH_NEW"]

  /** Every checked step succeeds: nothing raised, the build and both base runs and the
      final new run pass, and the phase-1 new run fails. */
  ghost predicate CheckedStepsPass(o: Outcomes)
  {
    && o.extractError.None?
    && (o.hasGitDir || o.gitError.None?)
    && o.build.ok
    && o.base1.ok
    && o.new1.exitCode != 0
    && o.base2.ok
    && o.new2.ok
  }

  lemma StepsPassIff(o: Outcomes)
    ensures (forall i :: 0 <= i < |TriadSteps(o)| ==> !Stops(TriadSteps(o)[i])) <==> CheckedStepsPass(o)
  {
    var st := TriadSteps(o);
    if CheckedStepsPass(o) {
      forall i | 0 <= i < |st|
        ensures !Stops(st[i])
      {
      }
    } else {
      assert Stops(st[0]) || Stops(st[1]) || Stops(st[2]) || Stops(st[4])
          || Stops(st[5]) || Stops(st[8]) || Stops(st[9]);
    }
  }

  /** The job succeeds exactly when preflight passes and every checked step succeeds; it
      then reports `{triad: OK}` and all eleven stages. */
  lemma TriadOkIff(pre: Preflight.PreflightResult, o: Outcomes, info: JobInfo)
    ensures Triad(pre, o, info).ok <==> pre.ok && CheckedStepsPass(o)
  {
    StepsPassIff(o);
  }

  /** Step `i` records the stage named `StageNames[i + 1]`. */
  lemma StepNames(o: Outcomes)
    ensures forall i :: 0 <= i < |TriadSteps(o)| ==> TriadSteps(o)[i].stage.name == StageNames[i + 1]
  {
  }

  /** The recorded stage names are always a prefix of the full run's names. */
  lemma StageNamesPrefix(pre: Preflight.PreflightResult, o: Outcomes, info: JobInfo)
    requires pre.stage.name == "PREFLIGHT"
    ensures var r := Triad(pre, o, info);
            forall i :: 0 <= i < |r.stages| ==> r.stages[i].name == StageNames[i]
  {
    var r := Triad(pre, o, info);
    if pre.ok {
      var st := TriadSteps(o);
      var run := RunSteps(st);
      StepNames(o);
      forall i | 0 <= i < |r.stages|
        ensures r.stages[i].name == StageNames[i]
      {
        if i > 0 {
          assert r.stages[i] == run.stages[i - 1] == st[i - 1].stage;
        }
      }
    }
  }

  /** The reason string of each checked stage. */
  function ReasonOf(name: string): string
  {
    match name
    case "EXTRACT_REPO" => "extract_failed"
    case "ENSURE_GIT_BASELINE" => "git_init_failed"
    case "DOCKER_BUILD" => "docker_build_failed"
    case "TESTPATCH_BASE" => "base_failed_with_test_patch"
    case "TESTPATCH_NEW_EXPECT_FAIL" => "new_unexpectedly_passed_with_test_patch"
    case "BOTH_BASE" => "base_failed_with_both_patches"
    case "BOTH_NEW" => "new_failed_with_both_patches"
    case _ => ""
  }

  /** Fail fast: after preflight, a failed job ends with the stage that failed, and the
      summary is FAIL with that stage's reason; no APPLY stage ever ends a job. */
  lemma FailFast(pre: Preflight.PreflightResult, o: Outcomes, info: JobInfo)
    requires pre.ok && !Triad(pre, o, info).ok
    ensures var r := Triad(pre, o, info);
            var last := r.stages[|r.stages| - 1];
            && !last.ok
            && r.summary == TriadFail(ReasonOf(last.name))
            && last.name != "APPLY_test.patch" && last.name != "APPLY_solution.patch"
            && forall i :: 1 <= i < |r.stages| - 1 ==> r.stages[i].ok || r.stages[i].name[..6] == "APPLY_"
  {
    var st := TriadSteps(o);
    var run := RunSteps(st);
    var r := Triad(pre, o, info);
    assert run.stopped.Some?;
    var k := |run.stages| - 1;
    assert r.stages[|r.stages| - 1] == st[k].stage;
    assert k == 0 || k == 1 || k == 2 || k == 4 || k == 5 || k == 8 || k == 9 by {
      assert Stops(st[k]);
    }
    forall i | 1 <= i < |r.stages| - 1
      ensures r.stages[i].ok || r.stages[i].name[..6] == "APPLY_"
    {
      assert r.stages[i] == st[i - 1].stage;
      assert !Stops(st[i - 1]);
    }
  }

  /** Phase 1 inverts the oracle: if everything before it passed and the new tests pass
      with the test patch alone, the job fails at TESTPATCH_NEW_EXPECT_FAIL and nothing of
      phase 2 is recorded. */
  lemma NewPassingInPhaseOneFails(pre: Preflight.PreflightResult, o: Outcomes, info: JobInfo)
    requires pre.ok && o.extractError.None? && (o.hasGitDir || o.gitError.None?)
    requires o.build.ok && o.base1.ok && o.new1.exitCode == 0
    ensures var r := Triad(pre, o, info);
            && !r.ok
            && r.summary == TriadFail("new_unexpectedly_passed_with_test_patch")
            && |r.stages| == 7
            && r.stages[6].name == "TESTPATCH_NEW_EXPECT_FAIL"
            && !r.stages[6].ok && r.stages[6].exitCode == 0
  {
    var st := TriadSteps(o);
    assert !Stops(st[0]) && !Stops(st[1]) && !Stops(st[2]) && !Stops(st[3]) && !Stops(st[4]);
    assert Stops(st[5]);
    var run := RunSteps(st);
    assert |run.stages| == 6;
  }

  /** A phase-1 new run killed by its timeout reports exit code 124, which the inverted
      oracle reads as the expected failure: the job goes on to phase 2 and its verdict is
      then decided by the phase-2 runs alone. */
  lemma PhaseOneTimeoutPassesOracle(pre: Preflight.PreflightResult, o: Outcomes, info: JobInfo,
                                    cmd: seq<string>, out: seq<byte>, err: seq<byte>, elapsedMs: int,
                                    maxLogBytes: int, decode: seq<byte> -> string)
    requires pre.ok && o.extractError.None? && (o.hasGitDir || o.gitError.None?)
    requires o.build.ok && o.base1.ok
    requires o.new1 == MakeCmdResult(cmd, TimedOut(out, err), elapsedMs, maxLogBytes, decode)
    ensures var r := Triad(pre, o, info);
            && |r.stages| >= 10
            && r.stages[6].name == "TESTPATCH_NEW_EXPECT_FAIL"
            && r.stages[6].ok && r.stages[6].exitCode == TimeoutExitCode
            && (r.ok <==> o.base2.ok && o.new2.ok)
  {
    var st := TriadSteps(o);
    assert !Stops(st[0]) && !Stops(st[1]) && !Stops(st[2]) && !Stops(st[3]) && !Stops(st[4]);
    assert !Stops(st[5]) && !Stops(st[6]) && !Stops(st[7]);
    TriadOkIff(pre, o, info);
  }

  /** A build killed by its timeout fails the job at DOCKER_BUILD with exit code 124. */
  lemma BuildTimeoutFails(pre: Preflight.PreflightResult, o: Outcomes, info: JobInfo,
                          cmd: seq<string>, out: seq<byte>, err: seq<byte>, elapsedMs: int,
                          maxLogBytes: int, decode: seq<byte> -> string)
    requires pre.ok && o.extractError.None? && (o.hasGitDir || o.gitError.None?)
    requires o.build == MakeCmdResult(cmd, TimedOut(out, err), elapsedMs, maxLogBytes, decode)
    ensures var r := Triad(pre, o, info);
            && r.summary == TriadFail("docker_build_failed")
            && |r.stages| == 4
            && r.stages[3].name == "DOCKER_BUILD" && r.stages[3].exitCode == TimeoutExitCode
  {
    var st := TriadSteps(o);
    assert !Stops(st[0]) && !Stops(st[1]) && Stops(st[2]);
    var run := RunSteps(st);
    assert |run.stages| == 3;
  }

  /** Patch-apply results are recorded but decide nothing: changing them changes neither
      the verdict, nor the summary, nor how many stages are recorded. */
  lemma ApplyResultsIrrelevant(pre: Preflight.PreflightResult, o: Outcomes, info: JobInfo,
                               a1: RunResult, a2: RunResult, a3: RunResult)
    ensures var r := Triad(pre, o, info);
            var r' := Triad(pre, o.(applyTest1 := a1, applyTest2 := a2, applySolution := a3), info);
            r'.ok == r.ok && r'.summary == r.summary && |r'.stages| == |r.stages|
  {
    var o' := o.(applyTest1 := a1, applyTest2 := a2, applySolution := a3);
    SameStopsSameRun(TriadSteps(o), TriadSteps(o'));
  }

  /** Two step sequences that agree on which steps stop, and why, stop at the same place. */
  lemma {:induction false} SameStopsSameRun(s: seq<Step>, t: seq<Step>)
    requires |s| == |t|
    requires forall i :: 0 <= i < |s| ==> Stops(s[i]) == Stops(t[i]) && s[i].stopReason == t[i].stopReason
    ensures RunSteps(s).stopped == RunSteps(t).stopped
    ensures |RunSteps(s).stages| == |RunSteps(t).stages|
  {
    if s != [] && !Stops(s[0]) {
      SameStopsSameRun(s[1..], t[1..]);
    }
  }

  /** The git baseline can fail only through an exception, and not at all when the
      repository already has a `.git` directory. */
  lemma GitFailsOnlyByException(pre: Preflight.PreflightResult, o: Outcomes, info: JobInfo)
    requires Triad(pre, o, info).summary == TriadFail("git_init_failed")
    ensures !o.hasGitDir && o.gitError.Some?
    ensures var r := Triad(pre, o, info);
            |r.stages| == 3 && r.stages[2].stderrTail == o.gitError.value && r.stages[2].exitCode == 0
  {
  }

  /** A job that succeeds saw the phase-1 new run fail and every other run pass. */
  lemma SuccessfulOracle(sub: Preflight.Submission, pol: Policy, o: Outcomes, info: JobInfo)
    requires RunTriadJob(sub, pol, o, info).ok
    ensures Preflight.Acceptable(sub, pol)
    ensures o.new1.exitCode != 0 && o.base1.ok && o.base2.ok && o.new2.ok && o.build.ok
  {
    Preflight.PreflightOkIff(sub, pol);
    TriadOkIff(Preflight.RunPreflight(sub, pol), o, info);
  }

  /** A job rejected by preflight records exactly the preflight stage, which is not ok. */
  lemma PreflightRejected(sub: Preflight.Submission, pol: Policy, o: Outcomes, info: JobInfo)
    requires !Preflight.Acceptable(sub, pol)
    ensures var r := RunTriadJob(sub, pol, o, info);
            && !r.ok
            && r.summary == TriadSkipped("preflight_failed")
            && |r.stages| == 1 && r.stages[0].name == "PREFLIGHT" && !r.stages[0].ok
            && r.stages[0].exitCode == 1
  {
    Preflight.PreflightOkIff(sub, pol);
  }

  // ---------------------------------------------------------------------------
  // Repository root
  // ---------------------------------------------------------------------------

  /** An entry of the extraction directory. */
  datatype Entry = Entry(name: string, isDir: bool)

  /** The repository root: the single top-level entry when the archive extracted to
      exactly one directory, otherwise the extraction directory itself. */
  function RepoRoot(repoDir: string, entries: seq<Entry>): (root: string)
    ensures root == repoDir <==> !(|entries| == 1 && entries[0].isDir)
    ensures root != repoDir ==> root == repoDir + "/" + entries[0].name
  {
    if |entries| == 1 && entries[0].isDir then repoDir + "/" + entries[0].name else repoDir
  }
}
