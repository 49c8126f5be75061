# validator-local, modelled in Dafny

validator-local checks a task submission before and during a "triad" run. A submission is a directory holding:

- a repository archive;
- `Dockerfile.problem`;
- a `test.patch` that adds one problem test;
- a `solution.patch` that fixes the code;
- optionally `description.txt`, `validator.toml` and a `test.sh` harness.

The validator first runs static **preflight** checks:

- minimum patch sizes;
- which paths each patch may touch;
- ASCII / LF-only description;
- tokens that must appear in `test.sh`.

It then runs the **triad**:

1. Extract the repository.
2. Make sure it has a git baseline.
3. Build the image.
4. Phase 1: apply the test patch and require the base tests to pass and the new test to **fail**.
5. Phase 2: apply both patches and require both base and new tests to pass.

Each step becomes a stage record in a `Report`. The report has a `{triad: OK | FAIL | SKIPPED, reason}` summary.

This project models that core as pure functions over immutable datatypes:

| module (file) | models |
|---|---|
| `Text` (`text.dfy`) | the Python string and byte primitives the checks rely on: `str.splitlines`, `str.strip`, the `in` substring test, `"\n".join`, `str(int)` |
| `Models` (`models.dfy`) | `Violation`, `StageResult`, `Report`; violation codes as a `Code` datatype with their report text |
| `Policies` (`policy.dfy`) | the `Policy` record and its default values |
| `Boundaries` (`boundaries.dfy`) | diff-header scanning and the test-patch / fix-patch path rules |
| `TestSh` (`test_sh.dfy`) | the `test.sh` token rules |
| `Encoding` (`encoding.dfy`) | the first-non-ASCII-byte and CR checks |
| `Sizes` (`sizes.dfy`) | the minimum-size gate |
| `Preflight` (`preflight.dfy`) | aggregation of all checks into one PREFLIGHT stage, with the 50-line diagnostic cap |
| `Process` (`process.dfy`) | `CmdResult`, tail truncation of logs, and the timeout sentinel 124 |
| `Artifacts` (`artifacts.dfy`) | locating the archive and the required files in the submission directory |
| `Runner` (`runner.dfy`) | the fail-fast triad state machine and repository-root normalisation |

External effects are inputs rather than actions:

- File contents are given as strings or byte sequences.
- The directory listing is given as sets of names.
- Command outcomes are given as a `ProcessOutcome` (exited with a code, or timed out), or as the `CmdResult` that `run_cmd` makes of one; the pipeline only accepts results whose `ok` is "exit code 0", as `run_cmd` always sets it.
- Whether extraction or the git baseline raised, and with which message, is given as an `Option<string>`.

## Model

| member | source | states |
|---|---|---|
| Text.SplitLines | validator-local/validator/checks/boundaries.py:11 | no produced line contains a line boundary (`\n`, `\r`, `\v`, `\f`, `\x1c`-`\x1e`, `\x85`, `\u2028`, `\u2029`) |
| Text.BreakIndex | validator-local/validator/checks/boundaries.py:11 | the position found is the first line boundary of the text, or its end |
| Text.SplitLinesAfterBreak | validator-local/validator/checks/boundaries.py:11 | a line ended by one boundary character is split off in front of the lines of the rest |
| Text.SplitLinesAfterCrLf | validator-local/validator/checks/boundaries.py:11 | `\r\n` counts as a single boundary |
| Text.SplitLinesSingle | validator-local/validator/checks/boundaries.py:11 | a non-empty text without boundaries is exactly one line (no trailing empty line) |
| Text.SplitLinesJoinLines | validator/checks/preflight.py:52 | splitting `"\n".join(xs)` gives back `xs` when every line is non-empty and boundary-free |
| Text.TrimStartSpec | validator-local/validator/checks/boundaries.py:12 | stripping the front removes exactly the leading whitespace run |
| Text.TrimEndSpec | validator-local/validator/checks/boundaries.py:12 | stripping the end removes exactly the trailing whitespace run |
| Text.StripSpec | validator-local/validator/checks/boundaries.py:12 | `strip()` returns a contiguous slice framed only by whitespace, and it neither starts nor ends with whitespace |
| Text.StripNoLineBreak | validator-local/validator/checks/boundaries.py:11-12 | a stripped line still has no line boundary |
| Text.ContainsIff | validator-local/validator/checks/test_sh.py:10-32 | the `in` substring test holds exactly when the pattern occurs at some index |
| Text.Filter | validator-local/validator/checks/boundaries.py:23 | the list comprehension keeps exactly the elements satisfying the condition, and no more of them than the input has |
| Text.FilterCounts | validator-local/validator/checks/boundaries.py:23 | every occurrence of a kept element survives, duplicates included, and no occurrence of a dropped one does, so `len(new_tests)` counts repeated paths |
| Text.FilterAppend | validator-local/validator/checks/boundaries.py:23 | the comprehension keeps input order: filtering a concatenation concatenates the filtered parts |
| Text.NatToDecimal | validator/checks/sizes.py:12 | `str(n)` is a non-empty digit string with no leading zero |
| Text.DecimalRoundTrip | validator/checks/sizes.py:12 | reading back the digits of `str(n)` gives `n` |
| Text.IntToDecimalInjective | validator/checks/sizes.py:12 | different integers render differently, negative ones included |
| Boundaries.MatchHeader | validator-local/validator/checks/boundaries.py:7-15 | no contract of its own; the anchored lazy regex match is specified by Boundaries.MatchHeaderSpec |
| Boundaries.SplitHeaderFromSpec | validator-local/validator/checks/boundaries.py:7 | the lazy group search from a position finds the first ` b/` that leaves a non-empty remainder, or reports that none exists |
| Boundaries.MatchHeaderSpec | validator-local/validator/checks/boundaries.py:7-15 | a line matches the diff-header pattern iff it starts with `diff --git a/` and some ` b/` after a non-empty old path leaves a non-empty new path; group 2 is what follows the first such ` b/` |
| Boundaries.LazyGroupExample | validator-local/validator/checks/boundaries.py:7 | `diff --git a/x b/y b/z` yields the new path `y b/z`, since the old path is lazy |
| Boundaries.EmptyNewPathExample | validator-local/validator/checks/boundaries.py:7 | `diff --git a/x b/` does not match, since the new path must be non-empty |
| Boundaries.TouchedFiles | validator-local/validator/checks/boundaries.py:9-16 | no contract of its own; `_touched_files` is specified by Boundaries.TouchedInLinesSpec, TouchedInLinesAppend and TouchedNoLineBreak |
| Boundaries.TouchedInLinesSpec | validator-local/validator/checks/boundaries.py:9-16 | the touched paths are the new-side paths of the header lines, one for each, in input order |
| Boundaries.TouchedInLinesAppend | validator-local/validator/checks/boundaries.py:9-16 | scanning concatenated line lists concatenates the results, so non-header lines contribute nothing |
| Boundaries.NewPathNoLineBreak | validator-local/validator/checks/boundaries.py:11-15 | the new-side path taken from a line produced by `splitlines` holds no line boundary |
| Boundaries.TouchedNoLineBreak | validator-local/validator/checks/boundaries.py:9-16 | no touched path contains a line boundary, so boundary evidence never spans lines |
| Boundaries.TestBoundaryViolations | validator-local/validator/checks/boundaries.py:26-36 | one TEST_PATCH_BOUNDARY violation per touched path that is neither `test.sh` nor a `tests/test_*_problem.py`, evidence = the path, in touched order, duplicates kept |
| Boundaries.CheckTestPatchBoundaries | validator-local/validator/checks/boundaries.py:18-45 | the boundary violations come first, then one TEST_PATCH_TESTCOUNT with `found=N` exactly when N ≠ 1; the length is #forbidden + (N ≠ 1 ? 1 : 0) |
| Boundaries.TestPatchWithoutHeaders | validator-local/validator/checks/boundaries.py:38-44 | a test patch with no diff header yields exactly one violation, TESTCOUNT with evidence `found=0` |
| Boundaries.TestPatchCodes | validator-local/validator/checks/boundaries.py:31-44 | the test-patch check reports only TEST_PATCH_BOUNDARY and TEST_PATCH_TESTCOUNT |
| Boundaries.TestPatchAcceptedIff | validator-local/validator/checks/boundaries.py:22-45 | the test patch is accepted iff every touched path is allowed and exactly one problem test is touched |
| Boundaries.SolutionBoundaryViolations | validator-local/validator/checks/boundaries.py:52-59 | one SOLUTION_PATCH_BOUNDARY per touched path under `tests/`, equal to `test.sh`, or ending in `Dockerfile.problem`, evidence = the path, in order |
| Boundaries.CheckSolutionPatchBoundaries | validator-local/validator/checks/boundaries.py:47-60 | the fix-patch result is exactly the forbidden touched paths, turned into violations in order |
| Boundaries.SolutionPatchNoCountRule | validator-local/validator/checks/boundaries.py:47-60 | the fix-patch check never emits a count violation, and a patch without headers yields nothing |
| Boundaries.SolutionPatchAcceptedIff | validator-local/validator/checks/boundaries.py:51-60 | the fix patch is accepted iff no touched path is forbidden |
| TestSh.CheckTestSh | validator-local/validator/checks/test_sh.py:6-33 | BACKTICKS iff backticks are forbidden and one is present; MODES iff `base` or `new` is not a substring; IGNORE iff `--ignore` is not a substring; at most these three, in that order |
| TestSh.ContainsOneChar | validator-local/validator/checks/test_sh.py:10 | the one-character substring test is plain membership |
| TestSh.SubstringModeTokens | validator-local/validator/checks/test_sh.py:19 | the mode check is a substring test: a script mentioning only `baseline` and `renew` passes it |
| Encoding.FirstNonAscii | validator/checks/encoding.py:11-13 | the offset the ASCII decoder reports is the first byte ≥ 128; none exists iff every byte is < 128 |
| Encoding.CrTestIsMembership | validator/checks/encoding.py:22 | the test for `\r\n` or `\r` holds exactly when byte 13 occurs, whatever follows it |
| Encoding.CheckAsciiLf | validator/checks/encoding.py:6-30 | DESC_ASCII at the first non-ASCII offset when ASCII is required and violated, none otherwise; DESC_LF iff LF-only is required and a CR occurs; at most two, ASCII first |
| Encoding.NothingRequiredNothingReported | validator/checks/encoding.py:6-30 | with both flags off the result is empty |
| Sizes.CheckMinSize | validator/checks/sizes.py:6-15 | no violation iff size ≥ minimum (equal passes); otherwise exactly one, carrying the caller's code, `<name> is too small` and the size/minimum evidence |
| Sizes.SplitAtFirstSpace | validator/checks/sizes.py:12 | two space-joined texts whose heads have no space split the same way |
| Sizes.SizeEvidenceInjective | validator/checks/sizes.py:12 | the evidence text determines both the actual size and the minimum |
| Preflight.RunPreflight | validator/checks/preflight.py:20-54 | ok iff no violation; the stage is PREFLIGHT, exit code 0/1, elapsed 0, no command, empty stdout, and the diagnostic as stderr |
| Preflight.Diagnostic | validator/checks/preflight.py:52 | no contract of its own; the capped diagnostic is specified by Preflight.DiagnosticIgnoresBeyondCap and Preflight.DiagnosticLines |
| Preflight.DiagnosticIgnoresBeyondCap | validator/checks/preflight.py:52 | violations after the 50th never change the diagnostic |
| Preflight.DiagnosticLines | validator/checks/preflight.py:52 | the diagnostic splits back into the renderings `code: message (evidence)` of the first min(50, n) violations |
| Preflight.PreflightOrdered | validator/checks/preflight.py:24-42 | violations appear grouped by check: test size, solution size, test boundaries, solution boundaries, description, test.sh |
| Preflight.FamilyFromSection | validator/checks/preflight.py:24-42 | each reported violation comes from the check its code belongs to |
| Preflight.SizeGates | validator/checks/preflight.py:25-26 | the size gates always run: a size violation is reported iff that patch is below its minimum |
| Preflight.FlagGates | validator/checks/preflight.py:29-42 | a boundary check contributes nothing when its flag is off; the encoding and test.sh checks contribute nothing when their file is absent |
| Preflight.PreflightOkIff | validator/checks/preflight.py:20-44 | preflight passes iff every enabled rule of every check holds of the submission |
| Process.PySuffix | validator/core/subprocess.py:20 | Python's `data[start:]`: a suffix whose length follows the clamping of positive and negative starts |
| Process.TailBytes | validator/core/subprocess.py:17-20 | no contract of its own; `_tail_bytes` before decoding is specified by Process.TailBytesSpec, TailBytesIdempotent and TailBytesForgetsHead |
| Process.TailBytesSpec | validator/core/subprocess.py:17-20 | the tail is a suffix: all data when it fits, else exactly the last `max_bytes` bytes; all data for a limit of 0; the head dropped for a negative limit |
| Process.TailBytesIdempotent | validator/core/subprocess.py:17-20 | cutting twice to the same positive limit equals cutting once |
| Process.TailBytesForgetsHead | validator/core/subprocess.py:20 | with at least `max_bytes` later bytes, earlier output does not reach the tail |
| Process.MakeCmdResult | validator/core/subprocess.py:31-47 | ok iff exit code 0; a timeout reports 124 and is never ok; stdout and stderr are cut independently to the same budget |
| Artifacts.FindRepoZip | validator-local/validator/core/artifacts.py:17-27 | `repo.zip` wins over any other zip; otherwise the single zip file is chosen; zero zips and several zips give their two distinct errors |
| Artifacts.FirstMissing | validator-local/validator/core/artifacts.py:38-40 | the index found is the first absent name in order, with all earlier names present; none iff all are present |
| Artifacts.LoadArtifacts | validator-local/validator/core/artifacts.py:29-53 | an archive error comes first and masks missing files; then the first missing required file is named; on success the paths are the directory's, and description / policy are present iff their files exist |
| Artifacts.LoadArtifactsSucceedsIff | validator-local/validator/core/artifacts.py:17-53 | loading succeeds iff the archive resolves and Dockerfile.problem, test.patch and solution.patch all exist |
| Artifacts.MissingFileIsFirstAbsent | validator-local/validator/core/artifacts.py:32-40 | a missing-file error names an absent required file, and every required file before it in check order exists |
| Artifacts.ArchiveErrorFirst | validator-local/validator/core/artifacts.py:30-40 | an empty directory reports the missing archive, not the missing required files |
| Runner.Marker | validator-local/validator/core/runner.py:66-94 | EXTRACT_REPO / ENSURE_GIT_BASELINE fail iff something raised, and keep exit code 0 either way |
| Runner.EnsureGit | validator-local/validator/core/runner.py:19-25 | the git baseline can raise only when there is no `.git` directory |
| Runner.ApplyStage | validator-local/validator/core/runner.py:31-41 | an apply stage is named `APPLY_<patch file>` and carries `git apply`'s verdict |
| Runner.ExpectFail | validator-local/validator/core/runner.py:124-127 | TESTPATCH_NEW_EXPECT_FAIL is ok iff the new run's exit code is non-zero |
| Runner.RunSteps | validator-local/validator/core/runner.py:66-151 | the recorded stages are a prefix of the steps; the run stops exactly at the first checked step that fails, with that step's reason, and runs to the end iff none fails |
| Runner.TriadSteps | validator-local/validator/core/runner.py:66-147 | no contract of its own; the ten steps after preflight are specified by Runner.TriadOkIff, StageNamesPrefix and FailFast |
| Runner.Triad | validator-local/validator/core/runner.py:43-151 | the report keeps the preflight violations and starts with the preflight stage; a failed preflight gives SKIPPED/preflight_failed with that stage alone; ok iff summary OK, then with 11 stages |
| Runner.RunTriadJob | validator-local/validator/core/runner.py:58-59 | the report's violations are exactly the preflight violations |
| Runner.TriadOkIff | validator-local/validator/core/runner.py:66-151 | the job succeeds iff preflight passes, nothing raised, the build passes, both base runs pass, the phase-1 new run fails and the phase-2 new run passes |
| Runner.StageNamesPrefix | validator-local/validator/core/runner.py:58-147 | the stage names are always a prefix of PREFLIGHT, EXTRACT_REPO, ENSURE_GIT_BASELINE, DOCKER_BUILD, APPLY_test.patch, TESTPATCH_BASE, TESTPATCH_NEW_EXPECT_FAIL, APPLY_test.patch, APPLY_solution.patch, BOTH_BASE, BOTH_NEW |
| Runner.FailFast | validator-local/validator/core/runner.py:66-151 | a job failing after preflight ends with the failed stage and reports FAIL with that stage's reason; every earlier stage passed or is an APPLY stage |
| Runner.NewPassingInPhaseOneFails | validator-local/validator/core/runner.py:124-130 | a new run exiting 0 in phase 1 fails the job with `new_unexpectedly_passed_with_test_patch` after 7 stages, so no phase-2 stage is recorded |
| Runner.PhaseOneTimeoutPassesOracle | validator-local/validator/core/runner.py:124-130 | a phase-1 new run killed by its timeout reports exit code 124, which the `exit_code != 0` oracle accepts, so the job goes on to phase 2 and then succeeds iff both phase-2 runs pass |
| Runner.BuildTimeoutFails | validator-local/validator/core/runner.py:98-110 | a build killed by its timeout fails the job at DOCKER_BUILD with `docker_build_failed`, exit code 124 and four stages |
| Runner.ApplyResultsIrrelevant | validator-local/validator/core/runner.py:114-135 | changing the apply results changes neither the verdict, nor the summary, nor the number of stages |
| Runner.GitFailsOnlyByException | validator-local/validator/core/runner.py:19-94 | `git_init_failed` requires a missing `.git` and a raised exception, whose message becomes the stage's stderr with exit code 0 |
| Runner.SuccessfulOracle | validator-local/validator/core/runner.py:58-151 | a successful job had an acceptable submission, a phase-1 new run with non-zero exit, and passing build, base and phase-2 new runs |
| Runner.PreflightRejected | validator-local/validator/core/runner.py:58-64 | an unacceptable submission yields SKIPPED with only the failed PREFLIGHT stage (exit code 1) |
| Runner.RepoRoot | validator-local/validator/core/runner.py:78-82 | the root is the single top-level entry when it is a directory, otherwise the extraction directory |

## Left out

- Reading files: patch text, the description's bytes and `test.sh` are given as already-read values. UTF-8 decoding with replacement (`read_text(errors="replace")`, the log decoding in `_tail_bytes`) is not modelled; `MakeCmdResult` takes the decoder as a parameter.
- Process spawning, waiting, killing on timeout and the clock (`run_cmd`): the outcome and the elapsed milliseconds are inputs.
- Zip extraction and the git commands: these are foreign tools. Extraction and the git baseline are given as "raised with message" inputs; `git apply` is given as its command result. `git reset`/`git clean` have no input at all: their results are neither recorded nor consulted in the code.
- Docker command construction, the image tag, and the `DockerConfig` with its float `cpus`: a thin wrapper over an external engine. The build and run results are inputs.
- Sandbox creation (job id, runs directory, uuid, time): the job identity is an input `JobInfo`.
- TOML policy parsing (`load_policy`): the model uses a `Policy` record whose defaults are the code's. Exceptions from `load_policy`, `create_sandbox`, the docker helpers, `_reset_clean` (runner.py:115, 133) and `_apply_patch` (runner.py:116, 134-135) propagate out of `run_triad_job` in the code, which then returns no report; the model has no such path. `_reset_clean` and `_apply_patch` raise when `Popen` fails to start `git`, for instance when git is missing and the archive already holds a `.git` directory. File reads in `run_preflight` raise too, for instance when an entry that `exists()` is a directory, which `LoadArtifacts` accepts through `Listing.others`. This covers `read_text` of the two patches (boundaries.py:19, 48, reached from preflight.py:30, 32), `read_bytes` of the description (encoding.py:8, from preflight.py:36) and `read_text` of `test.sh` (preflight.py:41-42, test_sh.py:8). Such an exception leaves `run_triad_job` without a report, and the model takes every file as readable.
- `enforce_base_ignores_new` and `enforce_new_runs_only_new`: carried in `Policy` but read nowhere in the modelled code.
- JSON serialisation, `to_dict` and bundle writing, and the HTTP and CLI front ends: I/O and formatting.
- Violation codes are a `Code` datatype, not free strings. `Code.Text` gives the exact report strings, so a caller cannot pass an arbitrary code to `check_min_size`.
- Python's `sorted` in `_find_repo_zip` is not modelled: it can only matter when several zips exist, and then the code raises.
- Runner.RepoRoot: its contract names the chosen root but not what `iterdir` returns; the entries are an input list. `hasGitDir` and the command results are not derived from the root. In the code, `.git` is looked for at the root (validator-local/validator/core/runner.py:20, 87), and the root is what is built, reset, patched and mounted (runner.py:98, 115-143).
- Preflight.DiagnosticLines: it assumes every violation renders on one line. Boundaries.TouchedNoLineBreak proves this for the touched paths that become evidence, and decimal numbers are digit strings. It is not proved for the fixed message texts, because character-by-character facts about long string literals are too costly for the verifier.
