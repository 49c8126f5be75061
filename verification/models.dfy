/** The records the validator reports: violations, stage results and the job report. */
module Models {

  /** The stable violation codes the static checks emit. */
  datatype Code =
    | TestPatchSize | SolutionPatchSize
    | TestPatchBoundary | TestPatchTestCount | SolutionPatchBoundary
    | DescAscii | DescLf
    | TestShBackticks | TestShModes | TestShIgnore
  {
    /** The code as it appears in reports. */
    function Text(): string
    {
      match this
      case TestPatchSize => "TEST_PATCH_SIZE"
      case SolutionPatchSize => "SOLUTION_PATCH_SIZE"
      case TestPatchBoundary => "TEST_PATCH_BOUNDARY"
      case TestPatchTestCount => "TEST_PATCH_TESTCOUNT"
      case SolutionPatchBoundary => "SOLUTION_PATCH_BOUNDARY"
      case DescAscii => "DESC_ASCII"
      case DescLf => "DESC_LF"
      case TestShBackticks => "TEST_SH_BACKTICKS"
      case TestShModes => "TEST_SH_MODES"
      case TestShIgnore => "TEST_SH_IGNORE"
    }
  }

  /** A static-check finding: a stable code, a message, the offending evidence and a hint. */
  datatype Violation = Violation(code: Code, message: string, evidence: string, suggestedFix: string)

  /** One recorded pipeline step; `cmd` is the argument vector, if any. */
  datatype StageResult = StageResult(
    name: string,
    ok: bool,
    exitCode: int,
    elapsedMs: int,
    cmd: seq<string>,
    stdoutTail: string,
    stderrTail: string)

  /** The `summary` mapping of a report: `{"triad": "OK"}`, or a FAIL/SKIPPED status with a reason. */
  datatype Summary = TriadOk | TriadFail(reason: string) | TriadSkipped(reason: string)
  {
    /** The summary as the dictionary the report serialises. */
    function Fields(): map<string, string>
    {
      match this
      case TriadOk => map["triad" := "OK"]
      case TriadFail(reason) => map["triad" := "FAIL", "reason" := reason]
      case TriadSkipped(reason) => map["triad" := "SKIPPED", "reason" := reason]
    }
  }

  /** The terminal record of one triad job. */
  datatype Report = Report(
    ok: bool,
    jobId: string,
    submissionDir: string,
    runsDir: string,
    stages: seq<StageResult>,
    violations: seq<Violation>,
    summary: Summary)
}
