/** The per-job configuration snapshot: thresholds and enforcement switches. */
module Policies {

  datatype Policy = Policy(
    dockerBuildTimeoutS: int,
    baseTimeoutS: int,
    newTimeoutS: int,
    postchecksTimeoutS: int,
    maxLogBytes: int,
    dockerNetwork: string,
    dockerCpus: real,
    dockerMemory: string,
    testPatchMinBytes: int,
    solutionPatchMinBytes: int,
    descriptionAsciiOnly: bool,
    descriptionLfOnly: bool,
    enforceTestPatchBoundaries: bool,
    enforceSolutionPatchBoundaries: bool,
    enforceBaseIgnoresNew: bool,
    enforceNewRunsOnlyNew: bool,
    forbidBackticks: bool)

  /** The policy used when no override file is present. */
  const DefaultPolicy: Policy := Policy(
    dockerBuildTimeoutS := 900,
    baseTimeoutS := 900,
    newTimeoutS := 900,
    postchecksTimeoutS := 300,
    maxLogBytes := 2_000_000,
    dockerNetwork := "none",
    dockerCpus := 2.0,
    dockerMemory := "4g",
    testPatchMinBytes := 14_336,
    solutionPatchMinBytes := 2_765,
    descriptionAsciiOnly := true,
    descriptionLfOnly := true,
    enforceTestPatchBoundaries := true,
    enforceSolutionPatchBoundaries := true,
    enforceBaseIgnoresNew := true,
    enforceNewRunsOnlyNew := true,
    forbidBackticks := true)
}
