/**
  The preflight aggregator: runs every static check on a submission and folds the
  violations into one pass/fail stage record.
 */
module Preflight {
  import opened Wrappers
  import opened Text
  import opened Models
  import opened Policies
  import Boundaries
  import Encoding
  import TestSh
  import Sizes

  /** A patch file as the checks see it: its size in bytes and its text. */
  datatype PatchFile = PatchFile(size: nat, text: string)

  /** What the static checks read from a submission directory. `description` holds the
      bytes of description.txt when that file exists; `testScript` the text of a test.sh
      lying directly in the submission directory, when one exists. */
  datatype Submission = Submission(
    testPatch: PatchFile,
    solutionPatch: PatchFile,
    description: Option<seq<byte>>,
    testScript: Option<string>)

  datatype PreflightResult = PreflightResult(ok: bool, violations: seq<Violation>, stage: StageResult)

  /** At most this many violations are rendered into the stage's diagnostic text. */
  const DiagnosticCap: nat := 50

  /** One diagnostic line: `code: message (evidence)`. */
  function Render(v: Violation): string
  {
    v.code.Text() + ": " + v.message + " (" + v.evidence + ")"
  }

  function RenderAll(vs: seq<Violation>): (lines: seq<string>)
  {
    seq(|vs|, i requires 0 <= i < |vs| => Render(vs[i]))
  }

  function Min(a: nat, b: nat): nat
  {
    if a <= b then a else b
  }

  /** The stage's `stderr_tail`: the first 50 rendered violations, one per line. */
  function Diagnostic(vs: seq<Violation>): string
  {
    JoinLines(RenderAll(vs)[..Min(DiagnosticCap, |vs|)])
  }

  // The six sections of the violation list, in the order `run_preflight` builds it.

  function TestSizeSection(sub: Submission, pol: Policy): seq<Violation>
  {
    Sizes.CheckMinSize("test.patch", sub.testPatch.size, pol.testPatchMinBytes, TestPatchSize)
  }

  function SolutionSizeSection(sub: Submission, pol: Policy): seq<Violation>
  {
    Sizes.CheckMinSize("solution.patch", sub.solutionPatch.size, pol.solutionPatchMinBytes, SolutionPatchSize)
  }

  function TestBoundarySection(sub: Submission, pol: Policy): seq<Violation>
  {
    if pol.enforceTestPatchBoundaries then Boundaries.CheckTestPatchBoundaries(sub.testPatch.text) else []
  }

  function SolutionBoundarySection(sub: Submission, pol: Policy): seq<Violation>
  {
    if pol.enforceSolutionPatchBoundaries then Boundaries.CheckSolutionPatchBoundaries(sub.solutionPatch.text) else []
  }

  function DescriptionSection(sub: Submission, pol: Policy): seq<Violation>
  {
    match sub.description
    case Some(data) => Encoding.CheckAsciiLf("description.txt", data, pol.descriptionAsciiOnly, pol.descriptionLfOnly)
    case None => []
  }

  function ScriptSection(sub: Submission, pol: Policy): seq<Violation>
  {
    match sub.testScript
    case Some(script) => TestSh.CheckTestSh(script, pol.forbidBackticks)
    case None => []
  }

  /** `run_preflight`: size gates always, then each boundary check if its policy flag is
      set, the encoding check if a description exists, the script check if test.sh exists;
      `ok` means no violation at all, and the stage record summarises the outcome. */
  function RunPreflight(sub: Submission, pol: Policy): (r: PreflightResult)
    ensures r.ok <==> r.violations == []
    ensures r.stage.name == "PREFLIGHT" && r.stage.ok == r.ok
    ensures r.stage.exitCode == (if r.ok then 0 else 1)
    ensures r.stage.elapsedMs == 0 && r.stage.cmd == [] && r.stage.stdoutTail == ""
    ensures r.stage.stderrTail == Diagnostic(r.violations)
  {
    var violations :=
      TestSizeSection(sub, pol) + SolutionSizeSection(sub, pol)
      + TestBoundarySection(sub, pol) + SolutionBoundarySection(sub, pol)
      + DescriptionSection(sub, pol) + ScriptSection(sub, pol);
    var ok := |violations| == 0;
    PreflightResult(ok, violations,
      StageResult("PREFLIGHT", ok, if ok then 0 else 1, 0, [], "", Diagnostic(violations)))
  }

  // ---------------------------------------------------------------------------
  // The diagnostic text
  // ---------------------------------------------------------------------------

  /** Violations past the fiftieth never reach the diagnostic text. */
  lemma DiagnosticIgnoresBeyondCap(vs: seq<Violation>, more: seq<Violation>)
    requires |vs| >= DiagnosticCap
    ensures Diagnostic(vs + more) == Diagnostic(vs)
  {
    assert RenderAll(vs + more)[..DiagnosticCap] == RenderAll(vs)[..DiagnosticCap];
  }

  /** A violation whose rendering fits on one line. */
  predicate OneLine(v: Violation)
  {
    NoLineBreak(Render(v))
  }

  /** Splitting the diagnostic text into lines gives back exactly the first
      min(50, n) rendered violations, in order. */
  lemma DiagnosticLines(vs: seq<Violation>)
    requires forall v :: v in vs ==> OneLine(v)
    ensures SplitLines(Diagnostic(vs)) == RenderAll(vs)[..Min(DiagnosticCap, |vs|)]
  {
    var lines := RenderAll(vs)[..Min(DiagnosticCap, |vs|)];
    forall k | 0 <= k < |lines|
      ensures lines[k] != [] && NoLineBreak(lines[k])
    {
      assert vs[k] in vs;
      assert lines[k] == Render(vs[k]);
    }
    SplitLinesJoinLines(lines);
  }

  // ---------------------------------------------------------------------------
  // Order and gating of the violations
  // ---------------------------------------------------------------------------

  /** The check a violation code comes from, numbered in the order the checks run. */
  function Family(code: Code): nat
  {
    match code
    case TestPatchSize => 0
    case SolutionPatchSize => 1
    case TestPatchBoundary | TestPatchTestCount => 2
    case SolutionPatchBoundary => 3
    case DescAscii | DescLf => 4
    case TestShBackticks | TestShModes | TestShIgnore => 5
  }

  ghost predicate AllOfFamily(vs: seq<Violation>, f: nat)
  {
    forall v :: v in vs ==> Family(v.code) == f
  }

  ghost predicate SortedByFamily(vs: seq<Violation>)
  {
    forall i, j :: 0 <= i < j < |vs| ==> Family(vs[i].code) <= Family(vs[j].code)
  }

  /** Appending a block of one family, no smaller than everything before it, keeps the order. */
  lemma AppendFamilyBlock(vs: seq<Violation>, block: seq<Violation>, f: nat)
    requires SortedByFamily(vs) && AllOfFamily(block, f)
    requires forall v :: v in vs ==> Family(v.code) <= f
    ensures SortedByFamily(vs + block)
    ensures forall v :: v in vs + block ==> Family(v.code) <= f
  {
    var w := vs + block;
    forall i, j | 0 <= i < j < |w|
      ensures Family(w[i].code) <= Family(w[j].code)
    {
      if j < |vs| {
        assert w[i] == vs[i] && w[j] == vs[j];
      } else if i < |vs| {
        assert w[i] in vs && w[j] in block;
      } else {
        assert w[i] in block && w[j] in block;
      }
    }
  }

  lemma TestSizeFamily(sub: Submission, pol: Policy)
    ensures AllOfFamily(TestSizeSection(sub, pol), 0)
  {
  }

  lemma SolutionSizeFamily(sub: Submission, pol: Policy)
    ensures AllOfFamily(SolutionSizeSection(sub, pol), 1)
  {
  }

  lemma TestBoundaryFamily(sub: Submission, pol: Policy)
    ensures AllOfFamily(TestBoundarySection(sub, pol), 2)
  {
    Boundaries.TestPatchCodes(sub.testPatch.text);
  }

  lemma SolutionBoundaryFamily(sub: Submission, pol: Policy)
    ensures AllOfFamily(SolutionBoundarySection(sub, pol), 3)
  {
    Boundaries.SolutionPatchNoCountRule(sub.solutionPatch.text);
  }

  lemma DescriptionFamily(sub: Submission, pol: Policy)
    ensures AllOfFamily(DescriptionSection(sub, pol), 4)
  {
  }

  lemma ScriptFamily(sub: Submission, pol: Policy)
    ensures AllOfFamily(ScriptSection(sub, pol), 5)
  {
  }

  /** Six blocks, block `k` of family `k`, concatenate to a list sorted by family in
      which family `k` occurs exactly when block `k` is non-empty. */
  lemma ConcatFamilyBlocks(s0: seq<Violation>, s1: seq<Violation>, s2: seq<Violation>,
                           s3: seq<Violation>, s4: seq<Violation>, s5: seq<Violation>)
    requires AllOfFamily(s0, 0) && AllOfFamily(s1, 1) && AllOfFamily(s2, 2)
    requires AllOfFamily(s3, 3) && AllOfFamily(s4, 4) && AllOfFamily(s5, 5)
    ensures SortedByFamily(s0 + s1 + s2 + s3 + s4 + s5)
  {
    AppendFamilyBlock([], s0, 0);
    assert [] + s0 == s0;
    AppendFamilyBlock(s0, s1, 1);
    AppendFamilyBlock(s0 + s1, s2, 2);
    AppendFamilyBlock(s0 + s1 + s2, s3, 3);
    AppendFamilyBlock(s0 + s1 + s2 + s3, s4, 4);
    AppendFamilyBlock(s0 + s1 + s2 + s3 + s4, s5, 5);
  }

  /** The result is the six sections in order. */
  lemma ViolationsAreSections(sub: Submission, pol: Policy)
    ensures RunPreflight(sub, pol).violations ==
              TestSizeSection(sub, pol) + SolutionSizeSection(sub, pol)
              + TestBoundarySection(sub, pol) + SolutionBoundarySection(sub, pol)
              + DescriptionSection(sub, pol) + ScriptSection(sub, pol)
  {
  }

  /** Violations appear in check order: test size, solution size, test boundaries,
      solution boundaries, description encoding, test.sh. */
  lemma PreflightOrdered(sub: Submission, pol: Policy)
    ensures SortedByFamily(RunPreflight(sub, pol).violations)
  {
    TestSizeFamily(sub, pol);
    SolutionSizeFamily(sub, pol);
    TestBoundaryFamily(sub, pol);
    SolutionBoundaryFamily(sub, pol);
    DescriptionFamily(sub, pol);
    ScriptFamily(sub, pol);
    ViolationsAreSections(sub, pol);
    ConcatFamilyBlocks(TestSizeSection(sub, pol), SolutionSizeSection(sub, pol),
                       TestBoundarySection(sub, pol), SolutionBoundarySection(sub, pol),
                       DescriptionSection(sub, pol), ScriptSection(sub, pol));
  }

  /** A violation is reported exactly when one of the six sections reports it. */
  lemma MemberOfSections(sub: Submission, pol: Policy, v: Violation)
    ensures v in RunPreflight(sub, pol).violations <==>
              || v in TestSizeSection(sub, pol) || v in SolutionSizeSection(sub, pol)
              || v in TestBoundarySection(sub, pol) || v in SolutionBoundarySection(sub, pol)
              || v in DescriptionSection(sub, pol) || v in ScriptSection(sub, pol)
  {
    ViolationsAreSections(sub, pol);
  }

  /** Family `k` shows up in the result exactly when section `k` is non-empty. */
  lemma FamilyFromSection(sub: Submission, pol: Policy, v: Violation)
    requires v in RunPreflight(sub, pol).violations
    ensures Family(v.code) == 0 ==> v in TestSizeSection(sub, pol)
    ensures Family(v.code) == 1 ==> v in SolutionSizeSection(sub, pol)
    ensures Family(v.code) == 2 ==> v in TestBoundarySection(sub, pol)
    ensures Family(v.code) == 3 ==> v in SolutionBoundarySection(sub, pol)
    ensures Family(v.code) == 4 ==> v in DescriptionSection(sub, pol)
    ensures Family(v.code) == 5 ==> v in ScriptSection(sub, pol)
  {
    MemberOfSections(sub, pol, v);
    TestSizeFamily(sub, pol);
    SolutionSizeFamily(sub, pol);
    TestBoundaryFamily(sub, pol);
    SolutionBoundaryFamily(sub, pol);
    DescriptionFamily(sub, pol);
    ScriptFamily(sub, pol);
  }

  /** The size gates always run: a size violation is reported exactly when the patch is
      below its policy minimum. */
  lemma SizeGates(sub: Submission, pol: Policy)
    ensures var vs := RunPreflight(sub, pol).violations;
            && ((exists v :: v in vs && v.code == TestPatchSize) <==> sub.testPatch.size < pol.testPatchMinBytes)
            && ((exists v :: v in vs && v.code == SolutionPatchSize) <==> sub.solutionPatch.size < pol.solutionPatchMinBytes)
  {
    var vs := RunPreflight(sub, pol).violations;
    var s0, s1 := TestSizeSection(sub, pol), SolutionSizeSection(sub, pol);
    if sub.testPatch.size < pol.testPatchMinBytes {
      MemberOfSections(sub, pol, s0[0]);
      assert s0[0] in vs;
    }
    if sub.solutionPatch.size < pol.solutionPatchMinBytes {
      MemberOfSections(sub, pol, s1[0]);
      assert s1[0] in vs;
    }
    forall v | v in vs
      ensures v.code == TestPatchSize ==> sub.testPatch.size < pol.testPatchMinBytes
      ensures v.code == SolutionPatchSize ==> sub.solutionPatch.size < pol.solutionPatchMinBytes
    {
      FamilyFromSection(sub, pol, v);
    }
  }

  /** The other checks contribute only when their policy flag is set or their file exists. */
  lemma FlagGates(sub: Submission, pol: Policy)
    ensures var vs := RunPreflight(sub, pol).violations;
            && (!pol.enforceTestPatchBoundaries ==> forall v :: v in vs ==> Family(v.code) != 2)
            && (!pol.enforceSolutionPatchBoundaries ==> forall v :: v in vs ==> Family(v.code) != 3)
            && (sub.description.None? ==> forall v :: v in vs ==> Family(v.code) != 4)
            && (sub.testScript.None? ==> forall v :: v in vs ==> Family(v.code) != 5)
  {
    forall v | v in RunPreflight(sub, pol).violations
      ensures !pol.enforceTestPatchBoundaries ==> Family(v.code) != 2
      ensures !pol.enforceSolutionPatchBoundaries ==> Family(v.code) != 3
      ensures sub.description.None? ==> Family(v.code) != 4
      ensures sub.testScript.None? ==> Family(v.code) != 5
    {
      FamilyFromSection(sub, pol, v);
    }
  }

  // ---------------------------------------------------------------------------
  // When preflight passes
  // ---------------------------------------------------------------------------

  ghost predicate TestBoundariesHold(text: string)
  {
    var touched := Boundaries.TouchedFiles(text);
    && (forall p :: p in touched ==> Boundaries.AllowedInTestPatch(p))
    && |Filter(touched, Boundaries.IsProblemTest)| == 1
  }

  ghost predicate SolutionBoundariesHold(text: string)
  {
    forall p :: p in Boundaries.TouchedFiles(text) ==> !Boundaries.ForbiddenInSolutionPatch(p)
  }

  ghost predicate DescriptionHolds(data: seq<byte>, pol: Policy)
  {
    && (pol.descriptionAsciiOnly ==> forall i :: 0 <= i < |data| ==> data[i] < 128)
    && (pol.descriptionLfOnly ==> Encoding.CR !in data)
  }

  ghost predicate ScriptHolds(script: string, pol: Policy)
  {
    && (pol.forbidBackticks ==> '`' !in script)
    && Occurs("base", script) && Occurs("new", script) && Occurs("--ignore", script)
  }

  /** Every rule of every enabled check holds of the submission. */
  ghost predicate Acceptable(sub: Submission, pol: Policy)
  {
    && sub.testPatch.size >= pol.testPatchMinBytes
    && sub.solutionPatch.size >= pol.solutionPatchMinBytes
    && (pol.enforceTestPatchBoundaries ==> TestBoundariesHold(sub.testPatch.text))
    && (pol.enforceSolutionPatchBoundaries ==> SolutionBoundariesHold(sub.solutionPatch.text))
    && (sub.description.Some? ==> DescriptionHolds(sub.description.value, pol))
    && (sub.testScript.Some? ==> ScriptHolds(sub.testScript.value, pol))
  }

  lemma TestBoundarySectionEmptyIff(sub: Submission, pol: Policy)
    ensures TestBoundarySection(sub, pol) == [] <==>
            (pol.enforceTestPatchBoundaries ==> TestBoundariesHold(sub.testPatch.text))
  {
    Boundaries.TestPatchAcceptedIff(sub.testPatch.text);
  }

  lemma SolutionBoundarySectionEmptyIff(sub: Submission, pol: Policy)
    ensures SolutionBoundarySection(sub, pol) == [] <==>
            (pol.enforceSolutionPatchBoundaries ==> SolutionBoundariesHold(sub.solutionPatch.text))
  {
    Boundaries.SolutionPatchAcceptedIff(sub.solutionPatch.text);
  }

  lemma DescriptionSectionEmptyIff(sub: Submission, pol: Policy)
    ensures DescriptionSection(sub, pol) == [] <==>
            (sub.description.Some? ==> DescriptionHolds(sub.description.value, pol))
  {
    if sub.description.Some? {
      var r := DescriptionSection(sub, pol);
      if r != [] {
        assert r[0] in r;
      }
    }
  }

  lemma ScriptSectionEmptyIff(sub: Submission, pol: Policy)
    ensures ScriptSection(sub, pol) == [] <==>
            (sub.testScript.Some? ==> ScriptHolds(sub.testScript.value, pol))
  {
    if sub.testScript.Some? {
      var r := ScriptSection(sub, pol);
      if r != [] {
        assert r[0] in r;
      }
    }
  }

  /** Preflight passes exactly when the submission satisfies every enabled rule. */
  lemma PreflightOkIff(sub: Submission, pol: Policy)
    ensures RunPreflight(sub, pol).ok <==> Acceptable(sub, pol)
  {
    ViolationsAreSections(sub, pol);
    TestBoundarySectionEmptyIff(sub, pol);
    SolutionBoundarySectionEmptyIff(sub, pol);
    DescriptionSectionEmptyIff(sub, pol);
    ScriptSectionEmptyIff(sub, pol);
  }
}
