/**
  Patch-boundary checks: which files a test patch and a fix (solution) patch may touch.
  A patch is scanned line by line for `diff --git a/<old> b/<new>` headers and the
  new-side path of every header is taken as a touched file.
 */
module Boundaries {
  import opened Wrappers
  import opened Text
  import opened Models

  // ---------------------------------------------------------------------------
  // The header pattern `^diff --git a/(.+?) b/(.+?)$`
  // ---------------------------------------------------------------------------

  const DiffPrefix: string := "diff --git a/"
  const PathSep: string := " b/"

  /** After the prefix, `rest[..k]` can be group 1: it is non-empty, " b/" follows it,
      and a non-empty group 2 (running to the end of the line) follows that. */
  ghost predicate SplitsAt(rest: string, k: int)
  {
    1 <= k && k + |PathSep| < |rest| && rest[k..k + |PathSep|] == PathSep
  }

  /** `j` is the first split point at or after `k`. */
  ghost predicate FirstSplitFrom(rest: string, k: int, j: int)
  {
    k <= j && SplitsAt(rest, j) && forall m :: k <= m < j ==> !SplitsAt(rest, m)
  }

  /** The lazy `(.+?)` of group 1 takes the shortest possible split. */
  ghost predicate FirstSplit(rest: string, k: int)
  {
    FirstSplitFrom(rest, 1, k)
  }

  /** Tries the split points `k, k + 1, ...` in turn, as the regex engine backtracks. */
  function SplitHeaderFrom(rest: string, k: nat): Option<string>
    requires k >= 1
    decreases |rest| - k
  {
    if k + |PathSep| >= |rest| then None
    else if rest[k..k + |PathSep|] == PathSep then Some(rest[k + |PathSep|..])
    else SplitHeaderFrom(rest, k + 1)
  }

  /** The scan finds the first split point at or after `k`, and fails only when there is none. */
  lemma {:induction false} SplitHeaderFromSpec(rest: string, k: nat)
    requires k >= 1
    ensures SplitHeaderFrom(rest, k).None? ==> forall j :: k <= j ==> !SplitsAt(rest, j)
    ensures SplitHeaderFrom(rest, k).Some? ==>
              exists j :: FirstSplitFrom(rest, k, j) && SplitHeaderFrom(rest, k).value == rest[j + |PathSep|..]
    decreases |rest| - k
  {
    if k + |PathSep| >= |rest| {
    } else if rest[k..k + |PathSep|] == PathSep {
      assert FirstSplitFrom(rest, k, k);
    } else {
      SplitHeaderFromSpec(rest, k + 1);
      if SplitHeaderFrom(rest, k + 1).Some? {
        var j :| FirstSplitFrom(rest, k + 1, j) && SplitHeaderFrom(rest, k + 1).value == rest[j + |PathSep|..];
        assert FirstSplitFrom(rest, k, j);
      }
    }
  }

  /** `_DIFF_RE.match(line)` followed by `m.group(2)`, for a line that holds no '\n'
      (every line produced by `splitlines` qualifies, so `.` matches any character). */
  function MatchHeader(line: string): Option<string>
  {
    if DiffPrefix <= line then SplitHeaderFrom(line[|DiffPrefix|..], 1) else None
  }

  /** The regex semantics: a line matches exactly when it starts with the prefix and some
      split exists, and group 2 is what follows the shortest split. */
  lemma MatchHeaderSpec(line: string)
    ensures MatchHeader(line).Some? <==> DiffPrefix <= line && exists k :: SplitsAt(line[|DiffPrefix|..], k)
    ensures MatchHeader(line).Some? ==>
              exists k :: FirstSplit(line[|DiffPrefix|..], k)
                          && MatchHeader(line).value == line[|DiffPrefix|..][k + |PathSep|..]
  {
    if DiffPrefix <= line {
      var rest := line[|DiffPrefix|..];
      SplitHeaderFromSpec(rest, 1);
      if MatchHeader(line).Some? {
        var j :| FirstSplitFrom(rest, 1, j) && SplitHeaderFrom(rest, 1).value == rest[j + |PathSep|..];
        assert FirstSplit(rest, j);
      }
    }
  }

  /** A header line, once surrounding whitespace is stripped. */
  predicate IsHeaderLine(line: string)
  {
    MatchHeader(Strip(line)).Some?
  }

  /** The new-side path named by a header line. */
  function NewPath(line: string): string
    requires IsHeaderLine(line)
  {
    MatchHeader(Strip(line)).value
  }

  /** What one line contributes to the touched files. */
  function LinePaths(line: string): seq<string>
  {
    if IsHeaderLine(line) then [NewPath(line)] else []
  }

  /** The `for line in ...` loop of `_touched_files`. */
  function TouchedInLines(lines: seq<string>): seq<string>
  {
    if lines == [] then [] else LinePaths(lines[0]) + TouchedInLines(lines[1..])
  }

  /** `_touched_files`: the new-side path of every header line, in order. */
  function TouchedFiles(patchText: string): seq<string>
  {
    TouchedInLines(SplitLines(patchText))
  }

  /** Exactly the header lines contribute, each its new-side path, in input order. */
  lemma {:induction false} TouchedInLinesSpec(lines: seq<string>)
    ensures var headers := Filter(lines, IsHeaderLine);
            && |TouchedInLines(lines)| == |headers|
            && forall i :: 0 <= i < |headers| ==> TouchedInLines(lines)[i] == NewPath(headers[i])
  {
    if lines != [] {
      TouchedInLinesSpec(lines[1..]);
      var headers := Filter(lines, IsHeaderLine);
      var tail := Filter(lines[1..], IsHeaderLine);
      if IsHeaderLine(lines[0]) {
        assert headers == [lines[0]] + tail;
        forall i | 0 <= i < |headers|
          ensures TouchedInLines(lines)[i] == NewPath(headers[i])
        {
          if i > 0 {
            assert headers[i] == tail[i - 1];
          }
        }
      } else {
        assert headers == tail;
      }
    }
  }

  /** Touched files of concatenated line lists concatenate. */
  lemma {:induction false} TouchedInLinesAppend(a: seq<string>, b: seq<string>)
    ensures TouchedInLines(a + b) == TouchedInLines(a) + TouchedInLines(b)
  {
    if a == [] {
      assert a + b == b;
    } else {
      var ab := a + b;
      assert ab[0] == a[0];
      assert ab[1..] == a[1..] + b;
      TouchedInLinesAppend(a[1..], b);
      calc {
        TouchedInLines(ab);
        LinePaths(a[0]) + TouchedInLines(a[1..] + b);
        LinePaths(a[0]) + (TouchedInLines(a[1..]) + TouchedInLines(b));
        (LinePaths(a[0]) + TouchedInLines(a[1..])) + TouchedInLines(b);
      }
    }
  }

  /** Group 1 is lazy: with two " b/" in the header, group 2 starts after the first. */
  lemma LazyGroupExample()
    ensures MatchHeader("diff --git a/x b/y b/z") == Some("y b/z")
  {
    var rest := "x b/y b/z";
    assert "diff --git a/x b/y b/z"[|DiffPrefix|..] == rest;
    assert rest[1..4] == PathSep;
  }

  /** A header needs a non-empty new-side path: a line ending in " b/" names nothing. */
  lemma EmptyNewPathExample()
    ensures MatchHeader("diff --git a/x b/") == None
  {
    var rest := "x b/";
    assert "diff --git a/x b/"[|DiffPrefix|..] == rest;
    forall k | SplitsAt(rest, k)
      ensures false
    {
    }
  }

  /** The new-side path of a boundary-free header line is boundary-free. */
  lemma NewPathNoLineBreak(line: string)
    requires IsHeaderLine(line) && NoLineBreak(line)
    ensures NoLineBreak(NewPath(line))
  {
    var t := Strip(line);
    StripNoLineBreak(line);
    MatchHeaderSpec(t);
    var rest := t[|DiffPrefix|..];
    var k :| FirstSplit(rest, k) && MatchHeader(t).value == rest[k + |PathSep|..];
    NoLineBreakSlice(t, |DiffPrefix|, |t|);
    NoLineBreakSlice(rest, k + |PathSep|, |rest|);
  }

  /** No touched path contains a line boundary. */
  lemma TouchedNoLineBreak(patchText: string)
    ensures forall p :: p in TouchedFiles(patchText) ==> NoLineBreak(p)
  {
    var lines := SplitLines(patchText);
    var headers := Filter(lines, IsHeaderLine);
    TouchedInLinesSpec(lines);
    var touched := TouchedFiles(patchText);
    forall p | p in touched
      ensures NoLineBreak(p)
    {
      var i :| 0 <= i < |touched| && touched[i] == p;
      assert headers[i] in headers;
      NewPathNoLineBreak(headers[i]);
    }
  }

  // ---------------------------------------------------------------------------
  // Allow and deny rules
  // ---------------------------------------------------------------------------

  /** `tests/test_*_problem.py`, by prefix and suffix as the source tests it. */
  predicate IsProblemTest(p: string)
  {
    "tests/test_" <= p && EndsWith(p, "_problem.py")
  }

  /** The test patch may touch only `test.sh` and problem-test modules. */
  predicate AllowedInTestPatch(p: string)
  {
    p == "test.sh" || IsProblemTest(p)
  }

  predicate ForbiddenInTestPatch(p: string)
  {
    !AllowedInTestPatch(p)
  }

  /** The fix patch may not touch tests, the harness script or the build file. */
  predicate ForbiddenInSolutionPatch(p: string)
  {
    "tests/" <= p || p == "test.sh" || EndsWith(p, "Dockerfile.problem")
  }

  function TestBoundaryViolation(p: string): Violation
  {
    Violation(TestPatchBoundary, "test.patch modified forbidden files", p,
              "test.patch may change only test.sh and exactly one tests/test_*_problem.py")
  }

  function TestCountViolation(n: nat): Violation
  {
    Violation(TestPatchTestCount, "test.patch must touch exactly one tests/test_*_problem.py",
              "found=" + NatToDecimal(n),
              "Ensure exactly one new problem test module is added/modified.")
  }

  function SolutionBoundaryViolation(p: string): Violation
  {
    Violation(SolutionPatchBoundary, "solution.patch modified forbidden files", p,
              "solution.patch must modify production code only.")
  }

  /** The loop over touched paths in `check_test_patch_boundaries`: one violation per
      forbidden path, evidence the path, in touched order, duplicates included. */
  function TestBoundaryViolations(touched: seq<string>): (r: seq<Violation>)
    ensures var forbidden := Filter(touched, ForbiddenInTestPatch);
            && |r| == |forbidden|
            && forall i :: 0 <= i < |r| ==> r[i] == TestBoundaryViolation(forbidden[i])
  {
    if touched == [] then []
    else
      var rest := TestBoundaryViolations(touched[1..]);
      if AllowedInTestPatch(touched[0]) then rest
      else [TestBoundaryViolation(touched[0])] + rest
  }

  /** The loop of `check_solution_patch_boundaries`: one violation per forbidden path. */
  function SolutionBoundaryViolations(touched: seq<string>): (r: seq<Violation>)
    ensures var forbidden := Filter(touched, ForbiddenInSolutionPatch);
            && |r| == |forbidden|
            && forall i :: 0 <= i < |r| ==> r[i] == SolutionBoundaryViolation(forbidden[i])
  {
    if touched == [] then []
    else
      var rest := SolutionBoundaryViolations(touched[1..]);
      if ForbiddenInSolutionPatch(touched[0]) then [SolutionBoundaryViolation(touched[0])] + rest
      else rest
  }

  /** `check_test_patch_boundaries` on the patch text: first the boundary violations,
      then a count violation exactly when the number of problem-test entries is not one. */
  function CheckTestPatchBoundaries(patchText: string): (r: seq<Violation>)
    ensures var touched := TouchedFiles(patchText);
            var forbidden := Filter(touched, ForbiddenInTestPatch);
            var n := |Filter(touched, IsProblemTest)|;
            && |r| == |forbidden| + (if n != 1 then 1 else 0)
            && (forall i :: 0 <= i < |forbidden| ==> r[i] == TestBoundaryViolation(forbidden[i]))
            && (n != 1 ==> r[|r| - 1] == TestCountViolation(n))
  {
    var touched := TouchedFiles(patchText);
    var newTests := Filter(touched, IsProblemTest);
    TestBoundaryViolations(touched)
      + (if |newTests| != 1 then [TestCountViolation(|newTests|)] else [])
  }

  /** `check_solution_patch_boundaries` on the patch text: one violation per forbidden
      touched path, and nothing else. */
  function CheckSolutionPatchBoundaries(patchText: string): (r: seq<Violation>)
    ensures var forbidden := Filter(TouchedFiles(patchText), ForbiddenInSolutionPatch);
            && |r| == |forbidden|
            && forall i :: 0 <= i < |r| ==> r[i] == SolutionBoundaryViolation(forbidden[i])
  {
    SolutionBoundaryViolations(TouchedFiles(patchText))
  }

  /** A test patch without headers fails only the count rule, with `found=0`. */
  lemma TestPatchWithoutHeaders(patchText: string)
    requires TouchedFiles(patchText) == []
    ensures CheckTestPatchBoundaries(patchText) == [TestCountViolation(0)]
    ensures TestCountViolation(0).evidence == "found=0"
  {
  }

  /** The test-patch check reports only boundary and count violations. */
  lemma TestPatchCodes(patchText: string)
    ensures forall v :: v in CheckTestPatchBoundaries(patchText) ==>
              v.code == TestPatchBoundary || v.code == TestPatchTestCount
  {
  }

  /** A fix patch without headers is accepted, and the fix-patch check never counts tests. */
  lemma SolutionPatchNoCountRule(patchText: string)
    ensures forall v :: v in CheckSolutionPatchBoundaries(patchText) ==> v.code == SolutionPatchBoundary
    ensures TouchedFiles(patchText) == [] ==> CheckSolutionPatchBoundaries(patchText) == []
  {
    var r := CheckSolutionPatchBoundaries(patchText);
    forall v | v in r
      ensures v.code == SolutionPatchBoundary
    {
      var i :| 0 <= i < |r| && r[i] == v;
    }
  }

  /** The test patch passes the boundary rules exactly when every touched path is allowed
      and exactly one of them is a problem-test module. */
  lemma TestPatchAcceptedIff(patchText: string)
    ensures CheckTestPatchBoundaries(patchText) == [] <==>
            && (forall p :: p in TouchedFiles(patchText) ==> AllowedInTestPatch(p))
            && |Filter(TouchedFiles(patchText), IsProblemTest)| == 1
  {
    var touched := TouchedFiles(patchText);
    var forbidden := Filter(touched, ForbiddenInTestPatch);
    if forbidden != [] {
      assert forbidden[0] in forbidden;
    }
  }

  /** The fix patch passes exactly when no touched path is forbidden for it. */
  lemma SolutionPatchAcceptedIff(patchText: string)
    ensures CheckSolutionPatchBoundaries(patchText) == [] <==>
            forall p :: p in TouchedFiles(patchText) ==> !ForbiddenInSolutionPatch(p)
  {
    var forbidden := Filter(TouchedFiles(patchText), ForbiddenInSolutionPatch);
    if forbidden != [] {
      assert forbidden[0] in forbidden;
    }
  }
}
