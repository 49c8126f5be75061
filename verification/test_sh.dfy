/** Token checks on the harness script `test.sh`. */
module TestSh {
  import opened Text
  import opened Models

  const BackticksViolation: Violation := Violation(
    TestShBackticks, "test.sh must not contain backticks", "found ` character",
    "Remove backticks; use $(...) or avoid shell substitution.")

  const ModesViolation: Violation := Violation(
    TestShModes, "test.sh must support base and new modes", "missing 'base' or 'new' token",
    "Implement ./test.sh base and ./test.sh new modes.")

  const IgnoreViolation: Violation := Violation(
    TestShIgnore, "base mode should ignore the new test file", "no --ignore found",
    "Ensure base runs pytest with --ignore=<new_test>.")

  /** The position of each rule in the order the script is checked. */
  function Rank(v: Violation): nat
  {
    if v == BackticksViolation then 0 else if v == ModesViolation then 1 else 2
  }

  /** Python's one-character test `c in text` is plain membership. */
  lemma {:induction false} ContainsOneChar(text: string, c: char)
    ensures Contains(text, [c]) <==> c in text
  {
    ContainsIff(text, [c]);
    if c in text {
      var i :| 0 <= i < |text| && text[i] == c;
      assert text[i..i + 1] == [c];
      assert OccursAt([c], text, i);
    }
    if Occurs([c], text) {
      var i :| OccursAt([c], text, i);
      assert text[i] == text[i..i + 1][0];
    }
  }

  /** `check_test_sh`: a backtick is reported only when forbidden; the mode rule and the
      ignore rule are plain substring tests, independent of each other; the result keeps
      the order backticks, modes, ignore. */
  function CheckTestSh(script: string, forbidBackticks: bool): (r: seq<Violation>)
    ensures BackticksViolation in r <==> forbidBackticks && '`' in script
    ensures ModesViolation in r <==> !(Occurs("base", script) && Occurs("new", script))
    ensures IgnoreViolation in r <==> !Occurs("--ignore", script)
    ensures forall v :: v in r ==> v == BackticksViolation || v == ModesViolation || v == IgnoreViolation
    ensures forall i, j :: 0 <= i < j < |r| ==> Rank(r[i]) < Rank(r[j])
  {
    ContainsOneChar(script, '`');
    ContainsIff(script, "base");
    ContainsIff(script, "new");
    ContainsIff(script, "--ignore");
    (if forbidBackticks && Contains(script, "`") then [BackticksViolation] else [])
      + (if !Contains(script, "base") || !Contains(script, "new") then [ModesViolation] else [])
      + (if !Contains(script, "--ignore") then [IgnoreViolation] else [])
  }

  /** A block of a block of `s` is a block of `s`. */
  lemma OccursTransitive<T>(t: seq<T>, u: seq<T>, s: seq<T>)
    requires Occurs(t, u) && Occurs(u, s)
    ensures Occurs(t, s)
  {
    var i :| OccursAt(t, u, i);
    var j :| OccursAt(u, s, j);
    assert u == s[j..j + |u|];
    forall k | 0 <= k < |t|
      ensures s[j + i..j + i + |t|][k] == t[k]
    {
      assert t[k] == u[i + k] == s[j + i + k];
    }
    assert s[j + i..j + i + |t|] == t;
    assert OccursAt(t, s, j + i);
  }

  /** The mode tokens are substrings, not words: a script that says only "baseline" and
      "renew" satisfies the mode rule. */
  lemma SubstringModeTokens(script: string)
    requires Occurs("baseline", script) && Occurs("renew", script)
    ensures ModesViolation !in CheckTestSh(script, true)
  {
    assert "baseline"[0..4] == "base";
    assert OccursAt("base", "baseline", 0);
    assert "renew"[2..5] == "new";
    assert OccursAt("new", "renew", 2);
    OccursTransitive("base", "baseline", script);
    OccursTransitive("new", "renew", script);
  }
}
