/** The minimum-size gate on the two patches. */
module Sizes {
  import opened Text
  import opened Models

  /** The evidence text: the actual size and the minimum, both in decimal. */
  function SizeEvidence(size: nat, minBytes: int): string
  {
    "size=" + NatToDecimal(size) + " bytes, min=" + IntToDecimal(minBytes) + " bytes"
  }

  /** `check_min_size` for the file named `name` of `size` bytes: empty at or above the
      minimum, otherwise exactly one violation with the caller's code. */
  function CheckMinSize(name: string, size: nat, minBytes: int, code: Code): (r: seq<Violation>)
    ensures r == [] <==> size >= minBytes
    ensures size < minBytes ==>
              && |r| == 1
              && r[0].code == code
              && r[0].message == name + " is too small"
              && r[0].evidence == SizeEvidence(size, minBytes)
  {
    if size < minBytes then
      [Violation(code, name + " is too small", SizeEvidence(size, minBytes),
                 "Broaden coverage via real invariants/entrypoints; do not pad.")]
    else []
  }

  /** A space-free word cannot be a proper prefix ending right where another word's space is. */
  lemma SpaceMisaligned(x1: string, y1: string, x2: string, y2: string)
    requires |x1| < |x2| && ' ' !in x2
    ensures x1 + " " + y1 != x2 + " " + y2
  {
    var s, t := x1 + " " + y1, x2 + " " + y2;
    assert s[|x1|] == ' ';
    assert t[|x1|] == x2[|x1|];
  }

  /** Two space-free words followed by a space split the same way. */
  lemma SplitAtFirstSpace(x1: string, y1: string, x2: string, y2: string)
    requires ' ' !in x1 && ' ' !in x2
    requires x1 + " " + y1 == x2 + " " + y2
    ensures x1 == x2 && y1 == y2
  {
    var s := x1 + " " + y1;
    if |x1| < |x2| {
      SpaceMisaligned(x1, y1, x2, y2);
    } else if |x2| < |x1| {
      SpaceMisaligned(x2, y2, x1, y1);
    }
    assert x1 == s[..|x1|] == x2;
    assert y1 == s[|x1| + 1..] == y2;
  }

  /** The part of the evidence after the size and its space. */
  function MinPart(minBytes: int): string
  {
    "bytes, min=" + IntToDecimal(minBytes) + " bytes"
  }

  lemma SizeEvidenceShape(size: nat, minBytes: int)
    ensures SizeEvidence(size, minBytes) == "size=" + (NatToDecimal(size) + " " + MinPart(minBytes))
  {
  }

  lemma MinPartInjective(min1: int, min2: int)
    requires MinPart(min1) == MinPart(min2)
    ensures min1 == min2
  {
    var i1, i2 := IntToDecimal(min1), IntToDecimal(min2);
    var m1, m2 := MinPart(min1), MinPart(min2);
    assert |i1| == |i2|;
    assert i1 == m1[11..11 + |i1|];
    assert i2 == m2[11..11 + |i2|];
    IntToDecimalInjective(min1, min2);
  }

  /** The evidence records both numbers: it determines the size and the minimum. */
  lemma SizeEvidenceInjective(size1: nat, min1: int, size2: nat, min2: int)
    requires SizeEvidence(size1, min1) == SizeEvidence(size2, min2)
    ensures size1 == size2 && min1 == min2
  {
    var d1, d2 := NatToDecimal(size1), NatToDecimal(size2);
    var y1, y2 := MinPart(min1), MinPart(min2);
    SizeEvidenceShape(size1, min1);
    SizeEvidenceShape(size2, min2);
    var e := SizeEvidence(size1, min1);
    assert e[5..] == d1 + " " + y1;
    assert e[5..] == d2 + " " + y2;
    IntToDecimalNoSpace(size1);
    IntToDecimalNoSpace(size2);
    SplitAtFirstSpace(d1, y1, d2, y2);
    IntToDecimalInjective(size1, size2);
    MinPartInjective(min1, min2);
  }
}
