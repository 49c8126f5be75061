/** Encoding checks on the optional description file: ASCII only, LF-only line endings. */
module Encoding {
  import opened Wrappers
  import opened Text
  import opened Models

  const CR: byte := 13
  const LF: byte := 10

  /** `k` is the offset of the first byte of `data` that is not ASCII. */
  ghost predicate IsFirstNonAscii(data: seq<byte>, k: int)
  {
    0 <= k < |data| && data[k] >= 128 && forall j :: 0 <= j < k ==> data[j] < 128
  }

  /** The offset `bytes.decode("ascii")` reports as `UnicodeDecodeError.start`, if any. */
  function FirstNonAscii(data: seq<byte>): (r: Option<nat>)
    ensures r.None? <==> forall i :: 0 <= i < |data| ==> data[i] < 128
    ensures r.Some? ==> IsFirstNonAscii(data, r.value)
  {
    if data == [] then None
    else if data[0] >= 128 then Some(0)
    else match FirstNonAscii(data[1..])
      case None => None
      case Some(k) => Some(k + 1)
  }

  function AsciiViolation(name: string, offset: nat): Violation
  {
    Violation(DescAscii, name + " must be ASCII-only",
              "non-ascii at byte offset " + NatToDecimal(offset), "Remove non-ASCII characters.")
  }

  function LfViolation(name: string): Violation
  {
    Violation(DescLf, name + " must use LF-only line endings", "CRLF/CR detected",
              "Convert to LF-only line endings.")
  }

  /** The source's `b"\r\n" in data or b"\r" in data` is just "some byte is CR". */
  lemma {:induction false} CrTestIsMembership(data: seq<byte>)
    ensures (Contains(data, [CR, LF]) || Contains(data, [CR])) <==> CR in data
  {
    ContainsIff(data, [CR, LF]);
    ContainsIff(data, [CR]);
    if CR in data {
      var i :| 0 <= i < |data| && data[i] == CR;
      assert data[i..i + 1] == [CR];
      assert OccursAt([CR], data, i);
    }
    if Occurs([CR], data) {
      var i :| OccursAt([CR], data, i);
      assert data[i] == data[i..i + 1][0];
    }
    if Occurs([CR, LF], data) {
      var i :| OccursAt([CR, LF], data, i);
      assert data[i] == data[i..i + 2][0];
    }
  }

  /** `check_ascii_lf` on the file named `name` with contents `data`: at most one ASCII
      violation, naming the first non-ASCII offset, then at most one LF violation, raised
      by any CR byte whether or not LF follows it. */
  function CheckAsciiLf(name: string, data: seq<byte>, requireAscii: bool, requireLf: bool): (r: seq<Violation>)
    ensures |r| <= 2
    ensures requireAscii && (exists i :: 0 <= i < |data| && data[i] >= 128) ==>
              |r| >= 1 && exists k :: IsFirstNonAscii(data, k) && r[0] == AsciiViolation(name, k)
    ensures !requireAscii || (forall i :: 0 <= i < |data| ==> data[i] < 128) ==>
              forall v :: v in r ==> v.code != DescAscii
    ensures LfViolation(name) in r <==> requireLf && CR in data
    ensures forall v :: v in r ==> v.code == DescAscii || v == LfViolation(name)
    ensures |r| == 2 ==> r[0].code == DescAscii && r[1] == LfViolation(name)
  {
    CrTestIsMembership(data);
    var first := FirstNonAscii(data);
    var ascii := if requireAscii && first.Some? then [AsciiViolation(name, first.value)] else [];
    var lf := if requireLf && (Contains(data, [CR, LF]) || Contains(data, [CR])) then [LfViolation(name)] else [];
    ascii + lf
  }

  /** With both requirements off the description is not inspected at all. */
  lemma NothingRequiredNothingReported(name: string, data: seq<byte>)
    ensures CheckAsciiLf(name, data, false, false) == []
  {
  }
}
