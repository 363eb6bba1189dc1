/** Parsing and comparison of dotted version strings (rbinstall/versioning.py).

    A version is split on `.` into parts; a part is a number when the field is
    a decimal number and the field itself otherwise. Two numeric parts compare
    as numbers; every other pairing compares the parts' string forms. Whole
    versions compare like Python tuples: the first pair of parts that differ
    decides, and when one version is a prefix of the other the shorter is
    smaller. */
module Versioning {
  import opened Strings

  /** One field of a parsed version: an `int` or a `str` in the source. */
  datatype Part = Num(n: nat) | Str(s: string)

  /** Python's `str(part)`. */
  function PartString(p: Part): string {
    match p
    case Num(n) => NatToString(n)
    case Str(s) => s
  }

  /** `int(field)` when that succeeds, the field itself otherwise. */
  function ParsePart(field: string): Part {
    if IsDigits(field) then Num(DigitsValue(field)) else Str(field)
  }

  /** The parsed form of a version string, one part per `.`-separated field. */
  function ParsedVersion(version: string): seq<Part> {
    var fields := Split(version, '.');
    seq(|fields|, i requires 0 <= i < |fields| => ParsePart(fields[i]))
  }

  /** `parse_version`: walks the fields of `version.split('.')`, appending each parsed part. */
  method ParseVersion(version: string) returns (info: seq<Part>)
    ensures |info| == Count(version, '.') + 1
    ensures forall i :: 0 <= i < |info| ==> info[i] == ParsePart(Split(version, '.')[i])
    ensures info == ParsedVersion(version)
  {
    var fields := Split(version, '.');
    info := [];
    for i := 0 to |fields|
      invariant |info| == i
      invariant forall k :: 0 <= k < i ==> info[k] == ParsePart(fields[k])
    {
      info := info + [ParsePart(fields[i])];
    }
  }

  /***** Comparison *****/

  /** The operators the source passes to `match_version` (`operator.eq`, `lt`, `le`, `gt`, `ge`). */
  datatype CompareOp = Eq | Lt | Le | Gt | Ge

  function CompareInts(a: int, b: int, op: CompareOp): bool {
    match op
    case Eq => a == b
    case Lt => a < b
    case Le => a <= b
    case Gt => a > b
    case Ge => a >= b
  }

  function CompareStrings(a: string, b: string, op: CompareOp): bool {
    match op
    case Eq => a == b
    case Lt => LexLess(a, b)
    case Le => LexLess(a, b) || a == b
    case Gt => LexLess(b, a)
    case Ge => LexLess(b, a) || a == b
  }

  /** `_ComparedVersionPart._compare`: numbers compare as numbers, anything
      else as the two parts' string forms. It is defined for every pair. */
  function ComparePart(a: Part, b: Part, op: CompareOp): bool {
    if a.Num? && b.Num? then CompareInts(a.n, b.n, op)
    else CompareStrings(PartString(a), PartString(b), op)
  }

  /** `__eq__` of two compared parts. */
  predicate SamePart(a: Part, b: Part) {
    ComparePart(a, b, Eq)
  }

  /** Python's `op(xs, ys)` on two tuples of compared parts: the first index
      where the parts are not equal decides with `op`; if there is none, the
      lengths decide. */
  function CompareVersions(xs: seq<Part>, ys: seq<Part>, op: CompareOp): bool {
    if xs == [] || ys == [] then CompareInts(|xs|, |ys|, op)
    else if !SamePart(xs[0], ys[0]) then ComparePart(xs[0], ys[0], op)
    else CompareVersions(xs[1..], ys[1..], op)
  }

  /** The predicate `match_version(*reference, op=op)` builds, as data. */
  datatype VersionMatch = VersionMatch(op: CompareOp, reference: seq<Part>)

  /** Calling that predicate on a parsed version: `op(version, reference)`. */
  predicate VersionMatches(m: VersionMatch, version: seq<Part>) {
    CompareVersions(version, m.reference, m.op)
  }

  /***** Properties of parsing *****/

  /** A number written out by `str()` is parsed back to the same number. */
  lemma ParsePartOfNumber(n: nat)
    ensures ParsePart(NatToString(n)) == Num(n)
    ensures PartString(Num(n)) == NatToString(n)
  {
    DigitsValueOfNatToString(n);
  }

  /** A field that is not a decimal number is kept verbatim, so `str()` of it is the field. */
  lemma ParsePartKeepsText(field: string)
    requires !IsDigits(field)
    ensures ParsePart(field) == Str(field) && PartString(ParsePart(field)) == field
  {
  }

  /** `str()` of a parsed field gives the field back exactly when the field
      is not a number written with a leading zero: `08` becomes `8`, while
      `0`, `10` and `rc1` come back unchanged. */
  lemma PartStringOfParsed(field: string)
    ensures PartString(ParsePart(field)) == field
            <==> !(IsDigits(field) && |field| > 1 && field[0] == '0')
  {
    if IsDigits(field) {
      var n := DigitsValue(field);
      if |field| > 1 && field[0] == '0' {
        var r := NatToString(n);
        if n == 0 {
          assert |r| == 1;
        } else {
          assert r[0] != field[0];
        }
      } else {
        NatToStringOfDigits(field);
      }
    } else {
      ParsePartKeepsText(field);
    }
  }

  /** Parsing a version written as `.`-free fields joined by `.` parses each field. */
  lemma ParsedVersionOfFields(fields: seq<string>)
    requires |fields| > 0
    requires forall i :: 0 <= i < |fields| ==> '.' !in fields[i]
    ensures ParsedVersion(JoinWith(fields, ".")) == seq(|fields|, i requires 0 <= i < |fields| => ParsePart(fields[i]))
  {
    SplitJoin(fields, '.');
  }

  function NumberFields(ns: seq<nat>): (r: seq<string>)
    ensures |r| == |ns|
    ensures forall i :: 0 <= i < |r| ==> r[i] == NatToString(ns[i])
  {
    if ns == [] then [] else [NatToString(ns[0])] + NumberFields(ns[1..])
  }

  function Numbers(ns: seq<nat>): (r: seq<Part>)
    ensures |r| == |ns|
    ensures forall i :: 0 <= i < |r| ==> r[i] == Num(ns[i])
  {
    if ns == [] then [] else [Num(ns[0])] + Numbers(ns[1..])
  }

  /** Writing numbers joined by `.` and parsing the result gives the numbers back. */
  lemma ParseJoinedNumbers(ns: seq<nat>)
    requires |ns| > 0
    ensures ParsedVersion(JoinWith(NumberFields(ns), ".")) == Numbers(ns)
  {
    var fields := NumberFields(ns);
    SplitJoin(fields, '.');
    forall i | 0 <= i < |ns|
      ensures ParsePart(fields[i]) == Num(ns[i])
    {
      ParsePartOfNumber(ns[i]);
    }
  }

  /***** Properties of comparison *****/

  /** Two parts are equal exactly when their string forms are equal. */
  lemma SamePartIffSameString(a: Part, b: Part)
    ensures SamePart(a, b) <==> PartString(a) == PartString(b)
  {
    if a.Num? && b.Num? {
      NatToStringInjective(a.n, b.n);
    }
  }

  /** With `operator.eq`, versions match exactly when they have the same
      number of parts and the parts are pairwise equal. */
  lemma {:induction false} EqualIff(xs: seq<Part>, ys: seq<Part>)
    ensures CompareVersions(xs, ys, Eq) <==>
            |xs| == |ys| && forall i :: 0 <= i < |xs| ==> SamePart(xs[i], ys[i])
  {
    if xs != [] && ys != [] {
      EqualIff(xs[1..], ys[1..]);
      if SamePart(xs[0], ys[0]) && |xs| == |ys| {
        if forall i :: 0 <= i < |xs| - 1 ==> SamePart(xs[1..][i], ys[1..][i]) {
          forall i | 0 <= i < |xs|
            ensures SamePart(xs[i], ys[i])
          {
            if i > 0 {
              assert xs[1..][i - 1] == xs[i] && ys[1..][i - 1] == ys[i];
            }
          }
        }
      }
    }
  }

  /** The first pair of parts that differ decides every comparison. */
  lemma {:induction false} FirstDifferenceDecides(xs: seq<Part>, ys: seq<Part>, k: nat, op: CompareOp)
    requires k < |xs| && k < |ys|
    requires forall i :: 0 <= i < k ==> SamePart(xs[i], ys[i])
    requires !SamePart(xs[k], ys[k])
    ensures CompareVersions(xs, ys, op) == ComparePart(xs[k], ys[k], op)
  {
    if k > 0 {
      assert SamePart(xs[0], ys[0]);
      forall i | 0 <= i < k - 1
        ensures SamePart(xs[1..][i], ys[1..][i])
      {
        assert xs[1..][i] == xs[i + 1] && ys[1..][i] == ys[i + 1];
      }
      FirstDifferenceDecides(xs[1..], ys[1..], k - 1, op);
    }
  }

  /** When the parts agree as far as both versions go, the lengths decide:
      an extension of a version is greater than it (no zero padding). */
  lemma {:induction false} CommonPrefixLengthDecides(xs: seq<Part>, ys: seq<Part>, op: CompareOp)
    requires forall i :: 0 <= i < |xs| && i < |ys| ==> SamePart(xs[i], ys[i])
    ensures CompareVersions(xs, ys, op) == CompareInts(|xs|, |ys|, op)
  {
    if xs != [] && ys != [] {
      assert SamePart(xs[0], ys[0]);
      forall i | 0 <= i < |xs| - 1 && i < |ys| - 1
        ensures SamePart(xs[1..][i], ys[1..][i])
      {
        assert xs[1..][i] == xs[i + 1] && ys[1..][i] == ys[i + 1];
      }
      CommonPrefixLengthDecides(xs[1..], ys[1..], op);
    }
  }

  /** Two unequal parts are ordered one way or the other, never both. */
  lemma UnequalPartsOrdered(a: Part, b: Part)
    requires !SamePart(a, b)
    ensures ComparePart(a, b, Lt) != ComparePart(a, b, Gt)
    ensures ComparePart(a, b, Le) == ComparePart(a, b, Lt)
    ensures ComparePart(a, b, Ge) == ComparePart(a, b, Gt)
  {
    if !(a.Num? && b.Num?) {
      LexLessTotal(PartString(a), PartString(b));
      LexLessAsymmetric(PartString(a), PartString(b));
    }
  }

  /** Exactly one of `<`, `==`, `>` holds between two versions, `<=` is `<`
      or `==`, and `>=` is `>` or `==`: comparing never fails and never
      answers inconsistently for one pair. */
  lemma {:induction false} VersionTrichotomy(xs: seq<Part>, ys: seq<Part>)
    ensures CompareVersions(xs, ys, Lt) || CompareVersions(xs, ys, Eq) || CompareVersions(xs, ys, Gt)
    ensures !(CompareVersions(xs, ys, Lt) && CompareVersions(xs, ys, Gt))
    ensures !(CompareVersions(xs, ys, Eq) && CompareVersions(xs, ys, Lt))
    ensures !(CompareVersions(xs, ys, Eq) && CompareVersions(xs, ys, Gt))
    ensures CompareVersions(xs, ys, Le) == (CompareVersions(xs, ys, Lt) || CompareVersions(xs, ys, Eq))
    ensures CompareVersions(xs, ys, Ge) == (CompareVersions(xs, ys, Gt) || CompareVersions(xs, ys, Eq))
  {
    if xs != [] && ys != [] {
      if SamePart(xs[0], ys[0]) {
        VersionTrichotomy(xs[1..], ys[1..]);
      } else {
        UnequalPartsOrdered(xs[0], ys[0]);
      }
    }
  }

  /** Swapping the operands turns `>=` into `<=` and `>` into `<`; `==` is symmetric. */
  lemma {:induction false} VersionDuality(xs: seq<Part>, ys: seq<Part>)
    ensures CompareVersions(xs, ys, Ge) == CompareVersions(ys, xs, Le)
    ensures CompareVersions(xs, ys, Gt) == CompareVersions(ys, xs, Lt)
    ensures CompareVersions(xs, ys, Eq) == CompareVersions(ys, xs, Eq)
  {
    if xs != [] && ys != [] {
      VersionDuality(xs[1..], ys[1..]);
    }
  }

  /** Mixed parts make the order on versions cyclic: "3" < "10" because both
      are numbers, "10" < "2a" and "2a" < "3" because those pairs compare as
      strings. No exception is raised, but the order is not transitive. */
  lemma MixedPartsNotTransitive()
    ensures VersionMatches(VersionMatch(Lt, ParsedVersion("10")), ParsedVersion("3"))
    ensures VersionMatches(VersionMatch(Lt, ParsedVersion("2a")), ParsedVersion("10"))
    ensures VersionMatches(VersionMatch(Lt, ParsedVersion("3")), ParsedVersion("2a"))
  {
    ParsedVersionOfFields(["3"]);
    ParsedVersionOfFields(["10"]);
    ParsedVersionOfFields(["2a"]);
    ParsePartOfNumber(3);
    ParsePartOfNumber(10);
    assert !IsDigit('a');
    assert NatToString(10) == "10" && NatToString(3) == "3";
  }

  /***** Worked examples *****/

  lemma ParseVersionOfNumbers()
    ensures ParsedVersion("1.2.3") == [Num(1), Num(2), Num(3)]
  {
    assert JoinWith(["1", "2", "3"], ".") == "1.2.3";
    ParsedVersionOfFields(["1", "2", "3"]);
    ParsePartOfNumber(1);
    ParsePartOfNumber(2);
    ParsePartOfNumber(3);
    assert NatToString(1) == "1" && NatToString(2) == "2" && NatToString(3) == "3";
  }

  lemma ParseVersionOfWords()
    ensures ParsedVersion("a.b.c") == [Str("a"), Str("b"), Str("c")]
  {
    assert JoinWith(["a", "b", "c"], ".") == "a.b.c";
    ParsedVersionOfFields(["a", "b", "c"]);
    assert !IsDigit("a"[0]) && !IsDigit("b"[0]) && !IsDigit("c"[0]);
  }

  lemma ParseVersionOfMixed()
    ensures ParsedVersion("1.2.abc") == [Num(1), Num(2), Str("abc")]
  {
    assert JoinWith(["1", "2", "abc"], ".") == "1.2.abc";
    ParsedVersionOfFields(["1", "2", "abc"]);
    ParsePartOfNumber(1);
    ParsePartOfNumber(2);
    assert NatToString(1) == "1" && NatToString(2) == "2";
    assert !IsDigit("abc"[0]);
  }

  /** The empty string has one (empty) field, so it parses to `('',)`, not `()`. */
  lemma ParseVersionOfEmpty()
    ensures ParsedVersion("") == [Str("")]
  {
    assert Split("", '.') == [""];
  }

  /** `match_version(8)` rejects "8.9"; `(9, 3) >= (9,)` holds and `(9, 3) <= (9,)`
      fails; `(8, 9) <= (9,)` holds because 8 < 9 decides. */
  lemma DistroVersionExamples()
    ensures !VersionMatches(VersionMatch(Eq, [Num(8)]), [Num(8), Num(9)])
    ensures VersionMatches(VersionMatch(Ge, [Num(9)]), [Num(9), Num(3)])
    ensures !VersionMatches(VersionMatch(Le, [Num(9)]), [Num(9), Num(3)])
    ensures VersionMatches(VersionMatch(Le, [Num(9)]), [Num(8), Num(9)])
    ensures !VersionMatches(VersionMatch(Ge, [Num(9)]), [Num(8), Num(9)])
  {
    CommonPrefixLengthDecides([Num(9), Num(3)], [Num(9)], Ge);
    CommonPrefixLengthDecides([Num(9), Num(3)], [Num(9)], Le);
    FirstDifferenceDecides([Num(8), Num(9)], [Num(9)], 0, Le);
    FirstDifferenceDecides([Num(8), Num(9)], [Num(9)], 0, Ge);
  }
}
