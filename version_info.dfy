/** The installer's own version (rbinstall/__init__.py).

    `VERSION` is a tuple (major, minor, micro, patch, tag, release number,
    released). Two formatters read it: `get_version_string` builds the
    human-readable form (`1.1`, `1.1.2 RC1`, `2.0 beta 3 (dev)`) and
    `get_package_version` builds the Python package form (`1.1`, `1.1.2rc1`,
    `2.0b3`) from `__version_info__`, the tuple without its released flag.
    Both spell the numbers the same way: major and minor always, micro when
    micro or patch is non-zero, patch when patch is non-zero. The source
    reads the module constant; here the tuple is a parameter, and `Version`
    is the constant. */
module RbInstallVersion {
  import opened Strings
  import opened Versioning

  /** `VERSION`: (Major, Minor, Micro, Patch, alpha/beta/rc/final, Release Number, Released). */
  datatype VersionTuple = VersionTuple(major: nat, minor: nat, micro: nat, patch: nat,
                                       tag: string, relnum: nat, released: bool)

  /** `__version_info__`: the first six fields of `VERSION`. */
  datatype VersionInfo = VersionInfo(major: nat, minor: nat, micro: nat, patch: nat,
                                     tag: string, relnum: nat)

  const Version := VersionTuple(1, 1, 0, 0, "final", 0, true)

  /** `VERSION[:-1]`: together with the released flag it gives back the whole tuple. */
  function VersionInfoOf(v: VersionTuple): (r: VersionInfo)
    ensures VersionTuple(r.major, r.minor, r.micro, r.patch, r.tag, r.relnum, IsRelease(v)) == v
  {
    VersionInfo(v.major, v.minor, v.micro, v.patch, v.tag, v.relnum)
  }

  /** `is_release()`: the last field of `VERSION`. */
  predicate IsRelease(v: VersionTuple) {
    v.released
  }

  /** The dotted numbers both formatters start with: `{major}.{minor}`, then
      `.{micro}` if micro or patch is non-zero, then `.{patch}` if patch is. */
  function NumberPart(major: nat, minor: nat, micro: nat, patch: nat): string {
    var version := NatToString(major) + "." + NatToString(minor);
    if micro != 0 || patch != 0 then
      var version := version + "." + NatToString(micro);
      if patch != 0 then version + "." + NatToString(patch) else version
    else version
  }

  /** `get_version_string()` for the tuple `v`. */
  function VersionString(v: VersionTuple): (r: string)
    ensures NumberPart(v.major, v.minor, v.micro, v.patch) <= r
  {
    var version := NumberPart(v.major, v.minor, v.micro, v.patch);
    var version :=
      if v.tag != "final" then
        if v.tag == "rc" then version + " RC" + NatToString(v.relnum)
        else version + " " + v.tag + " " + NatToString(v.relnum)
      else version;
    if !v.released then version + " (dev)" else version
  }

  /** The tag spelling of a package version: `alpha` is `a`, `beta` is `b`,
      every other tag is kept as it is. */
  function NormTag(tag: string): (r: string)
    ensures tag != "alpha" && tag != "beta" ==> r == tag
    ensures tag == "alpha" ==> r == "a"
    ensures tag == "beta" ==> r == "b"
  {
    if tag == "alpha" then "a" else if tag == "beta" then "b" else tag
  }

  /** `get_package_version()` for `__version_info__` equal to `info`. */
  function PackageVersion(info: VersionInfo): (r: string)
    ensures NumberPart(info.major, info.minor, info.micro, info.patch) <= r
  {
    var version := NumberPart(info.major, info.minor, info.micro, info.patch);
    if info.tag != "final" then version + NormTag(info.tag) + NatToString(info.relnum)
    else version
  }

  /** `__version__`. */
  function PackageVersionOf(v: VersionTuple): string {
    PackageVersion(VersionInfoOf(v))
  }

  /***** The numbers *****/

  /** The numbers the formatters show, as a list. */
  function ShownNumbers(major: nat, minor: nat, micro: nat, patch: nat): seq<nat> {
    [major, minor] + (if micro != 0 || patch != 0 then [micro] else []) + (if patch != 0 then [patch] else [])
  }

  lemma NumberPartIsJoin(major: nat, minor: nat, micro: nat, patch: nat)
    ensures NumberPart(major, minor, micro, patch) == JoinWith(NumberFields(ShownNumbers(major, minor, micro, patch)), ".")
  {
    var ns := ShownNumbers(major, minor, micro, patch);
    var fs := NumberFields(ns);
    var a, b, c, d := NatToString(major), NatToString(minor), NatToString(micro), NatToString(patch);
    if patch != 0 {
      assert fs == [a, b, c, d];
      assert fs[1..] == [b, c, d] && fs[2..] == [c, d] && fs[3..] == [d];
      assert JoinWith(fs[2..], ".") == c + "." + d;
      assert JoinWith(fs[1..], ".") == b + "." + c + "." + d;
    } else if micro != 0 {
      assert fs == [a, b, c];
      assert fs[1..] == [b, c] && fs[2..] == [c];
      assert JoinWith(fs[1..], ".") == b + "." + c;
    } else {
      assert fs == [a, b];
      assert fs[1..] == [b];
    }
  }

  /** `parse_version` of the dotted numbers gives major and minor, then micro
      exactly when micro or patch is non-zero, then patch exactly when patch
      is non-zero. */
  lemma NumberPartParses(major: nat, minor: nat, micro: nat, patch: nat)
    ensures var parts := ParsedVersion(NumberPart(major, minor, micro, patch));
            |parts| == (if patch != 0 then 4 else if micro != 0 then 3 else 2)
            && parts[0] == Num(major) && parts[1] == Num(minor)
            && (|parts| > 2 ==> parts[2] == Num(micro))
            && (|parts| > 3 ==> parts[3] == Num(patch))
  {
    NumberPartIsJoin(major, minor, micro, patch);
    ParseJoinedNumbers(ShownNumbers(major, minor, micro, patch));
  }

  /** Different shown numbers are never spelled the same. */
  lemma NumberPartInjective(major: nat, minor: nat, micro: nat, patch: nat,
                            major': nat, minor': nat, micro': nat, patch': nat)
    requires NumberPart(major, minor, micro, patch) == NumberPart(major', minor', micro', patch')
    ensures major == major' && minor == minor' && patch == patch'
    ensures micro != 0 || patch != 0 ==> micro == micro'
  {
    NumberPartParses(major, minor, micro, patch);
    NumberPartParses(major', minor', micro', patch');
  }

  lemma NumberPartNoSpace(major: nat, minor: nat, micro: nat, patch: nat)
    ensures var n := NumberPart(major, minor, micro, patch);
            n != [] && NoSpace(n) && IsDigit(n[|n| - 1])
  {
    var a, b, c, d := NatToString(major), NatToString(minor), NatToString(micro), NatToString(patch);
    DigitsNoSpace(a);
    DigitsNoSpace(b);
    DigitsNoSpace(c);
    DigitsNoSpace(d);
  }

  lemma DigitsNoSpace(s: string)
    requires IsDigits(s)
    ensures NoSpace(s) && IsDigit(s[|s| - 1])
  {
  }

  /***** The human-readable string *****/

  /** The first word of the readable string is the dotted numbers. */
  lemma VersionStringFirstWord(v: VersionTuple)
    ensures var words := Words(VersionString(v));
            words != [] && words[0] == NumberPart(v.major, v.minor, v.micro, v.patch)
  {
    var n := NumberPart(v.major, v.minor, v.micro, v.patch);
    var r := VersionString(v);
    NumberPartNoSpace(v.major, v.minor, v.micro, v.patch);
    if r == n {
      WordsOfWord(n);
    } else {
      assert r[|n|] == ' ';
      assert r == n + " " + r[|n| + 1..];
      WordsAfterWord(n, r[|n| + 1..]);
    }
  }

  /** The text a tag adds to the readable string: `' RC{relnum}'` for `rc`,
      `' {tag} {relnum}'` for every other tag but `final`, which adds none. */
  lemma VersionStringTag(v: VersionTuple)
    ensures var n := NumberPart(v.major, v.minor, v.micro, v.patch);
            var r := VersionString(v);
            && (v.tag == "final" ==> r == n || r == n + " (dev)")
            && (v.tag == "rc" ==> n + " RC" + NatToString(v.relnum) <= r)
            && (v.tag != "final" && v.tag != "rc" ==> n + " " + v.tag + " " + NatToString(v.relnum) <= r)
  {
  }

  /** The readable string of a released version ends with a digit. */
  lemma ReleasedEndsInDigit(v: VersionTuple)
    requires v.released
    ensures var r := VersionString(v); r != [] && IsDigit(r[|r| - 1])
  {
    NumberPartNoSpace(v.major, v.minor, v.micro, v.patch);
    DigitsNoSpace(NatToString(v.relnum));
  }

  /** `' (dev)'` ends the readable string exactly when the version is not released. */
  lemma DevSuffixIffUnreleased(v: VersionTuple)
    ensures var r := VersionString(v);
            (|r| >= 6 && r[|r| - 6..] == " (dev)") <==> !v.released
  {
    var r := VersionString(v);
    if v.released {
      ReleasedEndsInDigit(v);
    } else {
      var w := r[..|r| - 6];
      assert r == w + " (dev)";
    }
  }

  /** The readable string is a single word exactly for a released `final` version. */
  lemma VersionStringHasSpaceIff(v: VersionTuple)
    ensures NoSpace(VersionString(v)) <==> v.tag == "final" && v.released
  {
    var n := NumberPart(v.major, v.minor, v.micro, v.patch);
    var r := VersionString(v);
    NumberPartNoSpace(v.major, v.minor, v.micro, v.patch);
    if !(v.tag == "final" && v.released) {
      assert r[|n|] == ' ';
    }
  }

  /** The words the tag adds to the readable string. */
  function TagList(v: VersionTuple): seq<string> {
    if v.tag == "final" then [] else if v.tag == "rc" then ["RC" + NatToString(v.relnum)]
    else [v.tag, NatToString(v.relnum)]
  }

  /** The word the development marker adds to the readable string. */
  function DevList(v: VersionTuple): seq<string> {
    if v.released then [] else ["(dev)"]
  }

  /** The words the tag and the development marker add to the readable string. */
  function TagWords(v: VersionTuple): seq<string> {
    TagList(v) + DevList(v)
  }

  function TagText(v: VersionTuple): string {
    if v.tag == "final" then "" else if v.tag == "rc" then " RC" + NatToString(v.relnum)
    else " " + v.tag + " " + NatToString(v.relnum)
  }

  function DevText(v: VersionTuple): string {
    if v.released then "" else " (dev)"
  }

  lemma VersionStringText(v: VersionTuple)
    ensures VersionString(v) == NumberPart(v.major, v.minor, v.micro, v.patch) + TagText(v) + DevText(v)
  {
    var n := NumberPart(v.major, v.minor, v.micro, v.patch);
    var rel := NatToString(v.relnum);
    var a := if v.tag != "final" then
               if v.tag == "rc" then n + " RC" + rel else n + " " + v.tag + " " + rel
             else n;
    assert a == n + TagText(v) by {
      if v.tag == "final" {
        assert TagText(v) == "";
      } else if v.tag == "rc" {
        assert TagText(v) == " RC" + rel;
      } else {
        assert TagText(v) == " " + v.tag + " " + rel;
      }
    }
    assert VersionString(v) == if !v.released then a + " (dev)" else a;
  }

  lemma TagListJoin(n: string, v: VersionTuple)
    ensures JoinWith([n] + TagList(v), " ") == n + TagText(v)
  {
    var rel := NatToString(v.relnum);
    if v.tag == "final" {
      assert [n] + TagList(v) == [n];
    } else if v.tag == "rc" {
      JoinWithAppend([n], TagList(v), " ");
    } else {
      JoinWithAppend([n], TagList(v), " ");
      JoinWithAppend([v.tag], [rel], " ");
      assert [v.tag] + [rel] == TagList(v);
    }
  }

  /** The readable string is its words joined by single spaces: the dotted
      numbers, then the tag words, then `(dev)` for a version not released. */
  lemma VersionStringIsJoin(v: VersionTuple)
    ensures VersionString(v) == JoinWith([NumberPart(v.major, v.minor, v.micro, v.patch)] + TagWords(v), " ")
  {
    var n := NumberPart(v.major, v.minor, v.micro, v.patch);
    var head := [n] + TagList(v);
    VersionStringText(v);
    TagListJoin(n, v);
    assert [n] + TagWords(v) == head + DevList(v);
    if !v.released {
      JoinWithAppend(head, DevList(v), " ");
    } else {
      assert head + DevList(v) == head;
    }
  }

  /** `get_version_string().split()`: for a tag that is one word, the
      readable string splits into the dotted numbers, the tag words and the
      development marker. */
  lemma VersionStringWords(v: VersionTuple)
    requires v.tag != "" && NoSpace(v.tag)
    ensures Words(VersionString(v)) == [NumberPart(v.major, v.minor, v.micro, v.patch)] + TagWords(v)
  {
    var ws := [NumberPart(v.major, v.minor, v.micro, v.patch)] + TagWords(v);
    var rel := NatToString(v.relnum);
    NumberPartNoSpace(v.major, v.minor, v.micro, v.patch);
    DigitsNoSpace(rel);
    assert NoSpace("RC" + rel);
    assert NoSpace("(dev)");
    VersionStringIsJoin(v);
    WordsJoin(ws);
  }

  /** Different versions, with one-word tags, have different readable
      strings: the string gives back the numbers it shows, the tag, the
      release number when a tag is shown, and the released flag. */
  lemma VersionStringInjective(v: VersionTuple, w: VersionTuple)
    requires v.tag != "" && NoSpace(v.tag) && w.tag != "" && NoSpace(w.tag)
    requires VersionString(v) == VersionString(w)
    ensures v.major == w.major && v.minor == w.minor && v.patch == w.patch
    ensures v.micro != 0 || v.patch != 0 ==> v.micro == w.micro
    ensures v.tag == w.tag && v.released == w.released
    ensures v.tag != "final" ==> v.relnum == w.relnum
  {
    VersionStringWords(v);
    VersionStringWords(w);
    var nv := NumberPart(v.major, v.minor, v.micro, v.patch);
    var nw := NumberPart(w.major, w.minor, w.micro, w.patch);
    assert ([nv] + TagWords(v))[0] == nv && ([nw] + TagWords(w))[0] == nw;
    assert ([nv] + TagWords(v))[1..] == TagWords(v) && ([nw] + TagWords(w))[1..] == TagWords(w);
    NumberPartInjective(v.major, v.minor, v.micro, v.patch, w.major, w.minor, w.micro, w.patch);
    TagWordsInjective(v, w);
  }

  /** The tag words give back the tag, the release number when a tag is
      shown, and the released flag. */
  lemma TagWordsInjective(v: VersionTuple, w: VersionTuple)
    requires v.tag != "" && NoSpace(v.tag) && w.tag != "" && NoSpace(w.tag)
    requires TagWords(v) == TagWords(w)
    ensures v.tag == w.tag && v.released == w.released
    ensures v.tag != "final" ==> v.relnum == w.relnum
  {
    var lv, lw := TagList(v), TagList(w);
    assert v.released == w.released by {
      DevListIffUnreleased(v);
      DevListIffUnreleased(w);
    }
    assert lv == TagWords(v)[..|lv|] && lw == TagWords(w)[..|lw|];
    assert lv == lw;
    if v.tag == "rc" {
      assert lv[0][2..] == NatToString(v.relnum) && lw[0][2..] == NatToString(w.relnum);
      NatToStringInjective(v.relnum, w.relnum);
    } else if v.tag != "final" {
      NatToStringInjective(v.relnum, w.relnum);
    }
  }

  /** The tag words end in `(dev)` exactly for a version not released. */
  lemma DevListIffUnreleased(v: VersionTuple)
    requires v.tag != "" && NoSpace(v.tag)
    ensures |TagWords(v)| > 0 && TagWords(v)[|TagWords(v)| - 1] == "(dev)" <==> !v.released
  {
    if v.released && v.tag != "final" {
      var t := TagWords(v);
      if v.tag == "rc" {
        assert t[|t| - 1][0] == 'R';
      } else {
        assert t[|t| - 1] == NatToString(v.relnum);
        assert IsDigits(NatToString(v.relnum));
        assert t[|t| - 1][0] != '(';
      }
    }
  }

  /***** The package version *****/

  /** The package version is the dotted numbers, followed for a non-final
      tag by the normalised tag and the release number with no separator. */
  lemma PackageVersionShape(info: VersionInfo)
    ensures var n := NumberPart(info.major, info.minor, info.micro, info.patch);
            var r := PackageVersion(info);
            && (info.tag == "final" ==> r == n)
            && (info.tag != "final" ==> r == n + NormTag(info.tag) + NatToString(info.relnum))
  {
  }

  /** A final package version parses back to exactly the shown numbers. */
  lemma FinalPackageVersionParses(info: VersionInfo)
    requires info.tag == "final"
    ensures ParsedVersion(PackageVersion(info)) == Numbers(ShownNumbers(info.major, info.minor, info.micro, info.patch))
  {
    NumberPartIsJoin(info.major, info.minor, info.micro, info.patch);
    ParseJoinedNumbers(ShownNumbers(info.major, info.minor, info.micro, info.patch));
  }

  /** `parse_version` of a pre-release package version: the tag and the
      release number stay fused to the last shown number, which therefore
      parses as a string part; `1.1rc1` reads as `(1, '1rc1')`. */
  lemma PreReleasePackageVersionParses(info: VersionInfo)
    requires info.tag != "final" && info.tag != "" && !IsDigits(info.tag) && '.' !in info.tag
    ensures var ns := ShownNumbers(info.major, info.minor, info.micro, info.patch);
            var k := |ns| - 1;
            ParsedVersion(PackageVersion(info))
            == Numbers(ns[..k]) + [Str(NatToString(ns[k]) + NormTag(info.tag) + NatToString(info.relnum))]
  {
    var ns := ShownNumbers(info.major, info.minor, info.micro, info.patch);
    var k := |ns| - 1;
    var fields := PreReleaseFields(info);
    PreReleaseIsJoin(info);
    PreReleaseFieldsShape(info);
    ParsedVersionOfFields(fields);
    forall i | 0 <= i < k ensures ParsePart(fields[i]) == Num(ns[i]) {
      ParsePartOfNumber(ns[i]);
    }
  }

  /** The fields of a pre-release package version: the shown numbers, the
      last one followed by the tag and the release number. */
  function PreReleaseFields(info: VersionInfo): seq<string> {
    var fs := NumberFields(ShownNumbers(info.major, info.minor, info.micro, info.patch));
    fs[..|fs| - 1] + [fs[|fs| - 1] + NormTag(info.tag) + NatToString(info.relnum)]
  }

  lemma PreReleaseIsJoin(info: VersionInfo)
    requires info.tag != "final"
    ensures PackageVersion(info) == JoinWith(PreReleaseFields(info), ".")
  {
    var fs := NumberFields(ShownNumbers(info.major, info.minor, info.micro, info.patch));
    var k := |fs| - 1;
    var x := NormTag(info.tag) + NatToString(info.relnum);
    assert PackageVersion(info) == JoinWith(fs, ".") + x by {
      PackageVersionShape(info);
      NumberPartIsJoin(info.major, info.minor, info.micro, info.patch);
    }
    assert fs[k] + NormTag(info.tag) + NatToString(info.relnum) == fs[k] + x;
    assert PreReleaseFields(info) == fs[..k] + [fs[k] + x];
    JoinWithExtendLast(fs, x, ".");
  }

  lemma PreReleaseFieldsShape(info: VersionInfo)
    requires info.tag != "" && !IsDigits(info.tag) && '.' !in info.tag
    ensures var ns := ShownNumbers(info.major, info.minor, info.micro, info.patch);
            var fields := PreReleaseFields(info);
            var k := |ns| - 1;
            |fields| == |ns| && (forall i :: 0 <= i < |fields| ==> '.' !in fields[i])
            && (forall i :: 0 <= i < k ==> fields[i] == NatToString(ns[i]))
            && fields[k] == NatToString(ns[k]) + NormTag(info.tag) + NatToString(info.relnum)
            && !IsDigits(fields[k])
  {
    var ns := ShownNumbers(info.major, info.minor, info.micro, info.patch);
    var k := |ns| - 1;
    var fields := PreReleaseFields(info);
    assert fields[k] == NatToString(ns[k]) + NormTag(info.tag) + NatToString(info.relnum);
    TaggedFieldShape(NatToString(ns[k]), info.tag, NatToString(info.relnum));
    forall i | 0 <= i < k ensures '.' !in fields[i] {
      DigitsNoDot(NatToString(ns[i]));
    }
  }

  /** A number, a tag with a non-digit and no `.`, and a number, run together:
      a field that is not a number and has no `.`. */
  lemma TaggedFieldShape(d: string, tag: string, rel: string)
    requires IsDigits(d) && IsDigits(rel)
    requires tag != "" && !IsDigits(tag) && '.' !in tag
    ensures '.' !in d + NormTag(tag) + rel && !IsDigits(d + NormTag(tag) + rel)
  {
    var t := NormTag(tag);
    var last := d + t + rel;
    var j :| 0 <= j < |tag| && !IsDigit(tag[j]);
    var j' := if tag == "alpha" || tag == "beta" then 0 else j;
    assert !IsDigit(t[j']);
    assert last[|d| + j'] == t[j'];
    DigitsNoDot(d);
    DigitsNoDot(rel);
    assert forall c :: c in last ==> c in d || c in t || c in rel;
  }

  lemma DigitsNoDot(s: string)
    requires IsDigits(s)
    ensures '.' !in s
  {
  }

  /** A package version has no whitespace unless a non-final tag brings some. */
  lemma PackageVersionNoSpaceIff(info: VersionInfo)
    ensures NoSpace(PackageVersion(info)) <==> info.tag == "final" || NoSpace(info.tag)
  {
    var n := NumberPart(info.major, info.minor, info.micro, info.patch);
    var rel := NatToString(info.relnum);
    NumberPartNoSpace(info.major, info.minor, info.micro, info.patch);
    DigitsNoSpace(rel);
    if info.tag != "final" {
      var t := NormTag(info.tag);
      var r := n + t + rel;
      assert r == PackageVersion(info);
      if !NoSpace(info.tag) {
        var j :| 0 <= j < |info.tag| && IsSpace(info.tag[j]);
        assert t == info.tag;
        assert r[|n| + j] == info.tag[j];
      }
    }
  }

  /** The package version does not depend on the released flag, and for a
      released `final` version the two formatters agree. */
  lemma FormattersAgree(v: VersionTuple)
    ensures PackageVersionOf(v) == PackageVersionOf(v.(released := !v.released))
    ensures v.tag == "final" && v.released ==> VersionString(v) == PackageVersionOf(v)
  {
  }

  /** The installer's current version: `1.1`, released. */
  lemma CurrentVersion()
    ensures VersionString(Version) == "1.1"
    ensures PackageVersionOf(Version) == "1.1"
    ensures IsRelease(Version)
    ensures VersionInfoOf(Version) == VersionInfo(1, 1, 0, 0, "final", 0)
  {
    assert NatToString(1) == "1";
  }
}
