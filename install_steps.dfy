/** The install-step planner of rbinstall/install_steps.py.

    `GetInstallPackageSteps` walks the candidates of the requested categories
    in declared order, keeps the ones whose match tests pass and gathers their
    setup commands and packages into per-method buckets. It is proved against
    `Fold`, a left fold of `Step` over the candidates, whose properties are
    proved in module InstallStepsProperties. */
module InstallSteps {
  import opened Wrappers
  import opened Strings
  import opened Versioning
  import opened InstallMethods
  import opened DistroInfo

  /***** Data model *****/

  /** `SystemInfo`, without `system_python_version`, which nothing here reads.
      The four distro fields are only filled in on Linux. */
  datatype SystemInfo = SystemInfo(
    arch: string,
    bootstrapPythonExe: string,
    paths: map<string, string>,
    systemInstallMethod: InstallMethod,
    system: string,
    systemPythonExe: string,
    version: string,
    distroFamilies: Option<set<string>>,
    distroFullName: Option<string>,
    distroId: Option<string>,
    distroName: Option<string>)

  /** The one field of a package version record that the planner reads. */
  datatype PackageVersionInfo = PackageVersionInfo(version: string)

  /** The parts of `InstallState` that the planner reads. */
  datatype InstallState = InstallState(
    systemInfo: SystemInfo,
    reviewboardVersionInfo: PackageVersionInfo,
    powerpackVersionInfo: Option<PackageVersionInfo>,
    reviewbotExtensionVersionInfo: Option<PackageVersionInfo>,
    reviewbotWorkerVersionInfo: Option<PackageVersionInfo>,
    venvPath: string)

  /** `_InstallStep`; `allowFail` is `None` where the key is absent. Every
      step this module builds carries a list of strings as its state. */
  datatype InstallStep = InstallStep(
    installMethod: InstallMethod,
    name: string,
    allowFail: Option<bool>,
    state: seq<string>)

  /** The bucket key `(install_method, block_i)`. */
  datatype BucketKey = BucketKey(installMethod: InstallMethod, index: int)

  /** `PACKAGES[category]` raised `KeyError`. */
  datatype Error = UnknownCategory(name: string)

  /** What a match test sees: the system record and the two parsed versions. */
  datatype Target = Target(system: SystemInfo, rbVersion: seq<Part>, distroVersion: seq<Part>)

  function TargetOf(st: InstallState): Target {
    Target(st.systemInfo, ParsedVersion(st.reviewboardVersionInfo.version),
           ParsedVersion(st.systemInfo.version))
  }

  /** The planner's working state: the three dictionaries, the insertion
      order of their keys, the setup commands and the flag set. */
  datatype Plan = Plan(
    setupCommands: seq<seq<string>>,
    order: seq<BucketKey>,
    packages: map<BucketKey, seq<string>>,
    packagesSet: map<BucketKey, set<string>>,
    allowFail: map<BucketKey, bool>,
    flags: set<string>)

  const EmptyPlan: Plan := Plan([], [], map[], map[], map[], {})

  function Elems(s: seq<string>): set<string> {
    set x | x in s
  }

  /** The invariant every plan keeps: the three dictionaries share their keys,
      `order` lists those keys once each, a bucket's set never holds a name
      its list lacks, and a bucket allows failure exactly when its index is
      a candidate's own. */
  ghost predicate WellFormed(p: Plan) {
    (forall a, b :: 0 <= a < b < |p.order| ==> p.order[a] != p.order[b])
    && (forall k :: k in p.packages <==> k in p.order)
    && p.packagesSet.Keys == p.packages.Keys
    && p.allowFail.Keys == p.packages.Keys
    && (forall k :: k in p.packagesSet ==> p.packagesSet[k] <= Elems(p.packages[k]))
    && (forall k :: k in p.allowFail ==> p.allowFail[k] == (k.index != -1))
  }

  /***** Candidate gathering *****/

  /** The categories `get_install_steps` asks for, in its order. */
  const InstallCategories: seq<string> := [
    "common", "cvs", "django-storages", "git", "memcached", "mercurial",
    "mysql", "perforce", "postgres", "subversion", "saml"]

  /** `bundle.get(package_type, [])`. */
  function TypeCandidates(bundle: Bundle, packageType: string): seq<Candidate> {
    if packageType in bundle then bundle[packageType] else []
  }

  /** The chained candidates of the categories, in order; the first category
      missing from the table is the `KeyError`. */
  function CandidatesFor(categories: seq<string>, packageType: string): (r: Result<seq<Candidate>, Error>)
    ensures r.Success? <==> forall k :: 0 <= k < |categories| ==> categories[k] in Packages
    ensures r.Failure? ==> r.error.name in categories && r.error.name !in Packages
  {
    if categories == [] then Success([])
    else if categories[0] !in Packages then Failure(UnknownCategory(categories[0]))
    else
      match CandidatesFor(categories[1..], packageType)
      case Failure(e) => Failure(e)
      case Success(rest) => Success(TypeCandidates(Packages[categories[0]], packageType) + rest)
  }

  /***** The match tests *****/

  /** A missing method, or `SYSTEM_DEFAULT`, stands for the system's own method. */
  function ResolvedMethod(t: Target, c: Candidate): InstallMethod {
    var m := c.installMethod.GetOr(SystemDefault);
    if m == SystemDefault then t.system.systemInstallMethod else m
  }

  predicate Supported(t: Target, m: InstallMethod) {
    m in CommonInstallMethods || m == t.system.systemInstallMethod
  }

  /** Python truthiness of an optional set or string. */
  predicate NonEmptySet(o: Option<set<string>>) {
    o.Some? && o.value != {}
  }

  predicate NonEmptyString(o: Option<string>) {
    o.Some? && o.value != ""
  }

  /** Each required flag is present exactly when it is required to be true. */
  predicate FlagsHold(hasFlags: seq<(string, bool)>, flags: set<string>) {
    forall k :: 0 <= k < |hasFlags| ==> (hasFlags[k].0 in flags <==> hasFlags[k].1)
  }

  /** A candidate is accepted when every constraint it gives holds. */
  predicate Accepts(t: Target, flags: set<string>, c: Candidate) {
    var m := c.matchInfo;
    var sys := t.system;
    (m.systems.None? || sys.system in m.systems.value)
    && (m.archs.None? || sys.arch in m.archs.value)
    && Supported(t, ResolvedMethod(t, c))
    && !(NonEmptySet(sys.distroFamilies) && NonEmptySet(m.distroFamilies)
         && m.distroFamilies.value * sys.distroFamilies.value == {})
    && (!NonEmptyString(sys.distroId) || m.distroIds.None? || sys.distroId.value in m.distroIds.value)
    && (m.distroVersion.None? || VersionMatches(m.distroVersion.value, t.distroVersion))
    && (m.rbVersion.None? || VersionMatches(m.rbVersion.value, t.rbVersion))
    && FlagsHold(m.hasFlags, flags)
  }

  /***** Effects of an accepted candidate *****/

  /** The value the last entry for `name` gives it, if any entry does. */
  function LastSetting(setFlags: seq<(string, bool)>, name: string): Option<bool> {
    if setFlags == [] then None
    else if setFlags[|setFlags| - 1].0 == name then Some(setFlags[|setFlags| - 1].1)
    else LastSetting(setFlags[..|setFlags| - 1], name)
  }

  /** `flags.add` / `flags.discard` for each entry in turn. */
  function ApplyFlags(flags: set<string>, setFlags: seq<(string, bool)>): set<string>
    decreases |setFlags|
  {
    if setFlags == [] then flags
    else
      var n := |setFlags| - 1;
      var prev := ApplyFlags(flags, setFlags[..n]);
      if setFlags[n].1 then prev + {setFlags[n].0} else prev - {setFlags[n].0}
  }

  /** A name mentioned ends up present exactly when its last entry says true;
      any other name keeps its old presence. */
  lemma {:induction false} ApplyFlagsLast(flags: set<string>, setFlags: seq<(string, bool)>, name: string)
    ensures name in ApplyFlags(flags, setFlags) <==> LastSetting(setFlags, name).GetOr(name in flags)
    decreases |setFlags|
  {
    if setFlags != [] {
      ApplyFlagsLast(flags, setFlags[..|setFlags| - 1], name);
    }
  }

  /** The index of the first occurrence of `x`. */
  function FirstIndex(list: seq<string>, x: string): (k: nat)
    requires x in list
    ensures k < |list| && list[k] == x && x !in list[..k]
  {
    if list[0] == x then 0
    else
      assert x in list[1..] by {
        assert list == [list[0]] + list[1..];
      }
      var k := 1 + FirstIndex(list[1..], x);
      assert list[..k] == [list[0]] + list[1..][..k - 1];
      k
  }

  /** `list.remove(x)`: drops the first occurrence (the caller makes sure
      there is one). `RemoveFirstKeepsOrder` shows that the other names keep
      their order, and `RemoveFirstMultiset` that exactly one `x` goes. */
  function RemoveFirst(list: seq<string>, x: string): (r: seq<string>)
    ensures x !in list ==> r == list
    ensures forall y :: y in list && y != x ==> y in r
  {
    if list == [] then []
    else
      assert list == [list[0]] + list[1..];
      if list[0] == x then list[1..] else [list[0]] + RemoveFirst(list[1..], x)
  }

  /** `list.remove(x)` cuts out exactly the first occurrence of `x`. */
  lemma RemoveFirstKeepsOrder(list: seq<string>, x: string)
    requires x in list
    ensures RemoveFirst(list, x) == list[..FirstIndex(list, x)] + list[FirstIndex(list, x) + 1..]
  {
    var k := FirstIndex(list, x);
    RemoveFirstAt(list, x, k);
  }

  /** `list.remove(x)` takes away one occurrence of `x` and nothing else. */
  lemma RemoveFirstMultiset(list: seq<string>, x: string)
    requires x in list
    ensures multiset(RemoveFirst(list, x)) == multiset(list) - multiset{x}
  {
    var k := FirstIndex(list, x);
    RemoveFirstKeepsOrder(list, x);
    assert list == list[..k] + [x] + list[k + 1..];
  }

  lemma {:induction false} RemoveFirstAt(list: seq<string>, x: string, k: nat)
    requires k < |list| && list[k] == x && x !in list[..k]
    ensures RemoveFirst(list, x) == list[..k] + list[k + 1..]
  {
    if k > 0 {
      var tail := list[1..];
      assert list[0] != x by {
        assert list[0] == list[..k][0];
      }
      assert tail[..k - 1] == list[1..k];
      assert x !in tail[..k - 1] by {
        assert forall c :: c in list[1..k] ==> c in list[..k];
      }
      RemoveFirstAt(tail, x, k - 1);
      assert list[..k] == [list[0]] + tail[..k - 1];
      assert list[k + 1..] == tail[k..];
    }
  }

  /** The skip loop on one bucket's list and set. */
  function ApplySkips(list: seq<string>, members: set<string>, skips: seq<string>): (seq<string>, set<string>)
    decreases |skips|
  {
    if skips == [] then (list, members)
    else
      var n := |skips| - 1;
      var prev := ApplySkips(list, members, skips[..n]);
      var x := skips[n];
      if x in prev.1 then (RemoveFirst(prev.0, x), prev.1 - {x}) else prev
  }

  /** Each skipped name still in the bucket's set leaves the set and loses one
      occurrence in the list; any other skip does nothing. So the set never
      outgrows the list, and `list.remove` always finds its name. */
  lemma {:induction false} ApplySkipsSpec(list: seq<string>, members: set<string>, skips: seq<string>)
    requires members <= Elems(list)
    ensures var r := ApplySkips(list, members, skips);
            r.1 <= Elems(r.0) && r.1 == members - Elems(skips)
            && multiset(r.0) == multiset(list) - multiset(members * Elems(skips))
    decreases |skips|
  {
    if skips != [] {
      var n := |skips| - 1;
      ApplySkipsSpec(list, members, skips[..n]);
      var prev := ApplySkips(list, members, skips[..n]);
      SkipStep(list, members, skips, prev.0, prev.1);
    }
  }

  /** One turn of the skip loop keeps the three facts of `ApplySkipsSpec`. */
  lemma SkipStep(list: seq<string>, members: set<string>, skips: seq<string>, cur: seq<string>, curSet: set<string>)
    requires skips != []
    requires curSet <= Elems(cur)
    requires curSet == members - Elems(skips[..|skips| - 1])
    requires multiset(cur) == multiset(list) - multiset(members * Elems(skips[..|skips| - 1]))
    ensures var x := skips[|skips| - 1];
            var r := if x in curSet then (RemoveFirst(cur, x), curSet - {x}) else (cur, curSet);
            r.1 <= Elems(r.0) && r.1 == members - Elems(skips)
            && multiset(r.0) == multiset(list) - multiset(members * Elems(skips))
  {
    var n := |skips| - 1;
    var x := skips[n];
    var done := Elems(skips[..n]);
    assert skips == skips[..n] + [x];
    assert Elems(skips) == done + {x};
    if x in curSet {
      assert x in cur;
      RemoveFirstMultiset(cur, x);
      assert members * (done + {x}) == (members * done) + {x};
      assert x !in members * done;
      assert multiset((members * done) + {x}) == multiset(members * done) + multiset{x};
      MultisetDiffDiff(multiset(list), multiset(members * done), multiset{x});
    } else {
      assert members * Elems(skips) == members * done;
    }
  }

  lemma MultisetDiffDiff(a: multiset<string>, b: multiset<string>, c: multiset<string>)
    ensures (a - b) - c == a - (b + c)
  {
    forall y
      ensures ((a - b) - c)[y] == (a - (b + c))[y]
    {
    }
  }

  function KeyOf(t: Target, i: nat, c: Candidate): BucketKey {
    BucketKey(ResolvedMethod(t, c), if c.allowFail then i else -1)
  }

  /** Writing one bucket, created last if it is new, keeps `WellFormed`. */
  lemma UpdateKeepsWellFormed(p: Plan, key: BucketKey, list: seq<string>, members: set<string>,
                              allowFail: bool, commands: seq<seq<string>>, flags: set<string>)
    requires WellFormed(p)
    requires members <= Elems(list)
    requires allowFail == (key.index != -1)
    ensures WellFormed(Plan(commands, if key !in p.packages then p.order + [key] else p.order,
                            p.packages[key := list], p.packagesSet[key := members],
                            p.allowFail[key := allowFail], flags))
  {
    var order := if key !in p.packages then p.order + [key] else p.order;
    forall a, b | 0 <= a < b < |order|
      ensures order[a] != order[b]
    {
      if key !in p.packages && b == |p.order| {
        assert order[a] == p.order[a];
        assert p.order[a] in p.packages;
      }
    }
    forall k
      ensures k in p.packages[key := list] <==> k in order
    {
      assert k in p.packages <==> k in p.order;
    }
  }

  /** The effect of accepting candidate `i`: its commands are appended, its
      bucket is created if new (`setdefault`), its flags are applied, its
      packages are appended and then its skips are applied. */
  function Accept(t: Target, p: Plan, i: nat, c: Candidate): Plan {
    var key := KeyOf(t, i, c);
    var created := key !in p.packages;
    var list0 := if created then [] else p.packages[key];
    var set0 := if key in p.packagesSet then p.packagesSet[key] else {};
    var bucket := ApplySkips(list0 + c.packages, set0 + Elems(c.packages), c.skipPackages);
    Plan(p.setupCommands + c.commands,
         if created then p.order + [key] else p.order,
         p.packages[key := bucket.0],
         p.packagesSet[key := bucket.1],
         p.allowFail[key := c.allowFail],
         ApplyFlags(p.flags, c.setFlags))
  }

  /** Accepting a candidate keeps the plan invariant. */
  lemma AcceptKeepsWellFormed(t: Target, p: Plan, i: nat, c: Candidate)
    requires WellFormed(p)
    ensures WellFormed(Accept(t, p, i, c))
  {
    var key := KeyOf(t, i, c);
    var list0 := if key !in p.packages then [] else p.packages[key];
    var set0 := if key in p.packagesSet then p.packagesSet[key] else {};
    assert set0 + Elems(c.packages) <= Elems(list0 + c.packages);
    ApplySkipsSpec(list0 + c.packages, set0 + Elems(c.packages), c.skipPackages);
    var bucket := ApplySkips(list0 + c.packages, set0 + Elems(c.packages), c.skipPackages);
    UpdateKeepsWellFormed(p, key, bucket.0, bucket.1, c.allowFail, p.setupCommands + c.commands,
                          ApplyFlags(p.flags, c.setFlags));
  }

  /** One turn of the candidate loop. */
  function Step(t: Target, p: Plan, i: nat, c: Candidate): Plan {
    if Accepts(t, p.flags, c) then Accept(t, p, i, c) else p
  }

  /** The plan after the loop has seen the first `n` of `cands`. */
  function Fold(t: Target, cands: seq<Candidate>, n: nat): Plan
    requires n <= |cands|
  {
    if n == 0 then EmptyPlan
    else Step(t, Fold(t, cands, n - 1), n - 1, cands[n - 1])
  }

  /** Every plan the loop reaches keeps the invariant. */
  lemma {:induction false} FoldWellFormed(t: Target, cands: seq<Candidate>, n: nat)
    requires n <= |cands|
    ensures WellFormed(Fold(t, cands, n))
  {
    if n == 0 {
      EmptyPlanWellFormed();
    } else {
      var p := Fold(t, cands, n - 1);
      assert WellFormed(Step(t, p, n - 1, cands[n - 1])) by {
        FoldWellFormed(t, cands, n - 1);
        StepKeepsWellFormed(t, p, n - 1, cands[n - 1]);
      }
    }
  }

  lemma EmptyPlanWellFormed()
    ensures WellFormed(EmptyPlan)
  {
  }

  lemma StepKeepsWellFormed(t: Target, p: Plan, i: nat, c: Candidate)
    requires WellFormed(p)
    ensures WellFormed(Step(t, p, i, c))
  {
    if Accepts(t, p.flags, c) {
      AcceptKeepsWellFormed(t, p, i, c);
    }
  }

  /***** Rendering *****/

  function SetupStep(command: seq<string>): InstallStep {
    InstallStep(Shell, "Setting up support for packages", None, command)
  }

  function SetupSteps(commands: seq<seq<string>>): seq<InstallStep> {
    seq(|commands|, k requires 0 <= k < |commands| => SetupStep(commands[k]))
  }

  function BucketSteps(p: Plan, keys: seq<BucketKey>, name: string): seq<InstallStep>
    requires forall k :: k in keys ==> k in p.packages && k in p.allowFail
  {
    if keys == [] then []
    else
      var n := |keys| - 1;
      BucketSteps(p, keys[..n], name)
        + [InstallStep(keys[n].installMethod, name, Some(p.allowFail[keys[n]]), p.packages[keys[n]])]
  }

  /** `description or 'Installing packages'`. */
  function StepName(description: string): string {
    if description != "" then description else "Installing packages"
  }

  ghost function Render(p: Plan, name: string): seq<InstallStep>
    requires WellFormed(p)
  {
    SetupSteps(p.setupCommands) + BucketSteps(p, p.order, name)
  }

  /** What `get_install_package_steps` returns. */
  ghost function PackageSteps(st: InstallState, categories: seq<string>, packageType: string,
                              description: string): Result<seq<InstallStep>, Error>
  {
    match CandidatesFor(categories, packageType)
    case Failure(e) => Failure(e)
    case Success(cands) =>
      FoldWellFormed(TargetOf(st), cands, |cands|);
      Success(Render(Fold(TargetOf(st), cands, |cands|), StepName(description)))
  }

  /***** The planner *****/

  /** The chain of match tests of the loop body, in the source's order; the
      first failing test rejects the candidate. Also gives the resolved method. */
  method MatchCandidate(t: Target, supportedInstallMethods: set<InstallMethod>, flags: set<string>,
                        candidate: Candidate)
    returns (accepted: bool, installMethod: InstallMethod)
    requires supportedInstallMethods == CommonInstallMethods + {t.system.systemInstallMethod}
    ensures accepted == Accepts(t, flags, candidate)
    ensures installMethod == ResolvedMethod(t, candidate)
  {
    var sys := t.system;
    var matchInfo := candidate.matchInfo;
    installMethod := candidate.installMethod.GetOr(SystemDefault);
    if installMethod == SystemDefault {
      installMethod := sys.systemInstallMethod;
    }
    accepted := false;

    if sys.system !in matchInfo.systems.GetOr({sys.system}) {
      return;
    }
    if sys.arch !in matchInfo.archs.GetOr({sys.arch}) {
      return;
    }
    if installMethod !in supportedInstallMethods {
      return;
    }
    var matchDistroFamilies := matchInfo.distroFamilies.GetOr({});
    if sys.distroFamilies.Some? && sys.distroFamilies.value != {}
       && matchDistroFamilies != {}
       && matchDistroFamilies * sys.distroFamilies.value == {} {
      return;
    }
    if sys.distroId.Some? && sys.distroId.value != ""
       && sys.distroId.value !in matchInfo.distroIds.GetOr({sys.distroId.value}) {
      return;
    }
    if matchInfo.distroVersion.Some? && !VersionMatches(matchInfo.distroVersion.value, t.distroVersion) {
      return;
    }
    if matchInfo.rbVersion.Some? && !VersionMatches(matchInfo.rbVersion.value, t.rbVersion) {
      return;
    }
    var hasFlags := matchInfo.hasFlags;
    if hasFlags != [] {
      for j := 0 to |hasFlags|
        invariant forall k :: 0 <= k < j ==> (hasFlags[k].0 in flags <==> hasFlags[k].1)
      {
        var (flagName, flagValue) := hasFlags[j];
        if (flagValue && flagName !in flags) || (!flagValue && flagName in flags) {
          return;
        }
      }
    }
    accepted := true;
  }

  /** The `set_flags` loop: `add` for a true value, `discard` for a false one. */
  method UpdateFlags(flags: set<string>, setFlags: seq<(string, bool)>) returns (r: set<string>)
    ensures r == ApplyFlags(flags, setFlags)
  {
    r := flags;
    for j := 0 to |setFlags|
      invariant r == ApplyFlags(flags, setFlags[..j])
    {
      var (flagName, flagValue) := setFlags[j];
      if flagValue {
        r := r + {flagName};
      } else {
        r := r - {flagName};
      }
      assert setFlags[..j + 1][..j] == setFlags[..j];
    }
    assert setFlags[..|setFlags|] == setFlags;
  }

  /** The `skip_packages` loop on one bucket's list and set. */
  method SkipPackages(list: seq<string>, members: set<string>, skips: seq<string>)
    returns (packagesForType: seq<string>, packagesSetForType: set<string>)
    requires members <= Elems(list)
    ensures (packagesForType, packagesSetForType) == ApplySkips(list, members, skips)
  {
    packagesForType, packagesSetForType := list, members;
    for j := 0 to |skips|
      invariant (packagesForType, packagesSetForType) == ApplySkips(list, members, skips[..j])
    {
      var package := skips[j];
      assert skips[..j + 1][..j] == skips[..j];
      if package in packagesSetForType {
        // `list.remove` cannot raise here: the set never outgrows the list.
        ApplySkipsSpec(list, members, skips[..j]);
        assert package in packagesForType;
        packagesForType := RemoveFirst(packagesForType, package);
        packagesSetForType := packagesSetForType - {package};
      }
    }
    assert skips[..|skips|] == skips;
  }

  /** The output loop: one step per bucket, in the order the buckets were made. */
  method BucketStepsOf(plan: Plan, name: string) returns (steps: seq<InstallStep>)
    requires WellFormed(plan)
    ensures steps == BucketSteps(plan, plan.order, name)
  {
    steps := [];
    for k := 0 to |plan.order|
      invariant steps == BucketSteps(plan, plan.order[..k], name)
    {
      var key := plan.order[k];
      assert plan.order[..k + 1][..k] == plan.order[..k];
      steps := steps + [InstallStep(key.installMethod, name, Some(plan.allowFail[key]), plan.packages[key])];
    }
    assert plan.order[..|plan.order|] == plan.order;
  }

  /** The effect of an accepted candidate on the three dictionaries, the
      commands and the flags. */
  method AcceptCandidate(t: Target, p: Plan, i: nat, candidate: Candidate, installMethod: InstallMethod)
    returns (q: Plan)
    requires WellFormed(p)
    requires installMethod == ResolvedMethod(t, candidate)
    ensures q == Accept(t, p, i, candidate)
  {
    var packages, packagesSet, allowFailMap := p.packages, p.packagesSet, p.allowFail;
    var setupCommands := p.setupCommands + candidate.commands;
    var order := p.order;
    var allowFail := candidate.allowFail;
    var blockI := if allowFail then i else -1;
    var key := BucketKey(installMethod, blockI);
    // `setdefault`: a new key is placed last and starts out empty; the
    // lists and sets are written back once they are complete.
    if key !in packages {
      order := order + [key];
    }
    var packagesForType := if key in packages then packages[key] else [];
    var packagesSetForType := if key in packagesSet then packagesSet[key] else {};
    allowFailMap := allowFailMap[key := allowFail];
    var flags := UpdateFlags(p.flags, candidate.setFlags);
    ghost var list0, set0 := packagesForType, packagesSetForType;
    assert key == KeyOf(t, i, candidate);
    assert list0 == if key !in p.packages then [] else p.packages[key];
    assert set0 == if key in p.packagesSet then p.packagesSet[key] else {};
    if candidate.packages != [] {
      packagesForType := packagesForType + candidate.packages;
      packagesSetForType := packagesSetForType + Elems(candidate.packages);
    } else {
      assert list0 + candidate.packages == list0;
      assert Elems(candidate.packages) == {};
    }
    assert packagesForType == list0 + candidate.packages;
    assert packagesSetForType == set0 + Elems(candidate.packages);
    assert packagesSetForType <= Elems(packagesForType);
    ghost var bucket := ApplySkips(list0 + candidate.packages, set0 + Elems(candidate.packages), candidate.skipPackages);
    if candidate.skipPackages != [] {
      packagesForType, packagesSetForType := SkipPackages(packagesForType, packagesSetForType, candidate.skipPackages);
    }
    assert (packagesForType, packagesSetForType) == bucket;
    packages := packages[key := packagesForType];
    packagesSet := packagesSet[key := packagesSetForType];
    q := Plan(setupCommands, order, packages, packagesSet, allowFailMap, flags);
  }

  /** The candidate loop of `get_install_package_steps`. */
  method PlanCandidates(t: Target, cands: seq<Candidate>) returns (plan: Plan)
    ensures plan == Fold(t, cands, |cands|) && WellFormed(plan)
  {
    var packages: map<BucketKey, seq<string>> := map[];
    var packagesSet: map<BucketKey, set<string>> := map[];
    var allowFailMap: map<BucketKey, bool> := map[];
    var setupCommands: seq<seq<string>> := [];
    var flags: set<string> := {};
    var order: seq<BucketKey> := [];  // the insertion order of `packages`
    var supportedInstallMethods := CommonInstallMethods + {t.system.systemInstallMethod};

    for i := 0 to |cands|
      invariant Plan(setupCommands, order, packages, packagesSet, allowFailMap, flags) == Fold(t, cands, i)
    {
      var candidate := cands[i];
      FoldWellFormed(t, cands, i);

      var accepted, installMethod := MatchCandidate(t, supportedInstallMethods, flags, candidate);
      if !accepted {
        continue;
      }

      // This is a match.
      var p := Plan(setupCommands, order, packages, packagesSet, allowFailMap, flags);
      var q := AcceptCandidate(t, p, i, candidate, installMethod);
      setupCommands, order, packages, packagesSet, allowFailMap, flags :=
        q.setupCommands, q.order, q.packages, q.packagesSet, q.allowFail, q.flags;
    }
    plan := Plan(setupCommands, order, packages, packagesSet, allowFailMap, flags);
    FoldWellFormed(t, cands, |cands|);
  }

  method GetInstallPackageSteps(st: InstallState, categories: seq<string>, packageType: string,
                                description: string)
    returns (r: Result<seq<InstallStep>, Error>)
    ensures r == PackageSteps(st, categories, packageType, description)
  {
    var rbVersionInfo := ParseVersion(st.reviewboardVersionInfo.version);
    var distroVersionInfo := ParseVersion(st.systemInfo.version);
    var t := Target(st.systemInfo, rbVersionInfo, distroVersionInfo);

    var gathered := CandidatesFor(categories, packageType);
    if gathered.Failure? {
      return Failure(gathered.error);
    }
    var plan := PlanCandidates(t, gathered.value);
    var bucketSteps := BucketStepsOf(plan, StepName(description));
    return Success(SetupSteps(plan.setupCommands) + bucketSteps);
  }

  /***** The fixed phases *****/

  /** The one step that creates the virtual environment: the bootstrap
      Python runs `virtualenv`, downloading fresh packaging tools, with the
      system Python as interpreter and the chosen path as destination. */
  function GetSetupVirtualenvSteps(st: InstallState): (r: seq<InstallStep>)
    ensures |r| == 1 && r[0].installMethod == Shell && r[0].allowFail.None? && |r[0].state| == 7
    ensures r[0].state[0] == st.systemInfo.bootstrapPythonExe
    ensures r[0].state[5] == st.systemInfo.systemPythonExe && r[0].state[|r[0].state| - 1] == st.venvPath
    ensures r[0].state[1..5] == ["-m", "virtualenv", "--download", "-p"]
    ensures r[0].name == "Creating Python virtual environment"
  {
    [InstallStep(Shell, "Creating Python virtual environment", None,
                 [st.systemInfo.bootstrapPythonExe, "-m", "virtualenv", "--download", "-p",
                  st.systemInfo.systemPythonExe, st.venvPath])]
  }

  /** The four Review Board packages in the order they are pinned, each with
      its version record if it is to be installed. */
  function VersionInfos(st: InstallState): seq<(string, Option<PackageVersionInfo>)> {
    [("ReviewBoard", Some(st.reviewboardVersionInfo)),
     ("ReviewBoardPowerPack", st.powerpackVersionInfo),
     ("reviewbot-extension", st.reviewbotExtensionVersionInfo),
     ("reviewbot-worker", st.reviewbotWorkerVersionInfo)]
  }

  /** `Name==version` for each entry that has a version record, in order. */
  function Pins(entries: seq<(string, Option<PackageVersionInfo>)>): seq<string> {
    if entries == [] then []
    else
      var n := |entries| - 1;
      Pins(entries[..n]) + (if entries[n].1.Some? then [entries[n].0 + "==" + entries[n].1.value.version] else [])
  }

  method GetInstallRbPackagesSteps(st: InstallState) returns (steps: seq<InstallStep>)
    ensures steps == [InstallStep(Pip, "Installing Review Board packages", None, Pins(VersionInfos(st)))]
  {
    var entries := VersionInfos(st);
    var packages: seq<string> := [];
    for k := 0 to |entries|
      invariant packages == Pins(entries[..k])
    {
      var (packageName, versionInfo) := entries[k];
      assert entries[..k + 1][..k] == entries[..k];
      if versionInfo.Some? {
        packages := packages + [packageName + "==" + versionInfo.value.version];
      }
    }
    assert entries[..|entries|] == entries;
    steps := [InstallStep(Pip, "Installing Review Board packages", None, packages)];
  }

  /** The six phases of `get_install_steps`, in order. The fixed categories
      are all in the table, so no phase fails. */
  ghost function AllInstallSteps(st: InstallState): seq<InstallStep> {
    InstallCategoriesKnown("system");
    InstallCategoriesKnown("virtualenv");
    InstallCategoriesKnown("rb-extras");
    InstallCategoriesKnown("service-integrations");
    PackageSteps(st, InstallCategories, "system", "Installing system packages").value
    + GetSetupVirtualenvSteps(st)
    + PackageSteps(st, InstallCategories, "virtualenv", "Installing Python packaging support").value
    + [InstallStep(Pip, "Installing Review Board packages", None, Pins(VersionInfos(st)))]
    + PackageSteps(st, InstallCategories, "rb-extras", "Installing extra Review Board integrations").value
    + PackageSteps(st, InstallCategories, "service-integrations", "Installing service integrations").value
  }

  method GetInstallSteps(st: InstallState) returns (steps: seq<InstallStep>)
    ensures steps == AllInstallSteps(st)
  {
    InstallCategoriesKnown("system");
    InstallCategoriesKnown("virtualenv");
    InstallCategoriesKnown("rb-extras");
    InstallCategoriesKnown("service-integrations");
    var system := GetInstallPackageSteps(st, InstallCategories, "system", "Installing system packages");
    var virtualenv := GetInstallPackageSteps(st, InstallCategories, "virtualenv", "Installing Python packaging support");
    var rbPackages := GetInstallRbPackagesSteps(st);
    var rbExtras := GetInstallPackageSteps(st, InstallCategories, "rb-extras", "Installing extra Review Board integrations");
    var integrations := GetInstallPackageSteps(st, InstallCategories, "service-integrations", "Installing service integrations");
    steps := system.value + GetSetupVirtualenvSteps(st) + virtualenv.value + rbPackages + rbExtras.value + integrations.value;
  }

  /** Every category `get_install_steps` names is in the table. */
  lemma InstallCategoriesKnown(packageType: string)
    ensures CandidatesFor(InstallCategories, packageType).Success?
  {
    var cs := InstallCategories;
    assert forall k :: 0 <= k < |cs| ==> cs[k] in Packages by {
      forall k | 0 <= k < |cs| ensures cs[k] in Packages {
        assert cs[k] in Packages.Keys;
      }
    }
  }
}
