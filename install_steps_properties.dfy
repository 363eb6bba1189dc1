/** What the candidate loop of rbinstall/install_steps.py guarantees, for
    every target system and every candidate list: the match tests, the flag
    visibility rule, bucket isolation, the order of the output and where each
    command and package in it comes from. */
module InstallStepsProperties {
  import opened Wrappers
  import opened InstallMethods
  import opened DistroInfo
  import opened InstallSteps
  import opened Versioning

  /** Candidate `k` passes its match tests against the flags left by the
      candidates before it. */
  ghost predicate Accepted(t: Target, cands: seq<Candidate>, k: nat)
    requires k < |cands|
  {
    Accepts(t, Fold(t, cands, k).flags, cands[k])
  }

  /***** The match tests *****/

  /** The match chain with every test spelled as the source spells it, with
      `dict.get` defaults; `Accepts` is the same decision. */
  predicate AcceptsAsWritten(t: Target, flags: set<string>, c: Candidate) {
    var m := c.matchInfo;
    var sys := t.system;
    var resolved := ResolvedMethod(t, c);
    var families := m.distroFamilies.GetOr({});
    sys.system in m.systems.GetOr({sys.system})
    && sys.arch in m.archs.GetOr({sys.arch})
    && resolved in CommonInstallMethods + {sys.systemInstallMethod}
    && !(sys.distroFamilies.Some? && sys.distroFamilies.value != {} && families != {}
         && families * sys.distroFamilies.value == {})
    && !(sys.distroId.Some? && sys.distroId.value != "" && sys.distroId.value !in m.distroIds.GetOr({sys.distroId.value}))
    && (m.distroVersion.None? || VersionMatches(m.distroVersion.value, t.distroVersion))
    && (m.rbVersion.None? || VersionMatches(m.rbVersion.value, t.rbVersion))
    && FlagsHold(m.hasFlags, flags)
  }

  /** A candidate is accepted iff every constraint it gives holds; an absent
      `systems`, `archs` or `distro_ids` defaults to the system's own value. */
  lemma AcceptsIffConstraintsHold(t: Target, flags: set<string>, c: Candidate)
    ensures Accepts(t, flags, c) <==> AcceptsAsWritten(t, flags, c)
  {
  }

  /** A candidate without a match dict is accepted exactly when its method is usable. */
  lemma AbsentMatchAccepts(t: Target, flags: set<string>, c: Candidate)
    requires c.matchInfo == CandidateMatch()
    ensures Accepts(t, flags, c) <==> Supported(t, ResolvedMethod(t, c))
  {
  }

  /** A missing method or `SYSTEM_DEFAULT` becomes the system's method;
      a candidate whose method is not usable here is always rejected. */
  lemma MethodResolution(t: Target, flags: set<string>, c: Candidate)
    ensures c.installMethod.None? || c.installMethod == Some(SystemDefault)
            ==> ResolvedMethod(t, c) == t.system.systemInstallMethod
    ensures c.installMethod.Some? && c.installMethod != Some(SystemDefault)
            ==> ResolvedMethod(t, c) == c.installMethod.value
    ensures !Supported(t, ResolvedMethod(t, c)) ==> !Accepts(t, flags, c)
  {
  }

  /** With no families known, or no distro id known, the family or id
      constraint of a candidate decides nothing. */
  lemma FamilyAndIdTestsNeedSystemValues(t: Target, flags: set<string>, c: Candidate)
    ensures !NonEmptySet(t.system.distroFamilies)
            ==> (Accepts(t, flags, c) <==> Accepts(t, flags, c.(matchInfo := c.matchInfo.(distroFamilies := None))))
    ensures !NonEmptyString(t.system.distroId)
            ==> (Accepts(t, flags, c) <==> Accepts(t, flags, c.(matchInfo := c.matchInfo.(distroIds := None))))
  {
  }

  /** The families test rejects only when both sides are non-empty and disjoint. */
  lemma FamiliesTestRejectsOnlyDisjoint(t: Target, flags: set<string>, c: Candidate, f: string)
    requires c.matchInfo.distroFamilies.Some? && t.system.distroFamilies.Some?
    requires f in c.matchInfo.distroFamilies.value && f in t.system.distroFamilies.value
    ensures Accepts(t, flags, c) <==> Accepts(t, flags, c.(matchInfo := c.matchInfo.(distroFamilies := None)))
  {
    assert f in c.matchInfo.distroFamilies.value * t.system.distroFamilies.value;
  }

  /***** Flags *****/

  /** What the candidates before `j` last said about `name`, counting only
      the accepted ones. */
  ghost function FlagHistory(t: Target, cands: seq<Candidate>, j: nat, name: string): Option<bool>
    requires j <= |cands|
  {
    if j == 0 then None
    else
      var said := if Accepted(t, cands, j - 1) then LastSetting(cands[j - 1].setFlags, name) else None;
      if said.Some? then said else FlagHistory(t, cands, j - 1, name)
  }

  /** The flags seen by candidate `j` are those that the latest accepted
      earlier candidate mentioning them set to true; the set starts empty. */
  lemma {:induction false} FlagVisibility(t: Target, cands: seq<Candidate>, j: nat, name: string)
    requires j <= |cands|
    ensures name in Fold(t, cands, j).flags <==> FlagHistory(t, cands, j, name) == Some(true)
  {
    if j > 0 {
      FlagVisibility(t, cands, j - 1, name);
      var prev := Fold(t, cands, j - 1);
      if Accepted(t, cands, j - 1) {
        ApplyFlagsLast(prev.flags, cands[j - 1].setFlags, name);
      }
    }
  }

  /** A flag that no earlier candidate mentions is never present. */
  lemma {:induction false} UnmentionedFlagAbsent(t: Target, cands: seq<Candidate>, j: nat, name: string)
    requires j <= |cands|
    requires forall k :: 0 <= k < j ==> LastSetting(cands[k].setFlags, name).None?
    ensures name !in Fold(t, cands, j).flags
  {
    FlagVisibility(t, cands, j, name);
    FlagHistoryNone(t, cands, j, name);
  }

  lemma {:induction false} FlagHistoryNone(t: Target, cands: seq<Candidate>, j: nat, name: string)
    requires j <= |cands|
    requires forall k :: 0 <= k < j ==> LastSetting(cands[k].setFlags, name).None?
    ensures FlagHistory(t, cands, j, name).None?
  {
    if j > 0 {
      FlagHistoryNone(t, cands, j - 1, name);
    }
  }

  /** What happens to candidate `k` depends only on the candidates before it:
      later candidates, and the flags they set, never reach back. */
  lemma {:induction false} EarlierDecisionsIgnoreLater(t: Target, a: seq<Candidate>, b: seq<Candidate>, k: nat)
    requires k <= |a|
    ensures Fold(t, a + b, k) == Fold(t, a, k)
    ensures k < |a| ==> (Accepted(t, a + b, k) <==> Accepted(t, a, k))
  {
    if k > 0 {
      EarlierDecisionsIgnoreLater(t, a, b, k - 1);
      assert (a + b)[k - 1] == a[k - 1];
    }
    if k < |a| {
      assert (a + b)[k] == a[k];
    }
  }

  /***** Buckets *****/

  /** A step touches only its own bucket. */
  lemma StepFrame(t: Target, p: Plan, i: nat, c: Candidate, key: BucketKey)
    requires key != KeyOf(t, i, c)
    ensures key in Step(t, p, i, c).packages <==> key in p.packages
    ensures key in Step(t, p, i, c).allowFail <==> key in p.allowFail
    ensures key in p.packages ==> Step(t, p, i, c).packages[key] == p.packages[key]
    ensures key in p.allowFail ==> Step(t, p, i, c).allowFail[key] == p.allowFail[key]
  {
  }

  /** One step appends the candidate's key to `order` when it creates that
      bucket, and leaves `order` alone otherwise. */
  lemma StepOrder(t: Target, p: Plan, i: nat, c: Candidate)
    ensures Step(t, p, i, c).order
            == if Accepts(t, p.flags, c) && KeyOf(t, i, c) !in p.packages then p.order + [KeyOf(t, i, c)] else p.order
  {
  }

  /** The bucket an accepted candidate writes: the old list (empty when new)
      plus its packages, after its skips. */
  lemma StepBucket(t: Target, p: Plan, i: nat, c: Candidate)
    requires Accepts(t, p.flags, c)
    ensures var key := KeyOf(t, i, c);
            var list0 := if key in p.packages then p.packages[key] else [];
            var set0 := if key in p.packagesSet then p.packagesSet[key] else {};
            key in Step(t, p, i, c).packages && key in Step(t, p, i, c).allowFail
            && Step(t, p, i, c).packages[key] == ApplySkips(list0 + c.packages, set0 + Elems(c.packages), c.skipPackages).0
            && Step(t, p, i, c).allowFail[key] == c.allowFail
  {
  }

  /** Buckets are created at the end and never removed or reordered. */
  lemma {:induction false} OrderGrows(t: Target, cands: seq<Candidate>, i: nat, j: nat)
    requires i <= j <= |cands|
    ensures Fold(t, cands, i).order <= Fold(t, cands, j).order
    decreases j - i
  {
    if i < j {
      var a, b, c := Fold(t, cands, i).order, Fold(t, cands, j - 1).order, Fold(t, cands, j).order;
      assert a <= b by {
        OrderGrows(t, cands, i, j - 1);
      }
      assert b <= c by {
        StepOrder(t, Fold(t, cands, j - 1), j - 1, cands[j - 1]);
      }
      PrefixTransitive(a, b, c);
    }
  }

  lemma PrefixTransitive<T>(a: seq<T>, b: seq<T>, c: seq<T>)
    requires a <= b && b <= c
    ensures a <= c
  {
    assert a == b[..|a|] == c[..|b|][..|a|];
  }

  /** No bucket carries the index of a candidate not yet visited. */
  lemma {:induction false} KeyIndexBound(t: Target, cands: seq<Candidate>, j: nat, key: BucketKey)
    requires j <= |cands|
    requires key.index >= j
    ensures key !in Fold(t, cands, j).packages && key !in Fold(t, cands, j).packagesSet
  {
    if j > 0 {
      KeyIndexBound(t, cands, j - 1, key);
    }
  }

  /** An allow-fail candidate gets a bucket of its own: it is created by that
      candidate and holds exactly its packages after its own skips, and no later
      candidate changes it. */
  lemma AllowFailBucketIsolated(t: Target, cands: seq<Candidate>, i: nat, j: nat)
    requires i < j <= |cands|
    requires Accepted(t, cands, i) && cands[i].allowFail
    ensures var key := KeyOf(t, i, cands[i]);
            var c := cands[i];
            key in Fold(t, cands, j).packages && key in Fold(t, cands, j).allowFail
            && Fold(t, cands, j).packages[key] == ApplySkips(c.packages, Elems(c.packages), c.skipPackages).0
            && Fold(t, cands, j).allowFail[key]
  {
    AllowFailBucketCreated(t, cands, i);
    AllowFailBucketKept(t, cands, i, j);
  }

  /** No candidate after an allow-fail one touches its bucket. */
  lemma {:induction false} AllowFailBucketKept(t: Target, cands: seq<Candidate>, i: nat, j: nat)
    requires i < j <= |cands|
    requires cands[i].allowFail
    requires KeyOf(t, i, cands[i]) in Fold(t, cands, i + 1).packages
    requires KeyOf(t, i, cands[i]) in Fold(t, cands, i + 1).allowFail
    ensures var key := KeyOf(t, i, cands[i]);
            key in Fold(t, cands, j).packages && key in Fold(t, cands, j).allowFail
            && Fold(t, cands, j).packages[key] == Fold(t, cands, i + 1).packages[key]
            && Fold(t, cands, j).allowFail[key] == Fold(t, cands, i + 1).allowFail[key]
    decreases j
  {
    if j > i + 1 {
      var m := j - 1;
      AllowFailBucketKept(t, cands, i, m);
      StepFrame(t, Fold(t, cands, m), m, cands[m], KeyOf(t, i, cands[i]));
    }
  }

  /** The allow-fail candidate's bucket right after its own step. */
  lemma AllowFailBucketCreated(t: Target, cands: seq<Candidate>, i: nat)
    requires i < |cands|
    requires Accepted(t, cands, i) && cands[i].allowFail
    ensures var key := KeyOf(t, i, cands[i]);
            var c := cands[i];
            key in Fold(t, cands, i + 1).packages && key in Fold(t, cands, i + 1).allowFail
            && Fold(t, cands, i + 1).packages[key] == ApplySkips(c.packages, Elems(c.packages), c.skipPackages).0
            && Fold(t, cands, i + 1).allowFail[key]
  {
    var key, c := KeyOf(t, i, cands[i]), cands[i];
    var prev := Fold(t, cands, i);
    KeyIndexBound(t, cands, i, key);
    StepBucket(t, prev, i, c);
    assert [] + c.packages == c.packages;
    assert {} + Elems(c.packages) == Elems(c.packages);
  }

  /***** Output *****/

  lemma {:induction false} BucketStepsAt(p: Plan, keys: seq<BucketKey>, name: string, k: nat)
    requires forall x :: x in keys ==> x in p.packages && x in p.allowFail
    requires k < |keys|
    ensures |BucketSteps(p, keys, name)| == |keys|
    ensures BucketSteps(p, keys, name)[k]
            == InstallStep(keys[k].installMethod, name, Some(p.allowFail[keys[k]]), p.packages[keys[k]])
    decreases |keys|
  {
    var n := |keys| - 1;
    assert forall x :: x in keys[..n] ==> x in keys;
    if k < n {
      BucketStepsAt(p, keys[..n], name, k);
    } else if n > 0 {
      BucketStepsAt(p, keys[..n], name, 0);
    }
  }

  /** The output: one SHELL step per setup command, in encounter order and
      without `allow_fail`, then one step per bucket in creation order, whose
      `allow_fail` is true exactly when its key carries a candidate index. */
  lemma RenderShape(p: Plan, name: string)
    requires WellFormed(p)
    ensures |Render(p, name)| == |p.setupCommands| + |p.order|
    ensures forall k :: 0 <= k < |p.setupCommands| ==>
              Render(p, name)[k] == InstallStep(Shell, "Setting up support for packages", None, p.setupCommands[k])
    ensures forall k :: 0 <= k < |p.order| ==>
              Render(p, name)[|p.setupCommands| + k]
              == InstallStep(p.order[k].installMethod, name, Some(p.order[k].index != -1), p.packages[p.order[k]])
  {
    if p.order != [] {
      BucketStepsAt(p, p.order, name, 0);
    }
    forall k | 0 <= k < |p.order|
      ensures Render(p, name)[|p.setupCommands| + k]
              == InstallStep(p.order[k].installMethod, name, Some(p.order[k].index != -1), p.packages[p.order[k]])
    {
      BucketStepsAt(p, p.order, name, k);
    }
  }

  /** Every accepted candidate leads to a step of the output: `setdefault`
      creates its bucket even when it lists no packages, no later candidate
      removes a bucket, and each bucket is rendered with its method and
      `allow_fail`. */
  lemma AcceptedCandidateHasStep(t: Target, cands: seq<Candidate>, i: nat, name: string)
    requires i < |cands| && Accepted(t, cands, i)
    ensures WellFormed(Fold(t, cands, |cands|))
    ensures var p := Fold(t, cands, |cands|);
            var r := Render(p, name);
            exists k :: |p.setupCommands| <= k < |r| && r[k].installMethod == ResolvedMethod(t, cands[i])
                        && r[k].allowFail == Some(cands[i].allowFail)
  {
    var key := KeyOf(t, i, cands[i]);
    var n := |cands|;
    assert key in Fold(t, cands, i + 1).order by {
      StepBucket(t, Fold(t, cands, i), i, cands[i]);
      FoldWellFormed(t, cands, i + 1);
    }
    var order := Fold(t, cands, n).order;
    var m :| 0 <= m < |Fold(t, cands, i + 1).order| && Fold(t, cands, i + 1).order[m] == key;
    assert order[m] == key by {
      OrderGrows(t, cands, i + 1, n);
    }
    var p := Fold(t, cands, n);
    FoldWellFormed(t, cands, n);
    RenderShape(p, name);
    assert Render(p, name)[|p.setupCommands| + m].installMethod == ResolvedMethod(t, cands[i]);
  }

  /** The setup commands of the accepted candidates, in candidate order. */
  ghost function AcceptedCommands(t: Target, cands: seq<Candidate>, j: nat): seq<seq<string>>
    requires j <= |cands|
  {
    if j == 0 then []
    else AcceptedCommands(t, cands, j - 1) + (if Accepted(t, cands, j - 1) then cands[j - 1].commands else [])
  }

  lemma {:induction false} SetupCommandsAreAcceptedCommands(t: Target, cands: seq<Candidate>, j: nat)
    requires j <= |cands|
    ensures Fold(t, cands, j).setupCommands == AcceptedCommands(t, cands, j)
  {
    if j > 0 {
      SetupCommandsAreAcceptedCommands(t, cands, j - 1);
    }
  }

  /** Every package in a bucket was listed by some accepted candidate. */
  lemma {:induction false} PackageOrigin(t: Target, cands: seq<Candidate>, j: nat, key: BucketKey, x: string)
    requires j <= |cands|
    requires key in Fold(t, cands, j).packages && x in Fold(t, cands, j).packages[key]
    ensures exists i :: 0 <= i < j && Accepted(t, cands, i) && x in cands[i].packages
  {
    if j == 0 {
      assert false;
    } else {
      var n := j - 1;
      var prev, q, c := Fold(t, cands, n), Fold(t, cands, j), cands[n];
      assert q == Step(t, prev, n, c);
      if !Accepted(t, cands, n) {
        assert q == prev;
        PackageOrigin(t, cands, n, key, x);
      } else if key != KeyOf(t, n, c) {
        StepFrame(t, prev, n, c, key);
        PackageOrigin(t, cands, n, key, x);
      } else {
        var list0 := if key in prev.packages then prev.packages[key] else [];
        SkipsOnlyRemove(t, prev, n, c, x);
        if x in c.packages {
          assert Accepted(t, cands, n) && x in cands[n].packages;
        } else {
          assert x in list0;
          PackageOrigin(t, cands, n, key, x);
        }
      }
    }
  }

  /** The list a bucket holds before the step's skips: its old list (empty when
      new) followed by the candidate's packages. */
  function BucketSource(p: Plan, key: BucketKey, c: Candidate): seq<string> {
    (if key in p.packages then p.packages[key] else []) + c.packages
  }

  /** The skips of a step only remove names from the candidate's bucket. */
  lemma SkipsOnlyRemove(t: Target, p: Plan, i: nat, c: Candidate, x: string)
    requires Accepts(t, p.flags, c)
    requires KeyOf(t, i, c) in Step(t, p, i, c).packages
    requires x in Step(t, p, i, c).packages[KeyOf(t, i, c)]
    ensures x in BucketSource(p, KeyOf(t, i, c), c)
  {
    var key := KeyOf(t, i, c);
    var set0 := if key in p.packagesSet then p.packagesSet[key] else {};
    StepBucket(t, p, i, c);
    SkipsKeepOnly(BucketSource(p, key, c), set0 + Elems(c.packages), c.skipPackages, x);
  }

  /** The skip loop never adds a name to a list. */
  lemma {:induction false} SkipsKeepOnly(list: seq<string>, members: set<string>, skips: seq<string>, x: string)
    requires x in ApplySkips(list, members, skips).0
    ensures x in list
    decreases |skips|
  {
    if skips != [] {
      var n := |skips| - 1;
      var prev := ApplySkips(list, members, skips[..n]);
      if skips[n] in prev.1 {
        if skips[n] in prev.0 {
          RemoveFirstMultiset(prev.0, skips[n]);
        }
        assert multiset(RemoveFirst(prev.0, skips[n]))[x] <= multiset(prev.0)[x];
      }
      SkipsKeepOnly(list, members, skips[..n], x);
    }
  }

  /** A package type that no category lists gives no candidates at all. */
  lemma {:induction false} AbsentTypeNoCandidates(categories: seq<string>, packageType: string)
    requires forall k :: 0 <= k < |categories| ==> categories[k] in Packages
    requires forall k :: 0 <= k < |categories| ==> packageType !in Packages[categories[k]]
    ensures CandidatesFor(categories, packageType) == Success([])
  {
    if categories != [] {
      assert categories[0] in Packages;
      AbsentTypeNoCandidates(categories[1..], packageType);
      var own := TypeCandidates(Packages[categories[0]], packageType);
      assert own == [];
      assert own + [] == [];
    }
  }

  /** Candidates without commands leave no setup commands. */
  lemma {:induction false} NoCommandsNoSetup(t: Target, cands: seq<Candidate>, j: nat)
    requires j <= |cands|
    requires forall k :: 0 <= k < j ==> cands[k].commands == []
    ensures Fold(t, cands, j).setupCommands == []
  {
    if j > 0 {
      NoCommandsNoSetup(t, cands, j - 1);
      assert Fold(t, cands, j - 1).setupCommands + cands[j - 1].commands == [];
    }
  }

  /** A name that no accepted candidate lists ends up in no bucket. */
  lemma UnlistedNeverBucketed(t: Target, cands: seq<Candidate>, key: BucketKey, x: string)
    requires forall i :: 0 <= i < |cands| && x in cands[i].packages ==> !Accepted(t, cands, i)
    requires key in Fold(t, cands, |cands|).packages
    ensures x !in Fold(t, cands, |cands|).packages[key]
  {
    if x in Fold(t, cands, |cands|).packages[key] {
      PackageOrigin(t, cands, |cands|, key, x);
      assert false;
    }
  }

  /** When no candidate has setup commands, every step is a bucket step, and
      a name that no accepted candidate lists is in none of them. */
  lemma UnlistedNeverRendered(t: Target, cands: seq<Candidate>, name: string, x: string)
    requires forall i :: 0 <= i < |cands| ==> cands[i].commands == []
    requires forall i :: 0 <= i < |cands| && x in cands[i].packages ==> !Accepted(t, cands, i)
    ensures WellFormed(Fold(t, cands, |cands|))
    ensures var r := Render(Fold(t, cands, |cands|), name);
            forall k :: 0 <= k < |r| ==> r[k].allowFail.Some? && x !in r[k].state
  {
    var p := Fold(t, cands, |cands|);
    FoldWellFormed(t, cands, |cands|);
    NoCommandsNoSetup(t, cands, |cands|);
    RenderShape(p, name);
    var r := Render(p, name);
    forall k | 0 <= k < |r| ensures r[k].allowFail.Some? && x !in r[k].state {
      assert p.order[k] in p.packages;
      UnlistedNeverBucketed(t, cands, p.order[k], x);
    }
  }

  /** No candidates, no steps. */
  lemma NoCandidatesNoSteps(t: Target, name: string)
    ensures Render(Fold(t, [], 0), name) == []
  {
  }

  /***** Review Board packages *****/

  /** A pin is listed exactly when some entry has a version record, and it
      reads `Name==version`. */
  lemma {:induction false} PinsMembers(entries: seq<(string, Option<PackageVersionInfo>)>, x: string)
    ensures x in Pins(entries)
            <==> exists i :: 0 <= i < |entries| && entries[i].1.Some? && x == entries[i].0 + "==" + entries[i].1.value.version
  {
    if entries != [] {
      var n := |entries| - 1;
      PinsMembers(entries[..n], x);
      if x in Pins(entries[..n]) {
        var i :| 0 <= i < n && entries[..n][i].1.Some? && x == entries[..n][i].0 + "==" + entries[..n][i].1.value.version;
        assert entries[i] == entries[..n][i];
      }
      if exists i :: 0 <= i < |entries| && entries[i].1.Some? && x == entries[i].0 + "==" + entries[i].1.value.version {
        var i :| 0 <= i < |entries| && entries[i].1.Some? && x == entries[i].0 + "==" + entries[i].1.value.version;
        if i < n {
          assert entries[..n][i] == entries[i];
        }
      }
    }
  }

  /** A pin per entry with a version record, in entry order. */
  lemma {:induction false} PinsLength(entries: seq<(string, Option<PackageVersionInfo>)>)
    ensures |Pins(entries)| <= |entries|
    ensures (forall i :: 0 <= i < |entries| ==> entries[i].1.Some?) ==> |Pins(entries)| == |entries|
  {
    if entries != [] {
      var n := |entries| - 1;
      PinsLength(entries[..n]);
      assert forall i :: 0 <= i < n ==> entries[..n][i] == entries[i];
    }
  }

  lemma PinsExtend(entries: seq<(string, Option<PackageVersionInfo>)>, k: nat)
    requires k < |entries|
    ensures Pins(entries[..k + 1])
            == Pins(entries[..k]) + (if entries[k].1.Some? then [entries[k].0 + "==" + entries[k].1.value.version] else [])
  {
    assert entries[..k + 1][..k] == entries[..k];
  }

  /** Review Board itself is always pinned first; Power Pack and the two
      Review Bot packages follow, each only when it has a version record. */
  lemma RbPackagesPinned(st: InstallState)
    ensures var pins := Pins(VersionInfos(st));
            pins != [] && pins[0] == "ReviewBoard==" + st.reviewboardVersionInfo.version
            && |pins| == 1 + (if st.powerpackVersionInfo.Some? then 1 else 0)
                           + (if st.reviewbotExtensionVersionInfo.Some? then 1 else 0)
                           + (if st.reviewbotWorkerVersionInfo.Some? then 1 else 0)
  {
    var e := VersionInfos(st);
    var first := "ReviewBoard==" + st.reviewboardVersionInfo.version;
    PinsExtend(e, 0);
    assert e[..0] == [] && Pins(e[..0]) == [];
    assert e[0] == ("ReviewBoard", Some(st.reviewboardVersionInfo));
    assert e[0].0 + "==" + e[0].1.value.version == first;
    assert [] + [first] == [first];
    assert Pins(e[..1]) == [first];
    PinsExtend(e, 1);
    PinsExtend(e, 2);
    PinsExtend(e, 3);
    assert e[..4] == e;
    assert Pins(e)[0] == first;
  }
}
