/** The planner of rbinstall/install_steps.py applied to the candidate
    table of rbinstall/distro_info.py: which steps the virtualenv,
    extras and service-integration phases produce, worked out candidate by
    candidate. */
module InstallStepsPlatforms {
  import opened Wrappers
  import opened InstallMethods
  import opened DistroInfo
  import opened InstallSteps
  import opened InstallStepsProperties
  import opened DistroInfoProperties

  /** The service-integration candidates, chained over the categories of
      `get_install_steps`. */
  const ServiceIntegrationCandidates: seq<Candidate> := [
    DjangoStoragesServiceIntegrations[0], MercurialServiceIntegrations[0], MysqlServiceIntegrations[0],
    PerforceServiceIntegrations[0], PerforceServiceIntegrations[1], PostgresServiceIntegrations[0],
    SubversionServiceIntegrations[0], SamlServiceIntegrations[0]]

  /** Chaining one more category in front: its own candidates, then the
      rest's, as one slice of the expected list. */
  lemma GatherStep(categories: seq<string>, k: nat, packageType: string, all: seq<Candidate>, j: nat, j': nat)
    requires k < |categories| && categories[k] in Packages && j <= j' <= |all|
    requires TypeCandidates(Packages[categories[k]], packageType) == all[j..j']
    requires CandidatesFor(categories[k + 1..], packageType) == Success(all[j'..])
    ensures CandidatesFor(categories[k..], packageType) == Success(all[j..])
  {
    assert categories[k..][1..] == categories[k + 1..];
    assert all[j..j'] + all[j'..] == all[j..];
  }

  /** The service-integration candidates of the categories from `saml` on:
      one lemma per category, each adding that category's own. */
  lemma ServiceIntegrationsFromSaml()
    ensures CandidatesFor(InstallCategories[10..], "service-integrations")
            == Success(ServiceIntegrationCandidates[7..])
  {
    assert InstallCategories[11..] == [] && ServiceIntegrationCandidates[8..] == [];
    GatherStep(InstallCategories, 10, "service-integrations", ServiceIntegrationCandidates, 7, 8);
  }

  lemma ServiceIntegrationsFromSubversion()
    ensures CandidatesFor(InstallCategories[9..], "service-integrations")
            == Success(ServiceIntegrationCandidates[6..])
  {
    ServiceIntegrationsFromSaml();
    GatherStep(InstallCategories, 9, "service-integrations", ServiceIntegrationCandidates, 6, 7);
  }

  lemma ServiceIntegrationsFromPostgres()
    ensures CandidatesFor(InstallCategories[8..], "service-integrations")
            == Success(ServiceIntegrationCandidates[5..])
  {
    ServiceIntegrationsFromSubversion();
    GatherStep(InstallCategories, 8, "service-integrations", ServiceIntegrationCandidates, 5, 6);
  }

  lemma ServiceIntegrationsFromPerforce()
    ensures CandidatesFor(InstallCategories[7..], "service-integrations")
            == Success(ServiceIntegrationCandidates[3..])
  {
    ServiceIntegrationsFromPostgres();
    GatherStep(InstallCategories, 7, "service-integrations", ServiceIntegrationCandidates, 3, 5);
  }

  lemma ServiceIntegrationsFromMysql()
    ensures CandidatesFor(InstallCategories[6..], "service-integrations")
            == Success(ServiceIntegrationCandidates[2..])
  {
    ServiceIntegrationsFromPerforce();
    GatherStep(InstallCategories, 6, "service-integrations", ServiceIntegrationCandidates, 2, 3);
  }

  lemma ServiceIntegrationsFromMercurial()
    ensures CandidatesFor(InstallCategories[5..], "service-integrations")
            == Success(ServiceIntegrationCandidates[1..])
  {
    ServiceIntegrationsFromMysql();
    GatherStep(InstallCategories, 5, "service-integrations", ServiceIntegrationCandidates, 1, 2);
  }

  lemma ServiceIntegrationsFromMemcached()
    ensures CandidatesFor(InstallCategories[4..], "service-integrations")
            == Success(ServiceIntegrationCandidates[1..])
  {
    ServiceIntegrationsFromMercurial();
    GatherStep(InstallCategories, 4, "service-integrations", ServiceIntegrationCandidates, 1, 1);
  }

  lemma ServiceIntegrationsFromGit()
    ensures CandidatesFor(InstallCategories[3..], "service-integrations")
            == Success(ServiceIntegrationCandidates[1..])
  {
    ServiceIntegrationsFromMemcached();
    GatherStep(InstallCategories, 3, "service-integrations", ServiceIntegrationCandidates, 1, 1);
  }

  lemma ServiceIntegrationsFromDjangoStorages()
    ensures CandidatesFor(InstallCategories[2..], "service-integrations")
            == Success(ServiceIntegrationCandidates[0..])
  {
    ServiceIntegrationsFromGit();
    GatherStep(InstallCategories, 2, "service-integrations", ServiceIntegrationCandidates, 0, 1);
  }

  lemma ServiceIntegrationsFromCvs()
    ensures CandidatesFor(InstallCategories[1..], "service-integrations")
            == Success(ServiceIntegrationCandidates[0..])
  {
    ServiceIntegrationsFromDjangoStorages();
    GatherStep(InstallCategories, 1, "service-integrations", ServiceIntegrationCandidates, 0, 0);
  }

  lemma ServiceIntegrationsFromCommon()
    ensures CandidatesFor(InstallCategories[0..], "service-integrations")
            == Success(ServiceIntegrationCandidates[0..])
  {
    ServiceIntegrationsFromCvs();
    GatherStep(InstallCategories, 0, "service-integrations", ServiceIntegrationCandidates, 0, 0);
  }

  /** All service-integration candidates, in the order the categories of
      `get_install_steps` list them. */
  lemma ServiceIntegrationsGathered()
    ensures CandidatesFor(InstallCategories, "service-integrations") == Success(ServiceIntegrationCandidates)
  {
    ServiceIntegrationsFromCommon();
    assert InstallCategories[0..] == InstallCategories;
    assert ServiceIntegrationCandidates[0..] == ServiceIntegrationCandidates;
  }

  /** Categories from `k` on that have no candidates of the type give none. */
  lemma {:induction false} AbsentFrom(categories: seq<string>, k: nat, packageType: string)
    requires k <= |categories|
    requires forall i :: k <= i < |categories| ==> categories[i] in Packages && packageType !in Packages[categories[i]]
    ensures CandidatesFor(categories[k..], packageType) == Success([])
    decreases |categories| - k
  {
    if k < |categories| {
      AbsentFrom(categories, k + 1, packageType);
      assert categories[k..][1..] == categories[k + 1..];
      var own := TypeCandidates(Packages[categories[k]], packageType);
      assert own == [];
      assert own + [] == [];
    }
  }

  /** The categories after `common` have no virtualenv candidates. */
  lemma VirtualenvAfterCommon()
    ensures CandidatesFor(InstallCategories[1..], "virtualenv") == Success([])
  {
    var cs := InstallCategories;
    assert forall i :: 1 <= i < |cs| ==> cs[i] in Packages && "virtualenv" !in Packages[cs[i]] by {
      forall i | 1 <= i < |cs| ensures cs[i] in Packages && "virtualenv" !in Packages[cs[i]] {
        assert cs[i] in Packages.Keys;
      }
    }
    AbsentFrom(cs, 1, "virtualenv");
  }

  lemma VirtualenvFromCommon()
    ensures CandidatesFor(InstallCategories[0..], "virtualenv") == Success(CommonVirtualenv[0..])
  {
    VirtualenvAfterCommon();
    assert CommonVirtualenv[1..] == [];
    GatherStep(InstallCategories, 0, "virtualenv", CommonVirtualenv, 0, 1);
  }

  /** Only `common` has virtualenv candidates. */
  lemma VirtualenvGathered()
    ensures CandidatesFor(InstallCategories, "virtualenv") == Success(CommonVirtualenv)
  {
    VirtualenvFromCommon();
    assert InstallCategories[0..] == InstallCategories;
    assert CommonVirtualenv[0..] == CommonVirtualenv;
  }

  /** The three buckets the service-integration phase fills on Linux x86_64. */
  const Extras := BucketKey(ReviewboardExtra, -1)
  const Perforce := BucketKey(ReviewboardExtra, 3)
  const Pysvn := BucketKey(RemotePyscript, -1)

  /** A candidate that only lists packages: no commands, flags or skips. */
  predicate PackagesOnly(c: Candidate) {
    c.commands == [] && c.setFlags == [] && c.skipPackages == []
  }

  /** Accepting such a candidate appends its packages to its bucket and
      changes nothing else that the output shows. */
  lemma PackagesOnlyStep(t: Target, p: Plan, i: nat, c: Candidate)
    requires PackagesOnly(c) && Accepts(t, p.flags, c)
    ensures var key := KeyOf(t, i, c);
            var q := Step(t, p, i, c);
            q.setupCommands == p.setupCommands && q.flags == p.flags
            && q.order == (if key in p.packages then p.order else p.order + [key])
            && q.packages == p.packages[key := if key in p.packages then p.packages[key] + c.packages else c.packages]
            && q.allowFail == p.allowFail[key := c.allowFail]
  {
    assert p.setupCommands + [] == p.setupCommands;
    assert [] + c.packages == c.packages;
  }

  /** What the output shows of a plan: no setup commands, no flags, and
      the given buckets. */
  ghost predicate Shows(p: Plan, order: seq<BucketKey>, packages: map<BucketKey, seq<string>>,
                        allowFail: map<BucketKey, bool>) {
    p.setupCommands == [] && p.flags == {} && p.order == order
    && p.packages == packages && p.allowFail == allowFail
  }

  /** The system is Linux on x86_64; nothing else about it matters here. */
  predicate LinuxX86(t: Target) {
    t.system.system == "Linux" && t.system.arch == "x86_64"
  }

  const SI := ServiceIntegrationCandidates
  const E1: seq<string> := ["s3", "swift"]
  const E2: seq<string> := ["s3", "swift", "mercurial"]
  const E3: seq<string> := ["s3", "swift", "mercurial", "mysql"]
  const E4: seq<string> := ["s3", "swift", "mercurial", "mysql", "postgres"]

  /** The plan after each candidate on Linux x86_64: the storages, Mercurial
      and MySQL extras share one bucket; Perforce gets its own bucket, which
      allows failure; the macOS Perforce candidate is rejected; the Subversion
      bindings come from a remote script; SAML is rejected, since no earlier
      candidate sets `has_xmlsec`. */
  lemma LinuxX86After1(t: Target)
    requires LinuxX86(t)
    ensures Shows(Fold(t, SI, 1), [Extras], map[Extras := E1], map[Extras := false])
  {
    PackagesOnlyStep(t, Fold(t, SI, 0), 0, SI[0]);
  }

  lemma LinuxX86After2(t: Target)
    requires LinuxX86(t)
    ensures Shows(Fold(t, SI, 2), [Extras], map[Extras := E2], map[Extras := false])
  {
    LinuxX86After1(t);
    PackagesOnlyStep(t, Fold(t, SI, 1), 1, SI[1]);
    assert E1 + SI[1].packages == E2;
  }

  lemma LinuxX86After3(t: Target)
    requires LinuxX86(t)
    ensures Shows(Fold(t, SI, 3), [Extras], map[Extras := E3], map[Extras := false])
  {
    LinuxX86After2(t);
    PackagesOnlyStep(t, Fold(t, SI, 2), 2, SI[2]);
    assert E2 + SI[2].packages == E3;
  }

  lemma LinuxX86After4(t: Target)
    requires LinuxX86(t)
    ensures Shows(Fold(t, SI, 4), [Extras, Perforce], map[Extras := E3, Perforce := ["p4"]],
                  map[Extras := false, Perforce := true])
  {
    LinuxX86After3(t);
    PackagesOnlyStep(t, Fold(t, SI, 3), 3, SI[3]);
  }

  lemma LinuxX86After5(t: Target)
    requires LinuxX86(t)
    ensures Shows(Fold(t, SI, 5), [Extras, Perforce], map[Extras := E3, Perforce := ["p4"]],
                  map[Extras := false, Perforce := true])
  {
    LinuxX86After4(t);
  }

  lemma LinuxX86After6(t: Target)
    requires LinuxX86(t)
    ensures Shows(Fold(t, SI, 6), [Extras, Perforce], map[Extras := E4, Perforce := ["p4"]],
                  map[Extras := false, Perforce := true])
  {
    LinuxX86After5(t);
    PackagesOnlyStep(t, Fold(t, SI, 5), 5, SI[5]);
    assert E3 + SI[5].packages == E4;
  }

  lemma LinuxX86After7(t: Target)
    requires LinuxX86(t)
    ensures Shows(Fold(t, SI, 7), [Extras, Perforce, Pysvn],
                  map[Extras := E4, Perforce := ["p4"], Pysvn := ["https://pysvn.reviewboard.org"]],
                  map[Extras := false, Perforce := true, Pysvn := false])
  {
    LinuxX86After6(t);
    PackagesOnlyStep(t, Fold(t, SI, 6), 6, SI[6]);
  }

  lemma LinuxX86After8(t: Target)
    requires LinuxX86(t)
    ensures Shows(Fold(t, SI, 8), [Extras, Perforce, Pysvn],
                  map[Extras := E4, Perforce := ["p4"], Pysvn := ["https://pysvn.reviewboard.org"]],
                  map[Extras := false, Perforce := true, Pysvn := false])
  {
    LinuxX86After7(t);
    assert SI[7].matchInfo.hasFlags[0] == ("has_xmlsec", true);
    assert !FlagsHold(SI[7].matchInfo.hasFlags, {});
  }

  /** Once the candidates are known, the phase's steps are the rendered fold. */
  lemma PackageStepsOfCandidates(st: InstallState, categories: seq<string>, packageType: string,
                                 description: string, cands: seq<Candidate>)
    requires CandidatesFor(categories, packageType) == Success(cands)
    ensures WellFormed(Fold(TargetOf(st), cands, |cands|))
    ensures PackageSteps(st, categories, packageType, description)
            == Success(Render(Fold(TargetOf(st), cands, |cands|), StepName(description)))
  {
    FoldWellFormed(TargetOf(st), cands, |cands|);
  }

  /** A plan without setup commands and with three buckets renders as one
      step per bucket, in order. */
  lemma RenderOfThree(p: Plan, name: string)
    requires WellFormed(p) && p.setupCommands == [] && |p.order| == 3
    ensures Render(p, name) == [
              InstallStep(p.order[0].installMethod, name, Some(p.allowFail[p.order[0]]), p.packages[p.order[0]]),
              InstallStep(p.order[1].installMethod, name, Some(p.allowFail[p.order[1]]), p.packages[p.order[1]]),
              InstallStep(p.order[2].installMethod, name, Some(p.allowFail[p.order[2]]), p.packages[p.order[2]])]
  {
    var o := p.order;
    var s0 := InstallStep(o[0].installMethod, name, Some(p.allowFail[o[0]]), p.packages[o[0]]);
    var s1 := InstallStep(o[1].installMethod, name, Some(p.allowFail[o[1]]), p.packages[o[1]]);
    var s2 := InstallStep(o[2].installMethod, name, Some(p.allowFail[o[2]]), p.packages[o[2]]);
    assert o[..2][..1][..0] == [] && o[..2][..1] == [o[0]] && o[..2] == [o[0], o[1]];
    assert BucketSteps(p, o[..2][..1], name) == [] + [s0] == [s0];
    assert BucketSteps(p, o[..2], name) == [s0] + [s1] == [s0, s1];
    assert BucketSteps(p, o, name) == [s0, s1] + [s2] == [s0, s1, s2];
    assert SetupSteps(p.setupCommands) == [];
  }

  /** A loop that ends showing three buckets renders as their three steps. */
  lemma RenderOfShownThree(t: Target, cands: seq<Candidate>, name: string, a: BucketKey, b: BucketKey,
                           c: BucketKey, packages: map<BucketKey, seq<string>>, allowFail: map<BucketKey, bool>)
    requires Shows(Fold(t, cands, |cands|), [a, b, c], packages, allowFail)
    ensures WellFormed(Fold(t, cands, |cands|))
    ensures a in packages && b in packages && c in packages
    ensures a in allowFail && b in allowFail && c in allowFail
    ensures Render(Fold(t, cands, |cands|), name) == [
              InstallStep(a.installMethod, name, Some(allowFail[a]), packages[a]),
              InstallStep(b.installMethod, name, Some(allowFail[b]), packages[b]),
              InstallStep(c.installMethod, name, Some(allowFail[c]), packages[c])]
  {
    var p := Fold(t, cands, |cands|);
    FoldWellFormed(t, cands, |cands|);
    assert p.order[0] == a && p.order[1] == b && p.order[2] == c;
    RenderOfThree(p, name);
  }

  /** The rendered service-integration plan on Linux x86_64. */
  lemma LinuxX86ServiceIntegrationRender(t: Target)
    requires LinuxX86(t)
    ensures WellFormed(Fold(t, SI, 8))
    ensures Render(Fold(t, SI, 8), "Installing service integrations") == [
              InstallStep(ReviewboardExtra, "Installing service integrations", Some(false), E4),
              InstallStep(ReviewboardExtra, "Installing service integrations", Some(true), ["p4"]),
              InstallStep(RemotePyscript, "Installing service integrations", Some(false),
                          ["https://pysvn.reviewboard.org"])]
  {
    LinuxX86After8(t);
    RenderOfShownThree(t, SI, "Installing service integrations", Extras, Perforce, Pysvn,
                       map[Extras := E4, Perforce := ["p4"], Pysvn := ["https://pysvn.reviewboard.org"]],
                       map[Extras := false, Perforce := true, Pysvn := false]);
  }

  /** What the service-integration phase produces on Linux x86_64: the plain
      extras in one step, Perforce in a step allowed to fail, and the
      Subversion bindings from their remote script. */
  lemma LinuxX86ServiceIntegrationSteps(st: InstallState)
    requires LinuxX86(TargetOf(st))
    ensures PackageSteps(st, InstallCategories, "service-integrations", "Installing service integrations")
            == Success([
                 InstallStep(ReviewboardExtra, "Installing service integrations", Some(false),
                             ["s3", "swift", "mercurial", "mysql", "postgres"]),
                 InstallStep(ReviewboardExtra, "Installing service integrations", Some(true), ["p4"]),
                 InstallStep(RemotePyscript, "Installing service integrations", Some(false),
                             ["https://pysvn.reviewboard.org"])])
  {
    ServiceIntegrationsGathered();
    PackageStepsOfCandidates(st, InstallCategories, "service-integrations", "Installing service integrations", SI);
    LinuxX86ServiceIntegrationRender(TargetOf(st));
  }

  /** The rendered virtualenv plan, on every system. */
  lemma VirtualenvRender(t: Target)
    ensures WellFormed(Fold(t, CommonVirtualenv, 1))
    ensures Render(Fold(t, CommonVirtualenv, 1), "Installing Python packaging support")
            == [InstallStep(Pip, "Installing Python packaging support", Some(false),
                            ["pip", "setuptools", "wheel", "--no-binary", "lxml", "lxml"])]
  {
    PackagesOnlyStep(t, EmptyPlan, 0, CommonVirtualenv[0]);
    FoldWellFormed(t, CommonVirtualenv, 1);
    RenderShape(Fold(t, CommonVirtualenv, 1), "Installing Python packaging support");
  }

  /** The virtualenv phase is the same on every system: one pip step that
      upgrades the packaging tools and builds lxml from source. */
  lemma VirtualenvSteps(st: InstallState)
    ensures PackageSteps(st, InstallCategories, "virtualenv", "Installing Python packaging support")
            == Success([InstallStep(Pip, "Installing Python packaging support", Some(false),
                                    ["pip", "setuptools", "wheel", "--no-binary", "lxml", "lxml"])])
  {
    VirtualenvGathered();
    PackageStepsOfCandidates(st, InstallCategories, "virtualenv", "Installing Python packaging support", CommonVirtualenv);
    VirtualenvRender(TargetOf(st));
  }

  /** No category lists extra Review Board integrations. */
  lemma RbExtrasGathered()
    ensures CandidatesFor(InstallCategories, "rb-extras") == Success([])
  {
    var cs := InstallCategories;
    assert forall k :: 0 <= k < |cs| ==> cs[k] in Packages && "rb-extras" !in Packages[cs[k]] by {
      forall k | 0 <= k < |cs| ensures cs[k] in Packages && "rb-extras" !in Packages[cs[k]] {
        assert cs[k] in Packages.Keys;
      }
    }
    AbsentTypeNoCandidates(cs, "rb-extras");
  }

  /** So the extras phase is empty on every system. */
  lemma RbExtrasSteps(st: InstallState)
    ensures PackageSteps(st, InstallCategories, "rb-extras", "Installing extra Review Board integrations")
            == Success([])
  {
    RbExtrasGathered();
    PackageStepsOfCandidates(st, InstallCategories, "rb-extras", "Installing extra Review Board integrations", []);
    NoCandidatesNoSteps(TargetOf(st), "Installing extra Review Board integrations");
  }

  /** The whole `get_install_steps` list on Linux x86_64 after the system
      packages: the virtual environment, the packaging tools, the pinned
      Review Board packages, no extras, then the three service-integration
      steps. */
  lemma LinuxX86InstallSteps(st: InstallState)
    requires LinuxX86(TargetOf(st))
    ensures PackageSteps(st, InstallCategories, "system", "Installing system packages").Success?
    ensures AllInstallSteps(st)
            == PackageSteps(st, InstallCategories, "system", "Installing system packages").value
               + GetSetupVirtualenvSteps(st)
               + [InstallStep(Pip, "Installing Python packaging support", Some(false),
                              ["pip", "setuptools", "wheel", "--no-binary", "lxml", "lxml"])]
               + [InstallStep(Pip, "Installing Review Board packages", None, Pins(VersionInfos(st)))]
               + [InstallStep(ReviewboardExtra, "Installing service integrations", Some(false),
                              ["s3", "swift", "mercurial", "mysql", "postgres"]),
                  InstallStep(ReviewboardExtra, "Installing service integrations", Some(true), ["p4"]),
                  InstallStep(RemotePyscript, "Installing service integrations", Some(false),
                              ["https://pysvn.reviewboard.org"])]
  {
    InstallCategoriesKnown("system");
    VirtualenvSteps(st);
    RbExtrasSteps(st);
    LinuxX86ServiceIntegrationSteps(st);
  }

  /** The SAML candidate is rejected on every system: it needs `has_xmlsec`,
      and no candidate before it sets that flag. */
  lemma SamlRejected(t: Target)
    ensures !Accepted(t, SI, 7)
  {
    forall k | 0 <= k < 7 ensures LastSetting(SI[k].setFlags, "has_xmlsec").None? {
      assert SI[k].setFlags == [];
    }
    UnmentionedFlagAbsent(t, SI, 7, "has_xmlsec");
    assert SI[7].matchInfo.hasFlags[0] == ("has_xmlsec", true);
  }

  /** No service-integration candidate has setup commands. */
  lemma NoServiceIntegrationCommands()
    ensures forall i :: 0 <= i < |SI| ==> SI[i].commands == []
  {
    forall i | 0 <= i < |SI| ensures SI[i].commands == [] {
    }
  }

  /** Only the SAML candidate lists `saml`, and it is rejected. */
  lemma SamlListedOnlyByRejected(t: Target)
    ensures forall i :: 0 <= i < |SI| && "saml" in SI[i].packages ==> !Accepted(t, SI, i)
  {
    forall i | 0 <= i < |SI| && "saml" in SI[i].packages ensures !Accepted(t, SI, i) {
      assert i == 7;
      SamlRejected(t);
    }
  }

  /** So no bucket of the service-integration plan ever holds `saml`. */
  lemma SamlNeverBucketed(t: Target, key: BucketKey)
    requires key in Fold(t, SI, 8).packages
    ensures "saml" !in Fold(t, SI, 8).packages[key]
  {
    SamlListedOnlyByRejected(t);
    UnlistedNeverBucketed(t, SI, key, "saml");
  }

  /** The rendered service-integration plan has no setup step and no
      `saml`, on every system. */
  lemma SamlNeverRendered(t: Target, name: string)
    ensures WellFormed(Fold(t, SI, 8))
    ensures var r := Render(Fold(t, SI, 8), name);
            forall k :: 0 <= k < |r| ==> r[k].allowFail.Some? && "saml" !in r[k].state
  {
    NoServiceIntegrationCommands();
    SamlListedOnlyByRejected(t);
    UnlistedNeverRendered(t, SI, name, "saml");
  }

  /** The service-integration phase never installs SAML support, on any
      system; every step it produces is a bucket step, none a setup command. */
  lemma SamlNeverInstalled(st: InstallState)
    ensures PackageSteps(st, InstallCategories, "service-integrations", "Installing service integrations").Success?
    ensures var r := PackageSteps(st, InstallCategories, "service-integrations", "Installing service integrations").value;
            forall k :: 0 <= k < |r| ==> r[k].allowFail.Some? && "saml" !in r[k].state
  {
    ServiceIntegrationsGathered();
    PackageStepsOfCandidates(st, InstallCategories, "service-integrations", "Installing service integrations", SI);
    SamlNeverRendered(TargetOf(st), "Installing service integrations");
  }

  /** Only the two Perforce candidates list `p4`, and on a Linux machine
      that is not x86_64 both are rejected. */
  lemma P4ListedOnlyByRejectedOffX86(t: Target)
    requires t.system.system == "Linux" && t.system.arch != "x86_64"
    ensures forall i :: 0 <= i < |SI| && "p4" in SI[i].packages ==> !Accepted(t, SI, i)
  {
    forall i | 0 <= i < |SI| && "p4" in SI[i].packages ensures !Accepted(t, SI, i) {
      assert i == 3 || i == 4;
      PerforceNeedsX86(t, Fold(t, SI, i).flags, i - 3);
    }
  }

  /** So on such a machine no bucket of the service-integration plan holds `p4`. */
  lemma P4NeverBucketedOffX86(t: Target, key: BucketKey)
    requires t.system.system == "Linux" && t.system.arch != "x86_64"
    requires key in Fold(t, SI, 8).packages
    ensures "p4" !in Fold(t, SI, 8).packages[key]
  {
    P4ListedOnlyByRejectedOffX86(t);
    UnlistedNeverBucketed(t, SI, key, "p4");
  }

  /** The rendered service-integration plan of such a machine lists no `p4`. */
  lemma P4NeverRenderedOffX86(t: Target, name: string)
    requires t.system.system == "Linux" && t.system.arch != "x86_64"
    ensures WellFormed(Fold(t, SI, 8))
    ensures var r := Render(Fold(t, SI, 8), name);
            forall k :: 0 <= k < |r| ==> "p4" !in r[k].state
  {
    NoServiceIntegrationCommands();
    P4ListedOnlyByRejectedOffX86(t);
    UnlistedNeverRendered(t, SI, name, "p4");
  }

  /** So on such a machine the service-integration phase installs no `p4`. */
  lemma P4NeverInstalledOffX86(st: InstallState)
    requires st.systemInfo.system == "Linux" && st.systemInfo.arch != "x86_64"
    ensures PackageSteps(st, InstallCategories, "service-integrations", "Installing service integrations").Success?
    ensures var r := PackageSteps(st, InstallCategories, "service-integrations", "Installing service integrations").value;
            forall k :: 0 <= k < |r| ==> "p4" !in r[k].state
  {
    ServiceIntegrationsGathered();
    PackageStepsOfCandidates(st, InstallCategories, "service-integrations", "Installing service integrations", SI);
    P4NeverRenderedOffX86(TargetOf(st), "Installing service integrations");
  }
}
