/** What the package table of rbinstall/distro_info.py decides, candidate by
    candidate, under the match tests of rbinstall/install_steps.py: which
    rules can never fire, which allow failure or set `has_xmlsec`, and which
    MySQL and CVS rules each kind of Linux distribution gets. */
module DistroInfoProperties {
  import opened Wrappers
  import opened Versioning
  import opened InstallMethods
  import opened DistroInfo
  import opened InstallSteps

  /** The system is Linux and reports a non-empty set of families. */
  predicate LinuxWithFamilies(t: Target) {
    t.system.system == "Linux" && NonEmptySet(t.system.distroFamilies)
  }

  /***** Rules that never fire *****/

  /** A rule whose `systems` is the lower-case `{'linux'}` is rejected on a
      system that reports itself as `Linux`. */
  lemma LowerCaseLinuxNeverMatches(t: Target, flags: set<string>, c: Candidate)
    requires c.matchInfo.systems == Some({"linux"}) && t.system.system == "Linux"
    ensures !Accepts(t, flags, c)
  {
    assert "Linux"[0] != "linux"[0];
  }

  /** So on Linux no common system rule that lists `xmlsec1-devel` fires
      unless the system belongs to the `opensuse` family: the four rules for
      CentOS 9+, Fedora, RHEL 9+ and Rocky 9+ name the system in lower case. */
  lemma XmlsecDevelOnlyForOpensuse(t: Target, flags: set<string>, i: nat)
    requires LinuxWithFamilies(t) && "opensuse" !in t.system.distroFamilies.value
    requires i < |CommonSystem| && "xmlsec1-devel" in CommonSystem[i].packages
    ensures !Accepts(t, flags, CommonSystem[i])
  {
    var c := CommonSystem[i];
    if i == 16 {
      assert c.matchInfo.distroFamilies == Some({"opensuse"});
      assert c.matchInfo.distroFamilies.value * t.system.distroFamilies.value == {};
    } else {
      assert 11 <= i <= 14;
      LowerCaseLinuxNeverMatches(t, flags, c);
    }
  }

  /***** allow_fail and has_xmlsec *****/

  /** Only the Perforce rules allow their step to fail. */
  lemma OnlyPerforceAllowsFailure(category: string, packageType: string, i: nat)
    requires category in Packages && packageType in Packages[category]
    requires i < |Packages[category][packageType]| && Packages[category][packageType][i].allowFail
    ensures category == "perforce" && packageType == "service-integrations"
  {
  }

  /** Every rule that sets a flag is a common system rule, and the flag it
      sets is `has_xmlsec`. */
  lemma FlagSettersAreCommonRules(category: string, packageType: string, i: nat, k: nat)
    requires category in Packages && packageType in Packages[category]
    requires i < |Packages[category][packageType]| && k < |Packages[category][packageType][i].setFlags|
    ensures category == "common" && packageType == "system"
    ensures Packages[category][packageType][i].setFlags[k] == ("has_xmlsec", true)
  {
  }

  /** On Linux, the rules that can set `has_xmlsec` are the Arch Linux,
      Debian/Ubuntu and openSUSE rules; the lower-case-linux setters never
      fire. */
  lemma XmlsecSettersOnLinux(t: Target, flags: set<string>, i: nat)
    requires t.system.system == "Linux"
    requires i < |CommonSystem| && CommonSystem[i].setFlags != [] && Accepts(t, flags, CommonSystem[i])
    ensures var m := CommonSystem[i].matchInfo;
            m.distroIds == Some({"arch"}) || m.distroFamilies == Some({"debian", "ubuntu"})
            || m.distroFamilies == Some({"opensuse"})
  {
    var c := CommonSystem[i];
    if 11 <= i <= 14 {
      LowerCaseLinuxNeverMatches(t, flags, c);
    } else {
      assert i == 9 || i == 15 || i == 16;
    }
  }

  /***** Perforce *****/

  /** On Linux the Perforce rules need an x86_64 machine. */
  lemma PerforceNeedsX86(t: Target, flags: set<string>, i: nat)
    requires t.system.system == "Linux" && t.system.arch != "x86_64"
    requires i < |PerforceServiceIntegrations|
    ensures !Accepts(t, flags, PerforceServiceIntegrations[i])
  {
    if i == 1 {
      assert "Linux"[0] != "Darwin"[0];
    }
  }

  /***** MySQL *****/

  const RpmFamilies: set<string> := {"centos", "fedora", "rhel", "rocky"}

  /** On an APT system outside the RPM and openSUSE families, the Debian rule
      fires for `debian` and the Ubuntu rule for `ubuntu`, and no other. */
  lemma MysqlOnApt(t: Target, flags: set<string>, id: string, i: nat)
    requires LinuxWithFamilies(t) && t.system.systemInstallMethod == Apt
    requires t.system.distroFamilies.value * (RpmFamilies + {"opensuse"}) == {}
    requires t.system.distroId == Some(id) && id != ""
    requires i < |MysqlSystem|
    ensures Accepts(t, flags, MysqlSystem[i])
            <==> (id == "debian" && MysqlSystem[i].packages == ["libmariadb-dev"])
                 || (id == "ubuntu" && MysqlSystem[i].packages == ["libmysqlclient-dev"])
  {
    var fs := t.system.distroFamilies.value;
    var c := MysqlSystem[i];
    if i == 0 {
      assert Yum !in CommonInstallMethods;
    } else if i == 1 {
      assert Yum !in CommonInstallMethods;
    } else if i == 2 {
      assert Pacman !in CommonInstallMethods;
    } else if i == 3 {
      assert c.packages == ["libmariadb-dev"];
    } else if i == 4 {
      assert c.matchInfo.distroFamilies.value * fs == {};
    } else if i == 5 {
      assert c.packages == ["libmysqlclient-dev"];
    } else {
      assert "Linux"[0] != "Darwin"[0];
    }
  }

  /** On a YUM system of an RPM family, the RPM rule fires; the Amazon
      Linux 2 replacement fires as well exactly for distribution id `amzn`
      at version `2`; no other MySQL rule fires. */
  lemma MysqlOnRpm(t: Target, flags: set<string>, id: string, i: nat)
    requires LinuxWithFamilies(t) && t.system.systemInstallMethod == Yum
    requires t.system.distroFamilies.value * RpmFamilies != {}
    requires "opensuse" !in t.system.distroFamilies.value
    requires t.system.distroId == Some(id) && id != ""
    requires i < |MysqlSystem|
    ensures Accepts(t, flags, MysqlSystem[i])
            <==> MysqlSystem[i].packages == ["mariadb-connector-c-devel"]
                 || (id == "amzn" && VersionMatches(VersionMatch(Eq, [Num(2)]), t.distroVersion)
                     && MysqlSystem[i].packages == ["mariadb-devel"])
  {
    var fs := t.system.distroFamilies.value;
    var c := MysqlSystem[i];
    if i == 0 {
      assert c.matchInfo.distroFamilies.value == RpmFamilies;
      assert c.packages == ["mariadb-connector-c-devel"];
    } else if i == 1 {
      assert c.packages == ["mariadb-devel"];
    } else if i == 2 {
      assert Pacman !in CommonInstallMethods;
    } else if i == 3 {
      assert Apt !in CommonInstallMethods;
    } else if i == 4 {
      assert c.matchInfo.distroFamilies.value * fs == {};
    } else if i == 5 {
      assert Apt !in CommonInstallMethods;
    } else {
      assert "Linux"[0] != "Darwin"[0];
    }
  }

  /***** CVS *****/

  const CvsDistroIds: set<string> := {"amzn", "arch", "centos", "debian", "fedora", "opensuse", "rocky", "ubuntu"}

  /** On Linux a CVS rule fires exactly for the listed distribution ids and
      for RHEL at version 9 or later. */
  lemma CvsSelection(t: Target, flags: set<string>, id: string)
    requires t.system.system == "Linux" && t.system.distroId == Some(id) && id != ""
    ensures (exists i :: 0 <= i < |CvsSystem| && Accepts(t, flags, CvsSystem[i]))
            <==> id in CvsDistroIds || (id == "rhel" && VersionMatches(VersionMatch(Ge, [Num(9)]), t.distroVersion))
  {
    if id in CvsDistroIds {
      assert Accepts(t, flags, CvsSystem[0]);
    } else if id == "rhel" && VersionMatches(VersionMatch(Ge, [Num(9)]), t.distroVersion) {
      assert Accepts(t, flags, CvsSystem[1]);
    } else {
      forall i | 0 <= i < |CvsSystem| ensures !Accepts(t, flags, CvsSystem[i]) {
        if i == 2 {
          assert "Linux"[0] != "Darwin"[0];
        }
      }
    }
  }

  /** RHEL 8.9 and openSUSE Leap get no CVS rule. */
  lemma NoCvsForRhel8OrLeap(t: Target, flags: set<string>, i: nat)
    requires t.system.system == "Linux" && i < |CvsSystem|
    requires (t.system.distroId == Some("rhel") && t.distroVersion == [Num(8), Num(9)])
             || t.system.distroId == Some("opensuse-leap")
    ensures !Accepts(t, flags, CvsSystem[i])
  {
    DistroVersionExamples();
    if t.system.distroId == Some("opensuse-leap") {
      assert "opensuse-leap" !in CvsDistroIds;
    }
    if i == 2 {
      assert "Linux"[0] != "Darwin"[0];
    }
  }
}
