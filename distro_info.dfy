/** The package candidate table of rbinstall/distro_info.py, as constant data.

    Every `match_version(...)` predicate of the table is written as the
    `VersionMatch` it builds, and every dictionary of flags as the list of its
    entries in declared order. An absent key takes the constructor's default,
    which stands for "not given". */
module DistroInfo {
  import opened Wrappers
  import opened Versioning
  import opened InstallMethods

  /** `_PackageCandidateMatch`: each constraint is optional. */
  datatype CandidateMatch = CandidateMatch(
    archs: Option<set<string>> := None,
    distroFamilies: Option<set<string>> := None,
    distroIds: Option<set<string>> := None,
    distroVersion: Option<VersionMatch> := None,
    hasFlags: seq<(string, bool)> := [],
    rbVersion: Option<VersionMatch> := None,
    systems: Option<set<string>> := None)

  /** `_PackageCandidate`; an absent `match` is the match with no constraint. */
  datatype Candidate = Candidate(
    commands: seq<seq<string>> := [],
    installMethod: Option<InstallMethod> := None,
    allowFail: bool := false,
    matchInfo: CandidateMatch := CandidateMatch(),
    packages: seq<string> := [],
    setFlags: seq<(string, bool)> := [],
    skipPackages: seq<string> := [])

  /** One category: package type to ordered candidates. */
  type Bundle = map<string, seq<Candidate>>

  /***** common *****/

  const CommonSystem: seq<Candidate> := [
    // Amazon Linux 2
    Candidate(
      matchInfo := CandidateMatch(systems := Some({"Linux"}), distroIds := Some({"amzn"}),
                                  distroVersion := Some(VersionMatch(Eq, [Num(2)]))),
      commands := [["yum", "groupinstall", "-y", "Development Tools"]]),
    // CentOS
    Candidate(
      matchInfo := CandidateMatch(systems := Some({"Linux"}), distroIds := Some({"centos"})),
      commands := [
        ["dnf", "install", "-y", "dnf-plugins-core"],
        ["dnf", "config-manager", "--set-enabled", "crb"],
        ["yum", "install", "-y", "epel-release", "epel-next-release"]]),
    // openSUSE
    Candidate(
      matchInfo := CandidateMatch(systems := Some({"Linux"}), distroFamilies := Some({"opensuse"})),
      commands := [["zypper", "install", "-y", "-t", "pattern", "devel_basis"]]),
    // Red Hat Enterprise Linux 8 (x86)
    Candidate(
      matchInfo := CandidateMatch(archs := Some({"x86_64"}), systems := Some({"Linux"}),
                                  distroIds := Some({"rhel"}),
                                  distroVersion := Some(VersionMatch(Eq, [Num(8)]))),
      commands := [
        ["subscription-manager", "repos", "--enable", "codeready-builder-for-rhel-8-x86_64-rpms"],
        ["dnf", "install", "-y", "https://dl.fedoraproject.org/pub/epel/epel-release-latest-8.noarch.rpm"]]),
    // Red Hat Enterprise Linux 8 (ARM)
    Candidate(
      matchInfo := CandidateMatch(archs := Some({"aarch64"}), systems := Some({"Linux"}),
                                  distroIds := Some({"rhel"}),
                                  distroVersion := Some(VersionMatch(Eq, [Num(8)]))),
      commands := [
        ["subscription-manager", "repos", "--enable", "codeready-builder-for-rhel-8-aarch64-rpms"],
        ["dnf", "install", "-y", "https://dl.fedoraproject.org/pub/epel/epel-release-latest-8.noarch.rpm"]]),
    // Red Hat Enterprise Linux 9 (x86)
    Candidate(
      matchInfo := CandidateMatch(archs := Some({"x86_64"}), systems := Some({"Linux"}),
                                  distroIds := Some({"rhel"}),
                                  distroVersion := Some(VersionMatch(Ge, [Num(9)]))),
      commands := [
        ["subscription-manager", "repos", "--enable", "codeready-builder-for-rhel-9-x86_64-rpms"],
        ["dnf", "install", "-y", "https://dl.fedoraproject.org/pub/epel/epel-release-latest-9.noarch.rpm"]]),
    // Red Hat Enterprise Linux 9 (ARM)
    Candidate(
      matchInfo := CandidateMatch(archs := Some({"aarch64"}), systems := Some({"Linux"}),
                                  distroIds := Some({"rhel"}),
                                  distroVersion := Some(VersionMatch(Ge, [Num(9)]))),
      commands := [
        ["subscription-manager", "repos", "--enable", "codeready-builder-for-rhel-9-aarch64-rpms"],
        ["dnf", "install", "-y", "https://dl.fedoraproject.org/pub/epel/epel-release-latest-9.noarch.rpm"]]),
    // Rocky Linux 8
    Candidate(
      matchInfo := CandidateMatch(systems := Some({"Linux"}), distroIds := Some({"rocky"}),
                                  distroVersion := Some(VersionMatch(Le, [Num(9)]))),
      commands := [
        ["dnf", "install", "-y", "dnf-plugins-core"],
        ["yum", "install", "-y", "epel-release"]]),
    // Rocky Linux 9
    Candidate(
      matchInfo := CandidateMatch(systems := Some({"Linux"}), distroIds := Some({"rocky"}),
                                  distroVersion := Some(VersionMatch(Ge, [Num(9)]))),
      commands := [
        ["dnf", "install", "-y", "dnf-plugins-core"],
        ["dnf", "config-manager", "--set-enabled", "crb"],
        ["yum", "install", "-y", "epel-release"]]),
    // Arch Linux
    Candidate(
      matchInfo := CandidateMatch(systems := Some({"Linux"}), distroIds := Some({"arch"})),
      installMethod := Some(Pacman),
      packages := ["base-devel", "libffi", "libxml2", "libxslt", "openssl", "perl", "xmlsec"],
      setFlags := [("has_xmlsec", true)]),
    // Amazon Linux/CentOS/Fedora/RHEL/Rocky Linux: common rules for RPM-based distros
    Candidate(
      matchInfo := CandidateMatch(systems := Some({"Linux"}),
                                  distroFamilies := Some({"amzn", "centos", "fedora", "rhel"})),
      installMethod := Some(Yum),
      packages := ["gcc", "gcc-c++", "libffi-devel", "libxml2-devel", "libxslt-devel", "make",
                   "openssl-devel", "patch", "perl", "python3-devel", "libtool-ltdl-devel"]),
    // CentOS 9+ (the system is written in lower case)
    Candidate(
      matchInfo := CandidateMatch(systems := Some({"linux"}), distroIds := Some({"centos"}),
                                  distroVersion := Some(VersionMatch(Ge, [Num(9)]))),
      packages := ["xmlsec1-devel", "xmlsec1-openssl-devel"],
      setFlags := [("has_xmlsec", true)]),
    // Fedora (the system is written in lower case)
    Candidate(
      matchInfo := CandidateMatch(systems := Some({"linux"}), distroIds := Some({"fedora"})),
      packages := ["xmlsec1-devel", "xmlsec1-openssl-devel"],
      setFlags := [("has_xmlsec", true)]),
    // Red Hat Enterprise Linux 9+ (the system is written in lower case)
    Candidate(
      matchInfo := CandidateMatch(systems := Some({"linux"}), distroIds := Some({"rhel"}),
                                  distroVersion := Some(VersionMatch(Ge, [Num(9)]))),
      packages := ["xmlsec1-devel", "xmlsec1-openssl-devel"],
      setFlags := [("has_xmlsec", true)]),
    // Rocky Linux 9+ (the system is written in lower case)
    Candidate(
      matchInfo := CandidateMatch(systems := Some({"linux"}), distroIds := Some({"rocky"}),
                                  distroVersion := Some(VersionMatch(Ge, [Num(9)]))),
      packages := ["xmlsec1-devel", "xmlsec1-openssl-devel"],
      setFlags := [("has_xmlsec", true)]),
    // Debian/Ubuntu
    Candidate(
      matchInfo := CandidateMatch(systems := Some({"Linux"}), distroFamilies := Some({"debian", "ubuntu"})),
      installMethod := Some(Apt),
      packages := ["build-essential", "libffi-dev", "libjpeg-dev", "libssl-dev", "libxml2-dev",
                   "libxslt-dev", "libxmlsec1-dev", "libxmlsec1-openssl", "patch", "pkg-config",
                   "python3-dev", "python3-pip"],
      setFlags := [("has_xmlsec", true)]),
    // openSUSE
    Candidate(
      matchInfo := CandidateMatch(systems := Some({"Linux"}), distroFamilies := Some({"opensuse"})),
      installMethod := Some(Zypper),
      packages := ["gcc-c++", "libffi-devel", "libopenssl-devel", "libxml2-devel", "libxslt-devel",
                   "python3-devel", "xmlsec1-devel", "xmlsec1-openssl-devel"],
      setFlags := [("has_xmlsec", true)])
  ]

  const CommonVirtualenv: seq<Candidate> := [
    Candidate(
      installMethod := Some(Pip),
      // "--no-binary lxml" followed by the lxml package itself
      packages := ["pip", "setuptools", "wheel", "--no-binary", "lxml", "lxml"])
  ]

  /***** optional categories *****/

  const DjangoStoragesServiceIntegrations: seq<Candidate> := [
    Candidate(installMethod := Some(ReviewboardExtra), packages := ["s3", "swift"])
  ]

  const CvsSystem: seq<Candidate> := [
    // Distributions that ship cvs
    Candidate(
      matchInfo := CandidateMatch(systems := Some({"Linux"}),
                                  distroIds := Some({"amzn", "arch", "centos", "debian", "fedora",
                                                     "opensuse", "rocky", "ubuntu"})),
      installMethod := Some(SystemDefault),
      packages := ["cvs"]),
    // Red Hat Enterprise Linux 9+
    Candidate(
      matchInfo := CandidateMatch(systems := Some({"Linux"}), distroIds := Some({"rhel"}),
                                  distroVersion := Some(VersionMatch(Ge, [Num(9)]))),
      installMethod := Some(SystemDefault),
      packages := ["cvs"]),
    // macOS
    Candidate(
      matchInfo := CandidateMatch(systems := Some({"Darwin"})),
      installMethod := Some(Brew),
      packages := ["cvs"])
  ]

  const GitSystem: seq<Candidate> := [
    Candidate(installMethod := Some(SystemDefault), packages := ["git"])
  ]

  const LdapServiceIntegrations: seq<Candidate> := [
    Candidate(installMethod := Some(ReviewboardExtra), packages := ["ldap"])
  ]

  const MemcachedSystem: seq<Candidate> := [
    Candidate(
      matchInfo := CandidateMatch(systems := Some({"Darwin", "Linux"})),
      installMethod := Some(SystemDefault),
      packages := ["memcached"])
  ]

  const MercurialServiceIntegrations: seq<Candidate> := [
    Candidate(installMethod := Some(ReviewboardExtra), packages := ["mercurial"])
  ]

  const MysqlSystem: seq<Candidate> := [
    // Amazon Linux/CentOS/Fedora/RHEL
    Candidate(
      matchInfo := CandidateMatch(systems := Some({"Linux"}),
                                  distroFamilies := Some({"centos", "fedora", "rhel", "rocky"})),
      installMethod := Some(Yum),
      packages := ["mariadb-connector-c-devel"]),
    // Amazon Linux 2 uses a different package for MySQL development support
    Candidate(
      matchInfo := CandidateMatch(systems := Some({"Linux"}), distroIds := Some({"amzn"}),
                                  distroVersion := Some(VersionMatch(Eq, [Num(2)]))),
      installMethod := Some(Yum),
      skipPackages := ["mariadb-connector-c-devel"],
      packages := ["mariadb-devel"]),
    // Arch Linux
    Candidate(
      matchInfo := CandidateMatch(systems := Some({"Linux"}), distroIds := Some({"arch"})),
      installMethod := Some(Pacman),
      packages := ["mariadb-libs"]),
    // Debian
    Candidate(
      matchInfo := CandidateMatch(systems := Some({"Linux"}), distroIds := Some({"debian"})),
      installMethod := Some(Apt),
      packages := ["libmariadb-dev"]),
    // openSUSE
    Candidate(
      matchInfo := CandidateMatch(systems := Some({"Linux"}), distroFamilies := Some({"opensuse"})),
      installMethod := Some(Zypper),
      packages := ["libmariadb-devel"]),
    // Ubuntu
    Candidate(
      matchInfo := CandidateMatch(systems := Some({"Linux"}), distroIds := Some({"ubuntu"})),
      installMethod := Some(Apt),
      packages := ["libmysqlclient-dev"]),
    // macOS
    Candidate(
      matchInfo := CandidateMatch(systems := Some({"Darwin"})),
      installMethod := Some(Brew),
      packages := ["mysql"])
  ]

  const MysqlServiceIntegrations: seq<Candidate> := [
    Candidate(installMethod := Some(ReviewboardExtra), packages := ["mysql"])
  ]

  const PerforceServiceIntegrations: seq<Candidate> := [
    // Linux (common)
    Candidate(
      allowFail := true,
      matchInfo := CandidateMatch(archs := Some({"x86_64"}), systems := Some({"Linux"})),
      installMethod := Some(ReviewboardExtra),
      packages := ["p4"]),
    // macOS
    Candidate(
      allowFail := true,
      matchInfo := CandidateMatch(systems := Some({"Darwin"})),
      installMethod := Some(ReviewboardExtra),
      packages := ["p4"])
  ]

  const PostgresServiceIntegrations: seq<Candidate> := [
    Candidate(installMethod := Some(ReviewboardExtra), packages := ["postgres"])
  ]

  const SamlServiceIntegrations: seq<Candidate> := [
    Candidate(
      matchInfo := CandidateMatch(hasFlags := [("has_xmlsec", true)],
                                  rbVersion := Some(VersionMatch(Ge, [Num(6), Num(0)]))),
      installMethod := Some(ReviewboardExtra),
      packages := ["saml"])
  ]

  const SubversionSystem: seq<Candidate> := [
    // Arch Linux
    Candidate(
      matchInfo := CandidateMatch(systems := Some({"Linux"}), distroIds := Some({"arch"})),
      installMethod := Some(Pacman),
      packages := ["subversion"]),
    // CentOS/Fedora/RHEL
    Candidate(
      matchInfo := CandidateMatch(systems := Some({"Linux"}),
                                  distroFamilies := Some({"centos", "fedora", "rhel"})),
      installMethod := Some(Yum),
      packages := ["subversion", "subversion-devel"]),
    // Debian/Ubuntu
    Candidate(
      matchInfo := CandidateMatch(systems := Some({"Linux"}), distroFamilies := Some({"debian", "ubuntu"})),
      installMethod := Some(Apt),
      packages := ["subversion", "libsvn-dev"]),
    Candidate(
      matchInfo := CandidateMatch(systems := Some({"Linux"}), distroFamilies := Some({"debian", "ubuntu"})),
      installMethod := Some(AptBuildDep),
      packages := ["python3-svn"]),
    // openSUSE
    Candidate(
      matchInfo := CandidateMatch(systems := Some({"Linux"}), distroFamilies := Some({"opensuse"})),
      installMethod := Some(Zypper),
      packages := ["subversion", "subversion-devel"]),
    // macOS
    Candidate(
      matchInfo := CandidateMatch(systems := Some({"Darwin"})),
      installMethod := Some(Brew),
      packages := ["subversion"])
  ]

  const SubversionServiceIntegrations: seq<Candidate> := [
    Candidate(installMethod := Some(RemotePyscript), packages := ["https://pysvn.reviewboard.org"])
  ]

  /** `PACKAGES`: category name to package type to candidates. */
  const Packages: map<string, Bundle> := map[
    "common" := map["system" := CommonSystem, "virtualenv" := CommonVirtualenv],
    "django-storages" := map["service-integrations" := DjangoStoragesServiceIntegrations],
    "cvs" := map["system" := CvsSystem],
    "git" := map["system" := GitSystem],
    "ldap" := map["service-integrations" := LdapServiceIntegrations],
    "memcached" := map["system" := MemcachedSystem],
    "mercurial" := map["service-integrations" := MercurialServiceIntegrations],
    "mysql" := map["system" := MysqlSystem, "service-integrations" := MysqlServiceIntegrations],
    "perforce" := map["service-integrations" := PerforceServiceIntegrations],
    "postgres" := map["service-integrations" := PostgresServiceIntegrations],
    "saml" := map["service-integrations" := SamlServiceIntegrations],
    "subversion" := map["system" := SubversionSystem, "service-integrations" := SubversionServiceIntegrations]
  ]
}
