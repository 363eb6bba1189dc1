/** The installation methods of rbinstall/install_methods.py. */
module InstallMethods {
  import opened Wrappers

  /** `InstallMethodType`: one constructor per enum member, in declared order. */
  datatype InstallMethod =
    | Apt             // the Debian/Ubuntu apt package manager
    | AptBuildDep     // apt-get build-dep
    | Brew            // the macOS brew package manager
    | Pacman          // the Arch Linux pacman package manager
    | Pip             // pip
    | RemotePyscript  // download and run an online Python script
    | ReviewboardExtra  // extra package installation targets for Review Board
    | Shell           // a shell command
    | Yum             // the RedHat/CentOS/Fedora "yum" package manager
    | Zypper          // the openSUSE zypper package manager
    | SystemDefault   // stands for the target system's own package tool
  {
    /** The member's string value (the enum derives from `str`). */
    function Value(): string {
      match this
      case Apt => "apt"
      case AptBuildDep => "apt-build-dep"
      case Brew => "brew"
      case Pacman => "pacman"
      case Pip => "pip"
      case RemotePyscript => "remote-pyscript"
      case ReviewboardExtra => "reviewboard-extra"
      case Shell => "shell"
      case Yum => "yum"
      case Zypper => "zypper"
      case SystemDefault => "system-default"
    }
  }

  /** `InstallMethodType(value)`: the member with that value, if any. */
  function FromValue(value: string): Option<InstallMethod> {
    if value == "apt" then Some(Apt)
    else if value == "apt-build-dep" then Some(AptBuildDep)
    else if value == "brew" then Some(Brew)
    else if value == "pacman" then Some(Pacman)
    else if value == "pip" then Some(Pip)
    else if value == "remote-pyscript" then Some(RemotePyscript)
    else if value == "reviewboard-extra" then Some(ReviewboardExtra)
    else if value == "shell" then Some(Shell)
    else if value == "yum" then Some(Yum)
    else if value == "zypper" then Some(Zypper)
    else if value == "system-default" then Some(SystemDefault)
    else None
  }

  /** Values and members correspond one to one. */
  lemma ValueRoundTrip(m: InstallMethod, value: string)
    ensures FromValue(m.Value()) == Some(m)
    ensures FromValue(value) == Some(m) <==> m.Value() == value
  {
  }

  /** The methods usable on every target system. `COMMON_INSTALL_METHODS`
      (imported at rbinstall/install_steps.py:17) is taken to be these four,
      the methods that need no system package manager; its definition is not
      part of this model. */
  const CommonInstallMethods: set<InstallMethod> := {Pip, RemotePyscript, ReviewboardExtra, Shell}
}
