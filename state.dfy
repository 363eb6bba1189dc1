/** The Linux distribution detection of rbinstall/state.py: reading the
    lines of an os-release file, deriving the distro families from `ID` and
    `ID_LIKE`, choosing the default package tool, and building the Linux
    system record or the error the installer raises. */
module SystemState {
  import opened Wrappers
  import opened Strings
  import opened InstallMethods
  import opened InstallSteps

  /** `InstallerError(message)`. */
  datatype InstallerError = InstallerError(message: string)

  const DocsUrl: string := "https://www.reviewboard.org/docs/manual/latest/"
  const InstallationDocsUrl: string := DocsUrl + "admin/installation/"

  /***** The default install method *****/

  /** `get_default_linux_install_method`: the first family group present,
      in priority order, picks the package tool. */
  function DefaultLinuxInstallMethod(families: set<string>): (r: Option<InstallMethod>)
    ensures r.Some? ==> r.value in {Apt, Yum, Pacman, Zypper}
  {
    if "debian" in families then Some(Apt)
    else if "rhel" in families || "fedora" in families then Some(Yum)
    else if "arch" in families then Some(Pacman)
    else if "opensuse" in families then Some(Zypper)
    else None
  }

  /** Each tool is chosen exactly when its family is present and no family
      of higher priority is; no tool is chosen when none of the five is. */
  lemma DefaultMethodPriority(families: set<string>)
    ensures DefaultLinuxInstallMethod(families) == Some(Apt) <==> "debian" in families
    ensures DefaultLinuxInstallMethod(families) == Some(Yum)
            <==> "debian" !in families && ("rhel" in families || "fedora" in families)
    ensures DefaultLinuxInstallMethod(families) == Some(Pacman)
            <==> "debian" !in families && "rhel" !in families && "fedora" !in families && "arch" in families
    ensures DefaultLinuxInstallMethod(families) == Some(Zypper)
            <==> "debian" !in families && "rhel" !in families && "fedora" !in families
                 && "arch" !in families && "opensuse" in families
    ensures DefaultLinuxInstallMethod(families).None?
            <==> families * {"debian", "rhel", "fedora", "arch", "opensuse"} == {}
  {
    var known := {"debian", "rhel", "fedora", "arch", "opensuse"};
    forall x | x in known && x in families ensures families * known != {} {
      assert x in families * known;
    }
  }

  /** Only the five named families matter: adding any other leaves the choice
      unchanged. */
  lemma DefaultMethodIgnoresOthers(families: set<string>, other: string)
    requires other !in {"debian", "rhel", "fedora", "arch", "opensuse"}
    ensures DefaultLinuxInstallMethod(families + {other}) == DefaultLinuxInstallMethod(families)
  {
  }

  /***** Families *****/

  /** Python's `d.get(key)`. */
  function Get(m: map<string, string>, key: string): Option<string> {
    if key in m then Some(m[key]) else None
  }

  /** Python truthiness of an optional string. */
  predicate Truthy(o: Option<string>) {
    o.Some? && o.value != ""
  }

  function WordSet(ws: seq<string>): set<string> {
    set w | w in ws
  }

  /** The families of a distro: its `ID`, when given and not empty, and
      every whitespace-separated word of its `ID_LIKE`. */
  function Families(distroInfo: map<string, string>): set<string> {
    var id := Get(distroInfo, "ID");
    var idLike := Get(distroInfo, "ID_LIKE");
    (if Truthy(id) then {id.value} else {}) + (if Truthy(idLike) then WordSet(Words(idLike.value)) else {})
  }

  /** The families derivation, as the installer builds the set. */
  method LinuxFamilies(distroInfo: map<string, string>) returns (families: set<string>)
    ensures families == Families(distroInfo)
  {
    var distroId := Get(distroInfo, "ID");
    var idLike := Get(distroInfo, "ID_LIKE");
    families := {};
    if Truthy(distroId) {
      families := families + {distroId.value};
    }
    if Truthy(idLike) {
      families := families + WordSet(Words(idLike.value));
    }
  }

  /** A family is the distro's own id or a word of `ID_LIKE`, and no family
      is empty or holds whitespace. */
  lemma FamiliesMembers(distroInfo: map<string, string>, x: string)
    ensures x in Families(distroInfo)
            <==> (Truthy(Get(distroInfo, "ID")) && x == distroInfo["ID"])
                 || ("ID_LIKE" in distroInfo && x in Words(distroInfo["ID_LIKE"]))
    ensures x in Families(distroInfo) && x != Get(distroInfo, "ID").GetOr("") ==> x != "" && NoSpace(x)
  {
    if "ID_LIKE" in distroInfo && distroInfo["ID_LIKE"] == "" {
      assert Words("") == [];
    }
    if x in Families(distroInfo) && x != Get(distroInfo, "ID").GetOr("") {
      var ws := Words(distroInfo["ID_LIKE"]);
      var i :| 0 <= i < |ws| && ws[i] == x;
    }
  }

  /** An `ID_LIKE` written as space-separated words contributes exactly
      those words, next to the distro's own id. */
  lemma FamiliesOfJoinedWords(distroInfo: map<string, string>, id: string, ws: seq<string>)
    requires forall i :: 0 <= i < |ws| ==> ws[i] != [] && NoSpace(ws[i])
    requires id != "" && Get(distroInfo, "ID") == Some(id)
    requires Get(distroInfo, "ID_LIKE") == Some(JoinWith(ws, " "))
    ensures Families(distroInfo) == {id} + WordSet(ws)
  {
    WordsJoin(ws);
    if ws == [] {
      assert JoinWith(ws, " ") == "";
    }
  }

  /***** os-release lines *****/

  /** The characters of `[a-zA-Z0-9_]`. */
  predicate IsNameChar(c: char) {
    'a' <= c <= 'z' || 'A' <= c <= 'Z' || '0' <= c <= '9' || c == '_'
  }

  predicate IsName(s: string) {
    |s| > 0 && forall i :: 0 <= i < |s| ==> IsNameChar(s[i])
  }

  /** The length of the longest prefix made of name characters. */
  function NameLength(s: string): (n: nat)
    ensures n <= |s|
    ensures forall i :: 0 <= i < n ==> IsNameChar(s[i])
    ensures n < |s| ==> !IsNameChar(s[n])
  {
    if s != [] && IsNameChar(s[0]) then 1 + NameLength(s[1..]) else 0
  }

  /** The characters a backslash escapes: backslash, `$`, `"`, `'` and backquote. */
  predicate IsEscapable(c: char) {
    c == '\\' || c == '$' || c == '"' || c == '\'' || c == '`'
  }

  /** The substitution of `\\([\\$"'`])` by the character it escapes, left to
      right; a backslash before any other character, or at the end, stays. */
  function Unescape(v: string): string {
    if |v| >= 2 && v[0] == '\\' && IsEscapable(v[1]) then [v[1]] + Unescape(v[2..])
    else if v == [] then []
    else [v[0]] + Unescape(v[1..])
  }

  /** The inverse direction: a backslash before every escapable character. */
  function Escape(s: string): string {
    if s == [] then []
    else (if IsEscapable(s[0]) then ['\\', s[0]] else [s[0]]) + Escape(s[1..])
  }

  predicate IsQuote(c: char) {
    c == '"' || c == '\''
  }

  /** The line pattern `^(name)=(quote?)(value)(same quote)$` matched against
      one line as `readlines` returns it, then the value unescaped. `$`
      matches at the end or before one final newline, and the value cannot
      span a newline. The name runs up to the first `=`, which no name
      character equals. One pair of equal quotes around the value is removed;
      a lone or unmatched quote stays in the value. */
  function ParseLine(line: string): (r: Option<(string, string)>)
    ensures r.Some? ==> IsName(r.value.0) && '\n' !in r.value.1
  {
    var body := LineBody(line);
    var n := NameLength(body);
    if '\n' in body || n == 0 || n == |body| || body[n] != '=' then None
    else
      var value := Unquoted(body[n + 1..]);
      UnescapeNoNewline(value);
      Some((body[..n], Unescape(value)))
  }

  /** The line without its final newline, if it has one. */
  function LineBody(line: string): string {
    if line != [] && line[|line| - 1] == '\n' then line[..|line| - 1] else line
  }

  /** The value without one pair of equal surrounding quotes, if it has them. */
  function Unquoted(rest: string): string {
    if |rest| >= 2 && IsQuote(rest[0]) && rest[|rest| - 1] == rest[0] then rest[1..|rest| - 1] else rest
  }

  lemma {:induction false} UnescapeNoNewline(v: string)
    requires '\n' !in v
    ensures '\n' !in Unescape(v)
  {
    if |v| >= 2 && v[0] == '\\' && IsEscapable(v[1]) {
      assert v[1] in v;
      UnescapeNoNewline(v[2..]);
    } else if v != [] {
      UnescapeNoNewline(v[1..]);
    }
  }

  /** A line as a tool would write it: the name, `=`, and the escaped value
      in double quotes. */
  function FormatLine(name: string, value: string): string {
    name + "=\"" + Escape(value) + "\""
  }

  /** Unescaping undoes escaping. */
  lemma {:induction false} UnescapeEscape(s: string)
    ensures Unescape(Escape(s)) == s
  {
    if s != [] {
      UnescapeEscape(s[1..]);
      if IsEscapable(s[0]) {
        assert Escape(s) == ['\\', s[0]] + Escape(s[1..]);
        assert Escape(s)[2..] == Escape(s[1..]);
      } else {
        assert Escape(s) == [s[0]] + Escape(s[1..]);
        assert Escape(s)[1..] == Escape(s[1..]);
      }
      assert s == [s[0]] + s[1..];
    }
  }

  /** Text with no backslash is left as it is. */
  lemma {:induction false} UnescapePlain(s: string)
    requires '\\' !in s
    ensures Unescape(s) == s
  {
    if s != [] {
      assert s[0] in s;
      assert forall c :: c in s[1..] ==> c in s;
      UnescapePlain(s[1..]);
      assert s == [s[0]] + s[1..];
    }
  }

  lemma {:induction false} EscapeNoNewline(s: string)
    requires '\n' !in s
    ensures '\n' !in Escape(s)
  {
    if s != [] {
      assert s[0] in s;
      assert forall c :: c in s[1..] ==> c in s;
      EscapeNoNewline(s[1..]);
    }
  }

  /** Reading back a written line, with or without its newline, gives the
      name and the value that were written. */
  lemma ParseFormatLine(name: string, value: string, newline: bool)
    requires IsName(name) && '\n' !in value
    ensures ParseLine(FormatLine(name, value) + (if newline then "\n" else "")) == Some((name, value))
  {
    var e := Escape(value);
    assert FormatLine(name, value) == name + "=" + ['"'] + e + ['"'];
    EscapeNoNewline(value);
    ParseQuotedLine(name, '"', e, newline);
    UnescapeEscape(value);
  }

  /** A value in either kind of quotes, single or double, loses its quotes
      and is unescaped, with or without the line's newline. */
  lemma ParseQuotedLine(name: string, q: char, v: string, newline: bool)
    requires IsName(name) && IsQuote(q) && '\n' !in v
    ensures ParseLine(name + "=" + [q] + v + [q] + (if newline then "\n" else "")) == Some((name, Unescape(v)))
  {
    var rest := [q] + v + [q];
    assert name + "=" + [q] + v + [q] + (if newline then "\n" else "")
        == name + "=" + rest + (if newline then "\n" else "");
    QuotedValue(q, v);
    AssignmentLine(name, rest, newline);
  }

  /** One pair of equal quotes is removed, and it adds no newline. */
  lemma QuotedValue(q: char, v: string)
    requires IsQuote(q) && '\n' !in v
    ensures Unquoted([q] + v + [q]) == v && '\n' !in [q] + v + [q]
  {
    var rest := [q] + v + [q];
    assert rest[1..|rest| - 1] == v;
  }

  /** A bare value, one not enclosed in a pair of equal quotes, is only
      unescaped, with or without the line's newline. */
  lemma ParseBareLine(name: string, v: string, newline: bool)
    requires IsName(name) && '\n' !in v
    requires !(|v| >= 2 && IsQuote(v[0]) && v[|v| - 1] == v[0])
    ensures ParseLine(name + "=" + v + (if newline then "\n" else "")) == Some((name, Unescape(v)))
  {
    AssignmentLine(name, v, newline);
  }

  /** The name of `name=rest` ends at the `=`, and the value is `rest` with
      its quotes removed and then unescaped. */
  lemma AssignmentLine(name: string, rest: string, newline: bool)
    requires IsName(name) && '\n' !in rest
    ensures ParseLine(name + "=" + rest + (if newline then "\n" else "")) == Some((name, Unescape(Unquoted(rest))))
  {
    var body := name + "=" + rest;
    assert body[|body| - 1] != '\n' by {
      if rest != [] {
        assert body[|body| - 1] == rest[|rest| - 1];
        assert rest[|rest| - 1] in rest;
      } else {
        assert body[|body| - 1] == '=';
      }
    }
    LineBodyOfBody(body, newline);
    ParseAssignmentBody(name, rest);
  }

  /** Without a final newline of its own, the body is what the line keeps. */
  lemma LineBodyOfBody(body: string, newline: bool)
    requires body != [] && body[|body| - 1] != '\n'
    ensures LineBody(body + (if newline then "\n" else "")) == body
  {
    if newline {
      assert (body + "\n")[..|body|] == body;
    } else {
      assert body + "" == body;
    }
  }

  /** What a line whose body is `name=rest` records. */
  lemma ParseAssignmentBody(name: string, rest: string)
    requires IsName(name) && '\n' !in rest
    ensures forall line :: LineBody(line) == name + "=" + rest ==> ParseLine(line) == Some((name, Unescape(Unquoted(rest))))
  {
    var body := name + "=" + rest;
    assert body == name + ("=" + rest);
    NameLengthOfName(name, "=" + rest);
    assert body[|name|] == '=' && body[..|name|] == name && body[|name| + 1..] == rest;
    assert '\n' !in body by {
      assert forall c :: c in body ==> c in name || c == '=' || c in rest;
    }
  }

  /** A line whose leading name is followed by anything but `=` (for
      instance `FOO bar`) records nothing. */
  lemma NameWithoutAssignmentIgnored(name: string, c: char, rest: string)
    requires IsName(name) && c != '=' && !IsNameChar(c)
    ensures ParseLine(name + [c] + rest).None?
  {
    var line := name + [c] + rest;
    var body := LineBody(line);
    assert line == name + ([c] + rest);
    NameLengthOfName(name, [c] + rest);
    if '\n' !in body {
      assert body <= line;
      if |body| > |name| {
        assert body[..|name| + 1] == line[..|name| + 1];
        NameLengthOfPrefix(body, line);
        assert body[|name|] == c;
      } else {
        assert body == name;
      }
    }
  }

  /** A recorded line starts with its name and `=`, and its name is the
      whole run of name characters at the start. */
  lemma ParseLineShape(line: string)
    requires ParseLine(line).Some?
    ensures var name := ParseLine(line).value.0;
            name + "=" <= line && NameLength(line) == |name|
  {
    var body := LineBody(line);
    var n := NameLength(body);
    assert body <= line;
    assert body[..n + 1] == body[..n] + "=";
    assert NameLength(line) == NameLength(body) by {
      NameLengthOfPrefix(body, line);
    }
  }

  lemma {:induction false} NameLengthOfPrefix(body: string, line: string)
    requires body <= line && NameLength(body) < |body|
    ensures NameLength(line) == NameLength(body)
  {
    if body != [] && IsNameChar(body[0]) {
      NameLengthOfPrefix(body[1..], line[1..]);
    }
  }

  /** An empty line, a comment and any line that does not start with a name
      character record nothing. */
  lemma NonNameLineIgnored(line: string)
    requires line == [] || !IsNameChar(line[0])
    ensures ParseLine(line).None?
  {
    var body := LineBody(line);
    if body != [] {
      assert body[0] == line[0];
    }
  }

  lemma {:induction false} NameLengthOfName(name: string, tail: string)
    requires IsName(name) && tail != [] && !IsNameChar(tail[0])
    ensures NameLength(name + tail) == |name|
  {
    var s := name + tail;
    if |name| == 1 {
      assert s[1..] == tail;
    } else {
      assert s[1..] == name[1..] + tail;
      NameLengthOfName(name[1..], tail);
    }
  }

  /***** The os-release map *****/

  /** Entry `e` sets `name`. */
  predicate SetsName(e: Option<(string, string)>, name: string) {
    e.Some? && e.value.0 == name
  }

  /** The map after recording the entries in order: each entry sets its
      name, overwriting an earlier value; a line that did not match records
      nothing. */
  function Collect(entries: seq<Option<(string, string)>>): map<string, string> {
    if entries == [] then map[]
    else
      var n := |entries| - 1;
      var info := Collect(entries[..n]);
      match entries[n]
      case None => info
      case Some(entry) => info[entry.0 := entry.1]
  }

  /** Every line, parsed. */
  function ParsedLines(lines: seq<string>): (r: seq<Option<(string, string)>>)
    ensures |r| == |lines|
  {
    seq(|lines|, k requires 0 <= k < |lines| => ParseLine(lines[k]))
  }

  function OsReleaseInfo(lines: seq<string>): map<string, string> {
    Collect(ParsedLines(lines))
  }

  /** The loop of `get_linux_distro_info` over the lines of the file it found. */
  method ParseOsRelease(lines: seq<string>) returns (distroInfo: map<string, string>)
    ensures distroInfo == OsReleaseInfo(lines)
  {
    ghost var parsed := ParsedLines(lines);
    distroInfo := map[];
    for k := 0 to |lines|
      invariant distroInfo == Collect(parsed[..k])
    {
      assert parsed[..k + 1][..k] == parsed[..k];
      var m := ParseLine(lines[k]);
      assert parsed[k] == m;
      if m.Some? {
        distroInfo := distroInfo[m.value.0 := m.value.1];
      }
    }
    assert parsed[..|lines|] == parsed;
  }

  /** A name is in the map exactly when some entry sets it. */
  lemma {:induction false} CollectHas(entries: seq<Option<(string, string)>>, name: string)
    ensures name in Collect(entries) <==> exists i :: 0 <= i < |entries| && SetsName(entries[i], name)
  {
    if entries != [] {
      var n := |entries| - 1;
      var prefix := entries[..n];
      CollectHas(prefix, name);
      if exists i :: 0 <= i < n && SetsName(prefix[i], name) {
        var i :| 0 <= i < n && SetsName(prefix[i], name);
        assert entries[i] == prefix[i];
      }
      if exists i :: 0 <= i < |entries| && SetsName(entries[i], name) {
        var i :| 0 <= i < |entries| && SetsName(entries[i], name);
        if i < n {
          assert prefix[i] == entries[i];
        }
      }
    }
  }

  /** A later entry overwrites an earlier one. */
  lemma {:induction false} CollectLastWins(entries: seq<Option<(string, string)>>, name: string, i: nat)
    requires i < |entries| && SetsName(entries[i], name)
    requires forall j :: i < j < |entries| ==> !SetsName(entries[j], name)
    ensures name in Collect(entries) && Collect(entries)[name] == entries[i].value.1
  {
    var n := |entries| - 1;
    if i < n {
      var prefix := entries[..n];
      assert prefix[i] == entries[i];
      forall j | i < j < n ensures !SetsName(prefix[j], name) {
        assert prefix[j] == entries[j];
      }
      CollectLastWins(prefix, name, i);
      assert !SetsName(entries[n], name);
    }
  }

  /** A name is in the os-release map exactly when some line sets it. */
  lemma OsReleaseHas(lines: seq<string>, name: string)
    ensures name in OsReleaseInfo(lines) <==> exists i :: 0 <= i < |lines| && SetsName(ParseLine(lines[i]), name)
  {
    var parsed := ParsedLines(lines);
    CollectHas(parsed, name);
    assert forall i :: 0 <= i < |lines| ==> parsed[i] == ParseLine(lines[i]);
  }

  /** A later line overwrites an earlier one: the map holds the value of the
      last line that sets the name. */
  lemma OsReleaseLastWins(lines: seq<string>, name: string, i: nat)
    requires i < |lines| && SetsName(ParseLine(lines[i]), name)
    requires forall j :: i < j < |lines| ==> !SetsName(ParseLine(lines[j]), name)
    ensures name in OsReleaseInfo(lines) && OsReleaseInfo(lines)[name] == ParseLine(lines[i]).value.1
  {
    var parsed := ParsedLines(lines);
    assert forall j :: 0 <= j < |lines| ==> parsed[j] == ParseLine(lines[j]);
    CollectLastWins(parsed, name, i);
  }

  /***** The Linux system record *****/

  const NoDistroInfoMessage: string :=
    "Could not determine the distribution of Linux being used. "
    + "This indicates you may be missing /etc/os-release and "
    + "/usr/lib/os-release files. You may need to install through "
    + "another method. See " + InstallationDocsUrl + " for "
    + "instructions."

  function UnsupportedFamilyMessage(familiesStr: string): string {
    "The Review Board installer doesn't support installing on "
    + "this family of Linux (" + familiesStr + "). Please contact "
    + "support@beanbaginc.com for assistance. You may need to "
    + "install through another method. See "
    + InstallationDocsUrl + " for instructions."
  }

  /** The Linux branch of `get_system_info`, given the parsed os-release map
      and the values it takes from the environment and the interpreter. */
  function LinuxSystemInfo(distroInfo: map<string, string>, arch: string, bootstrapPythonExe: string,
                           systemPythonExe: string): (r: Result<SystemInfo, InstallerError>)
    ensures r.Failure? <==> distroInfo == map[] || DefaultLinuxInstallMethod(Families(distroInfo)).None?
    ensures distroInfo == map[] ==> r == Failure(InstallerError(NoDistroInfoMessage))
    ensures distroInfo != map[] && DefaultLinuxInstallMethod(Families(distroInfo)).None?
            ==> r == Failure(InstallerError(UnsupportedFamilyMessage(JoinWith(Sorted(Families(distroInfo)), ", "))))
    ensures r.Success? ==> r.value.system == "Linux" && r.value.distroFamilies == Some(Families(distroInfo))
                           && Some(r.value.systemInstallMethod) == DefaultLinuxInstallMethod(Families(distroInfo))
  {
    if distroInfo == map[] then Failure(InstallerError(NoDistroInfoMessage))
    else
      var families := Families(distroInfo);
      var familiesStr := JoinWith(Sorted(families), ", ");
      match DefaultLinuxInstallMethod(families)
      case None => Failure(InstallerError(UnsupportedFamilyMessage(familiesStr)))
      case Some(installMethod) =>
        var distroName := Get(distroInfo, "NAME");
        var prettyName := Get(distroInfo, "PRETTY_NAME");
        var version := Get(distroInfo, "VERSION_ID");
        Success(SystemInfo(
          arch := arch,
          bootstrapPythonExe := bootstrapPythonExe,
          paths := map[],
          systemInstallMethod := installMethod,
          system := "Linux",
          systemPythonExe := systemPythonExe,
          version := if Truthy(version) then version.value else "",
          distroFamilies := Some(families),
          distroFullName := if Truthy(prettyName) then prettyName else distroName,
          distroId := Get(distroInfo, "ID"),
          distroName := distroName))
  }

  /** The record's optional fields follow the map: a missing `VERSION_ID`
      gives the empty version, a missing `PRETTY_NAME` falls back to `NAME`,
      and missing names give none. */
  lemma LinuxSystemInfoFields(distroInfo: map<string, string>, arch: string, bootstrapPythonExe: string,
                              systemPythonExe: string)
    requires LinuxSystemInfo(distroInfo, arch, bootstrapPythonExe, systemPythonExe).Success?
    ensures var info := LinuxSystemInfo(distroInfo, arch, bootstrapPythonExe, systemPythonExe).value;
            info.arch == arch && info.bootstrapPythonExe == bootstrapPythonExe
            && info.systemPythonExe == systemPythonExe && info.paths == map[]
            && (info.version == "" <==> "VERSION_ID" !in distroInfo || distroInfo["VERSION_ID"] == "")
            && ("VERSION_ID" in distroInfo ==> info.version == distroInfo["VERSION_ID"])
            && (info.distroName.None? <==> "NAME" !in distroInfo)
            && (info.distroFullName.None? <==> !Truthy(Get(distroInfo, "PRETTY_NAME")) && "NAME" !in distroInfo)
            && (info.distroId.Some? <==> "ID" in distroInfo)
  {
  }

  /** The record does not need `ID`: a distro known only through `ID_LIKE`
      is accepted. */
  lemma AcceptedThroughIdLike()
    ensures var info := map["ID_LIKE" := "debian"];
            LinuxSystemInfo(info, "x86_64", "python3", "/usr/bin/python3").Success?
            && LinuxSystemInfo(info, "x86_64", "python3", "/usr/bin/python3").value.distroId.None?
  {
    var info := map["ID_LIKE" := "debian"];
    WordsOfWord("debian");
    assert Families(info) == {"debian"};
  }

  /** Two strings in order sort as themselves. */
  lemma SortedPair(a: string, b: string)
    requires LexLess(a, b)
    ensures Sorted({a, b}) == [a, b]
  {
    var r := Sorted({a, b});
    LexLessIrreflexive(a);
    assert r[0] in {a, b} && r[1] in {a, b};
    LexLessAsymmetric(a, b);
    LexLessIrreflexive(b);
  }

  /** A distro whose id and single `ID_LIKE` word name no family with a known
      tool is refused, and the message lists both in sorted order (for
      instance `mydistro, whoknows`). */
  lemma UnsupportedFamilyMessageLists(id: string, like: string, arch: string, bootstrapPythonExe: string,
                                      systemPythonExe: string)
    requires id != "" && like != "" && NoSpace(like) && LexLess(id, like)
    requires DefaultLinuxInstallMethod({id, like}).None?
    ensures LinuxSystemInfo(map["ID" := id, "ID_LIKE" := like], arch, bootstrapPythonExe, systemPythonExe)
            == Failure(InstallerError(UnsupportedFamilyMessage(id + ", " + like)))
  {
    var info := map["ID" := id, "ID_LIKE" := like];
    var families := Families(info);
    assert families == {id, like} by {
      WordsOfWord(like);
    }
    assert JoinWith(Sorted(families), ", ") == id + ", " + like by {
      SortedPair(id, like);
    }
  }

  /** No os-release data at all is refused. */
  lemma NoDistroInfoRefused(arch: string, bootstrapPythonExe: string, systemPythonExe: string)
    ensures LinuxSystemInfo(map[], arch, bootstrapPythonExe, systemPythonExe)
            == Failure(InstallerError(NoDistroInfoMessage))
  {
  }

  /** The least os-release data that is accepted: only an `ID` with a known
      tool (for instance `rhel`). No names and an empty version follow. */
  lemma IdOnlyDistroInfo(id: string, arch: string, bootstrapPythonExe: string, systemPythonExe: string)
    requires id != "" && DefaultLinuxInstallMethod({id}).Some?
    ensures LinuxSystemInfo(map["ID" := id], arch, bootstrapPythonExe, systemPythonExe)
            == Success(SystemInfo(
                 arch := arch, bootstrapPythonExe := bootstrapPythonExe, paths := map[],
                 systemInstallMethod := DefaultLinuxInstallMethod({id}).value, system := "Linux",
                 systemPythonExe := systemPythonExe, version := "", distroFamilies := Some({id}),
                 distroFullName := None, distroId := Some(id), distroName := None))
  {
    assert Families(map["ID" := id]) == {id};
  }
}
