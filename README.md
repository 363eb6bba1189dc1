# rbinstall, modelled in Dafny

This is a model of the core of **rbinstall**, the Review Board installer. It covers four things:

- how the installer turns a detected system into an ordered list of install steps;
- how it detects a Linux distribution from its `os-release` file;
- how it parses and compares dotted version strings;
- how it spells its own version.

The files and their modules:

| file | module | what it holds |
|---|---|---|
| `wrappers.dfy` | `Wrappers` | `Option` and `Result` |
| `strings.dfy` | `Strings` | decimal digits, `str.split(sep)`, `str.split()`, `sep.join`, Python's string order, `sorted` on a set of strings |
| `versioning.dfy` | `Versioning` | `parse_version`, `_ComparedVersionPart`, `match_version` |
| `install_methods.dfy` | `InstallMethods` | `InstallMethodType` and its string values |
| `distro_info.dfy` | `DistroInfo` | the `PACKAGES` table: every category, package type and candidate, as data |
| `install_steps.dfy` | `InstallSteps` | `get_install_package_steps`, `get_setup_virtualenv_steps`, `get_install_rb_packages_steps`, `get_install_steps` |
| `install_steps_properties.dfy` | `InstallStepsProperties` | what the candidate loop guarantees for every candidate list |
| `install_steps_platforms.dfy` | `InstallStepsPlatforms` | the planner applied to the table: the steps each phase yields |
| `distro_info_properties.dfy` | `DistroInfoProperties` | which candidates of the table can fire on which systems |
| `state.dfy` | `SystemState` | `get_linux_distro_info`, `get_default_linux_install_method`, the Linux branch of `get_system_info` |
| `version_info.dfy` | `RbInstallVersion` | `VERSION`, `get_version_string`, `get_package_version`, `is_release` |

**The planner** (`get_install_package_steps`) is imperative in the source, and it is imperative here.

- Method `InstallSteps.PlanCandidates` is its loop over the candidates. It calls:
  - `MatchCandidate`, the chain of match tests with early `continue`s;
  - `AcceptCandidate`: `setdefault` on the three dictionaries, the flag updates, the appended packages and the skip loop.
- `InstallSteps.BucketStepsOf` is the output loop.
- Each method is proved equal to a specification function:
  - a candidate's effect is `Accept`;
  - one turn of the loop is `Step`;
  - the plan after the first `n` candidates is `Fold(t, cands, n)`;
  - the output is `Render`.
- The properties of these functions are lemmas: the plan invariant `WellFormed`, flag visibility, bucket isolation for `allow_fail`, where each package came from, and the step order.
- Python's dictionary insertion order is the `order` field of `Plan`.

**The table** of `distro_info.py` is data. Lemmas work out:

- which of its rules can never fire;
- which rules set `has_xmlsec` or allow failure;
- which MySQL and CVS rules each distribution gets;
- end to end, the exact steps of the virtualenv, extras and service-integration phases.

**Distribution detection** has three parts:

- The `os-release` line pattern and its unescaping are functions on strings, with a round trip: a written line reads back as the name and value it was written from.
- The reading loop is a method proved against `OsReleaseInfo`. Lemmas show that a name is recorded exactly when some line sets it, and that the last such line wins.
- The families, the default install method and the Linux system record are functions. They come with their error messages and with lemmas about both the refusals and the acceptances.

The SAML rule of `PACKAGES` can never fire. It needs the flag `has_xmlsec`, which only the common **system** rules set. `get_install_package_steps` starts each call with an empty flag set. So the service-integration phase never sees that flag and never installs SAML support; `InstallStepsPlatforms.SamlNeverInstalled` proves this for every system.

## Model

| member | source | states |
|---|---|---|
| InstallMethods.ValueRoundTrip | rbinstall/install_methods.py:13-51 | Each install method has its own string value, and reading a value back gives exactly the method that has it. |
| Versioning.ParseVersion | rbinstall/versioning.py:96-127 | The loop yields one part per `.`-separated field (the number of dots plus one), each an integer when the field is a decimal number and the field itself otherwise. |
| Versioning.ParsePartOfNumber | rbinstall/versioning.py:119-125 | A number written in decimal parses back to that number, and `str()` of it is that decimal. |
| Versioning.PartStringOfParsed | rbinstall/versioning.py:119-125 | `str()` of a parsed field gives the field back exactly unless the field is a decimal number with a leading zero, such as `007`, which reads as the number 7. |
| Versioning.ParsedVersionOfFields | rbinstall/versioning.py:119-127 | Parsing `.`-free fields joined by `.` parses each field in turn. |
| Versioning.ParseJoinedNumbers | rbinstall/versioning.py:96-127 | Numbers joined by `.` parse back to exactly those numbers. |
| Versioning.SamePartIffSameString | rbinstall/versioning.py:72-84 | Two compared parts are equal exactly when their string forms are equal, whether they are integers, strings or one of each. |
| Versioning.UnequalPartsOrdered | rbinstall/versioning.py:75-89 | Two unequal parts are either less or greater, never both, and `<=`/`>=` then agree with `<`/`>`. |
| Versioning.EqualIff | rbinstall/versioning.py:154-165 | `match_version` with `operator.eq` holds exactly when both tuples have the same length and pairwise equal parts. |
| Versioning.FirstDifferenceDecides | rbinstall/versioning.py:154-165 | The first pair of unequal parts decides every comparison of two wrapped tuples. |
| Versioning.CommonPrefixLengthDecides | rbinstall/versioning.py:154-165 | When the parts agree as far as both tuples go, the lengths decide, so `(9, 3) > (9,)`. |
| Versioning.VersionTrichotomy | rbinstall/versioning.py:86-93 | Exactly one of `<`, `==`, `>` holds between two versions; `<=` is `<` or `==`, and `>=` is `>` or `==`. |
| Versioning.VersionDuality | rbinstall/versioning.py:86-93 | Swapping the operands turns `>=` into `<=` and `>` into `<`; `==` is symmetric. |
| Versioning.MixedPartsNotTransitive | rbinstall/versioning.py:80-84 | Comparing mixed parts as strings makes the order cyclic: 3 < 10 < 2a < 3. |
| Versioning.ParseVersionOfNumbers | rbinstall/versioning.py:119-127 | `1.2.3` parses to `(1, 2, 3)`. |
| Versioning.ParseVersionOfWords | rbinstall/versioning.py:119-127 | `a.b.c` parses to `('a', 'b', 'c')`. |
| Versioning.ParseVersionOfMixed | rbinstall/versioning.py:119-127 | `1.2.abc` parses to `(1, 2, 'abc')`. |
| Versioning.ParseVersionOfEmpty | rbinstall/versioning.py:119-127 | The empty string parses to `('',)`, not to an empty tuple. |
| Versioning.DistroVersionExamples | rbinstall/versioning.py:130-167 | `match_version(8)` rejects 8.9; `(9, 3) >= (9,)` holds and `(9, 3) <= (9,)` does not; 8.9 is `<= 9` and not `>= 9`. |
| Strings.SplitJoin | rbinstall/versioning.py:119 | `split(sep)` undoes `join` on separator-free fields. |
| Strings.WordsJoin | rbinstall/state.py:224-225 | `str.split()` undoes a space-join of non-empty words that have no whitespace. |
| Strings.LexLessTotal | rbinstall/state.py:227 | Python's order on strings is total: of two different strings, one is less. |
| Strings.Sorted | rbinstall/state.py:227 | `sorted` on a set gives each element once, in strictly increasing order. |
| InstallSteps.CandidatesFor | rbinstall/install_steps.py:110-113 | Gathering succeeds exactly when every category is in `PACKAGES`; otherwise the `KeyError` names a requested category that is missing. |
| InstallSteps.InstallCategoriesKnown | rbinstall/install_steps.py:331-343 | Every category `get_install_steps` asks for is in the table, so no phase raises `KeyError`. |
| InstallSteps.MatchCandidate | rbinstall/install_steps.py:115-174 | The chain of match tests accepts exactly when `Accepts` holds, and it yields the resolved install method. |
| InstallSteps.UpdateFlags | rbinstall/install_steps.py:194-198 | The `set_flags` loop computes `ApplyFlags` of the old flags. |
| InstallSteps.ApplyFlagsLast | rbinstall/install_steps.py:194-198 | A mentioned flag ends up present exactly when its last entry says `True`; no other flag changes. |
| InstallSteps.RemoveFirst | rbinstall/install_steps.py:211 | `list.remove` keeps every other name; the lemmas below show it drops the first occurrence. At its one call site the name is always present (`SkipPackages`). |
| InstallSteps.FirstIndex | rbinstall/install_steps.py:211 | The index found holds the name, and no earlier position does. |
| InstallSteps.RemoveFirstKeepsOrder | rbinstall/install_steps.py:211 | `list.remove` cuts out exactly the first occurrence: the names before it and after it stay, in order. |
| InstallSteps.RemoveFirstMultiset | rbinstall/install_steps.py:211 | `list.remove` of a present name takes out exactly one copy of it, and nothing else. |
| InstallSteps.SkipPackages | rbinstall/install_steps.py:205-212 | The skip loop computes `ApplySkips`, and `list.remove` always finds its name. |
| InstallSteps.ApplySkipsSpec | rbinstall/install_steps.py:205-212 | Skips take the skipped names out of the set and one occurrence each out of the list. The set holds no name the list lacks. |
| InstallSteps.AcceptCandidate | rbinstall/install_steps.py:177-212 | An accepted candidate's effect on commands, bucket order, the three dictionaries and the flags is `Accept`. |
| InstallSteps.PlanCandidates | rbinstall/install_steps.py:87-212 | The candidate loop computes `Fold` over all candidates, and its plan is `WellFormed`. |
| InstallSteps.FoldWellFormed | rbinstall/install_steps.py:184-212 | Every plan the loop reaches keeps the invariant: the three dictionaries share their keys, the order lists each key once, each set is within its list, and a bucket allows failure exactly when it has its own index. |
| InstallSteps.BucketStepsOf | rbinstall/install_steps.py:223-231 | The output loop gives one step per bucket, in creation order, with its method, `allow_fail` flag and package list. |
| InstallSteps.GetInstallPackageSteps | rbinstall/install_steps.py:87-233 | The whole function (parse versions, gather, plan, render) equals `PackageSteps`, including the `KeyError` case. |
| InstallSteps.GetSetupVirtualenvSteps | rbinstall/install_steps.py:236-270 | One SHELL step named "Creating Python virtual environment" whose command is the bootstrap Python, `-m virtualenv --download -p`, the system Python and the chosen path. |
| InstallSteps.GetInstallRbPackagesSteps | rbinstall/install_steps.py:273-311 | One PIP step whose state is `Pins` of the four Review Board packages. |
| InstallSteps.GetInstallSteps | rbinstall/install_steps.py:314-368 | The six phases in order: system packages, virtualenv, packaging support, Review Board packages, extras, service integrations. |
| InstallStepsProperties.AcceptsIffConstraintsHold | rbinstall/install_steps.py:115-174 | The constraint-by-constraint acceptance predicate agrees with the tests spelled as the source spells them, `.get` defaults included. |
| InstallStepsProperties.AbsentMatchAccepts | rbinstall/install_steps.py:115-174 | A candidate without match data is accepted exactly when its method is supported. |
| InstallStepsProperties.MethodResolution | rbinstall/install_steps.py:127-134 | A missing method or `SYSTEM_DEFAULT` becomes the system's method, any other method stays, and an unsupported method rejects. |
| InstallStepsProperties.FamilyAndIdTestsNeedSystemValues | rbinstall/install_steps.py:137-147 | Without families (or without an id) on the system, the families (or id) constraint decides nothing. |
| InstallStepsProperties.FamiliesTestRejectsOnlyDisjoint | rbinstall/install_steps.py:137-142 | A family shared by both sides makes the families constraint irrelevant. |
| InstallStepsProperties.FlagVisibility | rbinstall/install_steps.py:162-198 | A flag is present before candidate `j` exactly when the latest earlier accepted candidate that mentions it last set it `True`. |
| InstallStepsProperties.UnmentionedFlagAbsent | rbinstall/install_steps.py:162-198 | A flag that no earlier candidate sets is never present. |
| InstallStepsProperties.FlagHistoryNone | rbinstall/install_steps.py:194-198 | When no earlier candidate mentions a flag, the flag has no history. |
| InstallStepsProperties.EarlierDecisionsIgnoreLater | rbinstall/install_steps.py:110-212 | Candidates after `k` change neither the plan before `k` nor whether `k` is accepted. |
| InstallStepsProperties.StepFrame | rbinstall/install_steps.py:184-212 | A step leaves every other bucket unchanged. |
| InstallStepsProperties.OrderGrows | rbinstall/install_steps.py:189-191 | Buckets are created at the end and never removed or reordered. |
| InstallStepsProperties.KeyIndexBound | rbinstall/install_steps.py:184-192 | No bucket carries the index of a candidate not yet visited. |
| InstallStepsProperties.AllowFailBucketCreated | rbinstall/install_steps.py:184-212 | An accepted allow-fail candidate creates its own bucket, holding only its packages after its skips, marked allowed to fail. |
| InstallStepsProperties.AllowFailBucketKept | rbinstall/install_steps.py:184-212 | No later candidate changes an allow-fail candidate's bucket. |
| InstallStepsProperties.AllowFailBucketIsolated | rbinstall/install_steps.py:184-212 | So at the end that bucket holds exactly the allow-fail candidate's own packages. |
| InstallStepsProperties.AcceptedCandidateHasStep | rbinstall/install_steps.py:184-231 | Every accepted candidate leads to a bucket step after the setup steps, with the candidate's resolved method and its `allow_fail`. |
| InstallStepsProperties.BucketStepsAt | rbinstall/install_steps.py:223-231 | The `k`-th bucket step has the `k`-th key's method, `allow_fail` and package list. |
| InstallStepsProperties.RenderShape | rbinstall/install_steps.py:214-231 | The output has one SHELL setup step per command, in order, followed by one step per bucket. |
| InstallStepsProperties.SetupCommandsAreAcceptedCommands | rbinstall/install_steps.py:177 | The setup commands are those of the accepted candidates, in candidate order. |
| InstallStepsProperties.PackageOrigin | rbinstall/install_steps.py:200-212 | Every package in a bucket was listed by some accepted earlier candidate. |
| InstallStepsProperties.SkipsOnlyRemove | rbinstall/install_steps.py:205-212 | After a step, its bucket holds only names from the old list or the candidate's packages. |
| InstallStepsProperties.SkipsKeepOnly | rbinstall/install_steps.py:205-212 | The skip loop never adds a name. |
| InstallStepsProperties.AbsentTypeNoCandidates | rbinstall/install_steps.py:110-113 | A package type that no category lists gives no candidates. |
| InstallStepsProperties.NoCommandsNoSetup | rbinstall/install_steps.py:177 | Candidates without commands leave no setup commands. |
| InstallStepsProperties.UnlistedNeverBucketed | rbinstall/install_steps.py:200-212 | A name that no accepted candidate lists ends up in no bucket. |
| InstallStepsProperties.UnlistedNeverRendered | rbinstall/install_steps.py:214-231 | With no setup commands, every output step is a bucket step, and a name no accepted candidate lists is in none of them. |
| InstallStepsProperties.NoCandidatesNoSteps | rbinstall/install_steps.py:214-231 | No candidates, no steps. |
| InstallStepsProperties.PinsMembers | rbinstall/install_steps.py:291-303 | A pin `Name==version` is listed exactly when some package has a version record with that version. |
| InstallStepsProperties.PinsLength | rbinstall/install_steps.py:291-303 | At most one pin per package, and exactly one each when every package is to be installed. |
| InstallStepsProperties.PinsExtend | rbinstall/install_steps.py:291-303 | Each turn of the loop appends the next package's pin, if it has a version record. |
| InstallStepsProperties.RbPackagesPinned | rbinstall/install_steps.py:273-311 | Review Board itself is always pinned first, at its version, and each optional package adds one more pin. |
| InstallStepsPlatforms.GatherStep | rbinstall/install_steps.py:110-113 | Chaining one more category in front puts its own candidates before the rest's. |
| InstallStepsPlatforms.ServiceIntegrationsGathered | rbinstall/install_steps.py:331-343 | The service-integration candidates of all categories, in category order: storages, Mercurial, MySQL, the two Perforce rules, Postgres, Subversion, SAML. |
| InstallStepsPlatforms.AbsentFrom | rbinstall/install_steps.py:110-113 | Categories without candidates of a type contribute none. |
| InstallStepsPlatforms.VirtualenvGathered | rbinstall/install_steps.py:331-343 | Only `common` has virtualenv candidates. |
| InstallStepsPlatforms.RbExtrasGathered | rbinstall/install_steps.py:331-343 | No category lists `rb-extras` candidates. |
| InstallStepsPlatforms.LinuxX86After8 | rbinstall/install_steps.py:110-212 | On Linux x86_64 the service-integration loop ends with three buckets: the plain extras, Perforce alone and allowed to fail, and the Subversion bindings script. |
| InstallStepsPlatforms.RenderOfThree | rbinstall/install_steps.py:214-231 | A plan with no setup commands and three buckets renders as three steps, in bucket order. |
| InstallStepsPlatforms.RenderOfShownThree | rbinstall/install_steps.py:214-231 | A loop that ends with three buckets and no setup commands renders as those three steps, in bucket order. |
| InstallStepsPlatforms.LinuxX86ServiceIntegrationRender | rbinstall/install_steps.py:214-231 | The three service-integration steps on Linux x86_64. |
| InstallStepsPlatforms.LinuxX86ServiceIntegrationSteps | rbinstall/install_steps.py:87-233 | On Linux x86_64 the service-integration phase installs `s3`, `swift`, `mercurial`, `mysql` and `postgres` in one step, then `p4` in a step allowed to fail, then pysvn from its remote script. |
| InstallStepsPlatforms.VirtualenvRender | rbinstall/install_steps.py:214-231 | The virtualenv plan renders as one PIP step. |
| InstallStepsPlatforms.VirtualenvSteps | rbinstall/install_steps.py:87-233 | On every system the packaging-support phase is one PIP step that installs pip, setuptools, wheel and lxml built from source. |
| InstallStepsPlatforms.RbExtrasSteps | rbinstall/install_steps.py:87-233 | The extras phase has no steps, because no category lists `rb-extras`. |
| InstallStepsPlatforms.LinuxX86InstallSteps | rbinstall/install_steps.py:314-368 | On Linux x86_64 the whole list is the system-package steps, the virtualenv step, the packaging-support step, the pinned Review Board packages, no extras, and the three service-integration steps. |
| InstallStepsPlatforms.SamlRejected | rbinstall/install_steps.py:162-174 | The SAML candidate is rejected on every system, because no earlier service-integration candidate sets `has_xmlsec`. |
| InstallStepsPlatforms.NoServiceIntegrationCommands | rbinstall/distro_info.py:471-829 | No service-integration rule has setup commands. |
| InstallStepsPlatforms.SamlListedOnlyByRejected | rbinstall/distro_info.py:718-730 | Only the SAML rule lists `saml`, and it is never accepted. |
| InstallStepsPlatforms.SamlNeverBucketed | rbinstall/install_steps.py:200-212 | So no bucket ever holds `saml`. |
| InstallStepsPlatforms.SamlNeverRendered | rbinstall/install_steps.py:214-231 | The rendered plan has no setup step and no step listing `saml`. |
| InstallStepsPlatforms.SamlNeverInstalled | rbinstall/install_steps.py:87-233 | On every system the service-integration phase succeeds and installs no SAML support. |
| InstallStepsPlatforms.P4ListedOnlyByRejectedOffX86 | rbinstall/distro_info.py:681-705 | Only the two Perforce rules list `p4`, and on Linux other than x86_64 neither is accepted. |
| InstallStepsPlatforms.P4NeverBucketedOffX86 | rbinstall/install_steps.py:200-212 | On Linux other than x86_64 no bucket holds `p4`. |
| InstallStepsPlatforms.P4NeverRenderedOffX86 | rbinstall/install_steps.py:214-231 | On such a machine no rendered step lists `p4`. |
| InstallStepsPlatforms.P4NeverInstalledOffX86 | rbinstall/install_steps.py:87-233 | On such a machine the service-integration phase succeeds and installs no `p4`. |
| DistroInfoProperties.LowerCaseLinuxNeverMatches | rbinstall/distro_info.py:337-384 | A rule restricted to `{'linux'}` never fires on a system that reports itself as `Linux`. |
| DistroInfoProperties.XmlsecDevelOnlyForOpensuse | rbinstall/distro_info.py:337-448 | On Linux, a common rule listing `xmlsec1-devel` fires only for the `opensuse` family. |
| DistroInfoProperties.OnlyPerforceAllowsFailure | rbinstall/distro_info.py:681-705 | Only the Perforce service-integration rules allow their step to fail. |
| DistroInfoProperties.FlagSettersAreCommonRules | rbinstall/distro_info.py:102-449 | Every rule that sets a flag is a common system rule, and the flag is `has_xmlsec`. |
| DistroInfoProperties.XmlsecSettersOnLinux | rbinstall/distro_info.py:298-448 | On Linux, the rules that can set `has_xmlsec` are the Arch, Debian/Ubuntu and openSUSE rules. |
| DistroInfoProperties.PerforceNeedsX86 | rbinstall/distro_info.py:681-705 | On Linux the Perforce rules fire only on x86_64. |
| DistroInfoProperties.MysqlOnApt | rbinstall/distro_info.py:575-670 | On an APT system outside the RPM and openSUSE families, a MySQL rule fires exactly when it is the Debian rule on `debian` or the Ubuntu rule on `ubuntu`. |
| DistroInfoProperties.MysqlOnRpm | rbinstall/distro_info.py:575-670 | On a YUM system of an RPM family, a MySQL rule fires exactly when it is the RPM rule, or the `mariadb-devel` rule on Amazon Linux 2. |
| DistroInfoProperties.CvsSelection | rbinstall/distro_info.py:484-527 | On Linux a CVS rule fires exactly for the listed distribution ids and for RHEL 9 or later. |
| DistroInfoProperties.NoCvsForRhel8OrLeap | rbinstall/distro_info.py:484-527 | RHEL 8.9 and openSUSE Leap get no CVS rule. |
| SystemState.DefaultLinuxInstallMethod | rbinstall/state.py:389-398 | The chosen method is always one of APT, YUM, PACMAN or ZYPPER. |
| SystemState.DefaultMethodPriority | rbinstall/state.py:389-398 | APT exactly for `debian`; YUM for `rhel` or `fedora` without `debian`; PACMAN for `arch` without those; ZYPPER for `opensuse` without the rest; none otherwise. |
| SystemState.DefaultMethodIgnoresOthers | rbinstall/state.py:389-398 | Families other than the five named ones never change the choice. |
| SystemState.LinuxFamilies | rbinstall/state.py:216-225 | The family derivation yields `Families`. |
| SystemState.FamiliesMembers | rbinstall/state.py:216-225 | A family is the distribution's non-empty `ID` or a word of `ID_LIKE`; every family but the id is a non-empty word without whitespace. |
| SystemState.FamiliesOfJoinedWords | rbinstall/state.py:216-225 | An `ID_LIKE` of space-joined words contributes exactly those words, next to the `ID`. |
| SystemState.NameLength | rbinstall/state.py:339-341 | The name is the longest prefix of `[a-zA-Z0-9_]` characters. |
| SystemState.ParseLine | rbinstall/state.py:339-364 | A recorded line yields a name of `[a-zA-Z0-9_]` characters and a value without a newline. The lemmas below state what each kind of line records. |
| SystemState.UnescapeEscape | rbinstall/state.py:343 | Unescaping undoes backslash-escaping of `\`, `$`, `"`, `'` and backquote. |
| SystemState.UnescapePlain | rbinstall/state.py:343 | Text without a backslash is unchanged. |
| SystemState.ParseFormatLine | rbinstall/state.py:339-364 | A line written as `NAME="escaped value"`, with or without a newline, reads back as that name and value. |
| SystemState.ParseQuotedLine | rbinstall/state.py:339-364 | A value in a pair of single or of double quotes, with or without the newline, loses its quotes and is unescaped. |
| SystemState.ParseBareLine | rbinstall/state.py:339-364 | A value not enclosed in a pair of equal quotes, lone or unmatched quotes included, is only unescaped. |
| SystemState.AssignmentLine | rbinstall/state.py:339-364 | In `name=rest` the name ends at the first `=`, and the value is `rest` without one pair of equal quotes, unescaped. |
| SystemState.NameWithoutAssignmentIgnored | rbinstall/state.py:339-364 | A leading name followed by anything other than `=` or another name character, as in `FOO bar`, records nothing. |
| SystemState.ParseLineShape | rbinstall/state.py:339-364 | A recorded line starts with its name and `=`, and the name is the whole leading run of name characters. |
| SystemState.NonNameLineIgnored | rbinstall/state.py:339-364 | Empty lines, comments and lines not starting with a name character record nothing. |
| SystemState.ParseOsRelease | rbinstall/state.py:356-367 | The reading loop yields `OsReleaseInfo` of the lines. |
| SystemState.OsReleaseHas | rbinstall/state.py:356-367 | A name is recorded exactly when some line sets it. |
| SystemState.OsReleaseLastWins | rbinstall/state.py:356-367 | The last line that sets a name gives its value. |
| SystemState.CollectHas | rbinstall/state.py:363-364 | The map has a name exactly when some entry sets it. |
| SystemState.CollectLastWins | rbinstall/state.py:363-364 | A later entry overwrites an earlier one. |
| SystemState.LinuxSystemInfo | rbinstall/state.py:198-260 | The Linux record is refused exactly when there is no os-release data or no known family, with the docs message in the first case and the message listing the sorted families in the second. Otherwise it is a `Linux` record with the derived families and their default install method. |
| SystemState.LinuxSystemInfoFields | rbinstall/state.py:244-260 | The record keeps the architecture and both Python paths. The version is `VERSION_ID`, or empty when that is missing or empty. The name is present exactly when `NAME` is, and the full name falls back from `PRETTY_NAME` to `NAME`. The id is present exactly when `ID` is. |
| SystemState.AcceptedThroughIdLike | rbinstall/state.py:216-260 | A distribution known only through `ID_LIKE=debian` is accepted, with APT and no id. |
| SystemState.SortedPair | rbinstall/state.py:227 | Two strings in order sort as themselves. |
| SystemState.UnsupportedFamilyMessageLists | rbinstall/state.py:227-242 | For a distribution with two unsupported families, the refusal lists both, sorted and separated by `, `. |
| SystemState.NoDistroInfoRefused | rbinstall/state.py:207-214 | Missing os-release data is refused with the message pointing to the installation docs. |
| SystemState.IdOnlyDistroInfo | rbinstall/state.py:216-260 | An `ID` alone with a known family is accepted; the version is empty, and the id is its only family. |
| RbInstallVersion.VersionInfoOf | rbinstall/__init__.py:83 | `__version_info__` together with the released flag gives back `VERSION`. |
| RbInstallVersion.VersionString | rbinstall/__init__.py:16-42 | The readable version starts with the dotted numbers. |
| RbInstallVersion.PackageVersion | rbinstall/__init__.py:45-69 | The package version starts with the dotted numbers. |
| RbInstallVersion.NumberPartIsJoin | rbinstall/__init__.py:25-31 | The dotted numbers are major and minor, then micro when micro or patch is non-zero, then patch when non-zero, joined by `.`. |
| RbInstallVersion.NumberPartParses | rbinstall/__init__.py:25-31 | `parse_version` of the dotted numbers gives two, three or four numbers, according to micro and patch, with their values. |
| RbInstallVersion.NumberPartInjective | rbinstall/__init__.py:25-31 | Different shown numbers are never spelled the same. |
| RbInstallVersion.NumberPartNoSpace | rbinstall/__init__.py:25-31 | The dotted numbers are a non-empty word ending in a digit. |
| RbInstallVersion.VersionStringFirstWord | rbinstall/__init__.py:16-42 | The first word of the readable version is the dotted numbers. |
| RbInstallVersion.ReleasedEndsInDigit | rbinstall/__init__.py:16-42 | A released version's readable string ends with a digit. |
| RbInstallVersion.DevSuffixIffUnreleased | rbinstall/__init__.py:39-40 | ` (dev)` ends the readable string exactly when the version is not released. |
| RbInstallVersion.VersionStringHasSpaceIff | rbinstall/__init__.py:16-42 | The readable string is a single word exactly for a released `final` version. |
| RbInstallVersion.VersionStringIsJoin | rbinstall/__init__.py:16-42 | The readable string is its words joined by single spaces: the dotted numbers, `RC{relnum}` or the tag and the release number, then `(dev)` when not released. |
| RbInstallVersion.VersionStringWords | rbinstall/__init__.py:16-42 | For a one-word tag, splitting the readable string gives back exactly those words. |
| RbInstallVersion.VersionStringInjective | rbinstall/__init__.py:16-42 | For one-word tags, equal readable strings mean equal shown numbers, tags and released flags, and equal release numbers when a tag is shown. |
| RbInstallVersion.TagWordsInjective | rbinstall/__init__.py:33-40 | The words after the numbers give back the tag, the released flag and, for a shown tag, the release number. |
| RbInstallVersion.FinalPackageVersionParses | rbinstall/__init__.py:45-69 | A final package version parses back to exactly the shown numbers. |
| RbInstallVersion.PreReleasePackageVersionParses | rbinstall/__init__.py:54-69 | `parse_version` of a pre-release package version keeps the tag fused to the last number, so `1.1rc1` reads as `(1, '1rc1')`; `alpha` and `beta` appear as `a` and `b`. |
| RbInstallVersion.PackageVersionNoSpaceIff | rbinstall/__init__.py:45-69 | The package version has no whitespace unless a non-final tag brings some. |
| RbInstallVersion.FormattersAgree | rbinstall/__init__.py:16-69 | The package version ignores the released flag, and for a released `final` version the two formatters agree. |
| RbInstallVersion.CurrentVersion | rbinstall/__init__.py:13-84 | The installer is version `1.1`, released: both formatters give `1.1`. |

## Left out

- File and environment access: finding and opening `/etc/os-release` or `/usr/lib/os-release`, and the `RBINSTALL_OS_RELEASE_FILE` override. `ParseOsRelease` takes the lines of the file that was found.
- Reading the file: the lines are given after `readlines()`, with universal newlines already applied.
- `platform.system()`, `platform.machine()`, `sys.executable` and `sys.version_info` are parameters or fields.
- `system_python_version` is not in the system record, because nothing modelled reads it.
- The Darwin branch of `get_system_info` (`brew --prefix`, Homebrew paths) and the branch for unsupported systems are not modelled; only the Linux branch is.
- `COMMON_INSTALL_METHODS` (imported at `rbinstall/install_steps.py:17`) is assumed to be {PIP, REMOTE_PYSCRIPT, REVIEWBOARD_EXTRA, SHELL}, the methods that need no system package manager; its definition is not modelled.
- Executing install steps: `run_install_method`, the process helpers, the command templates and the install-method runners are not modelled. This model plans, and nothing it produces is run.
- The wizard, prompts and console UI (`ui.py`, `wizard.py`, `main.py`), PyPI lookups (`pypi.py`) and the error classes are not part of this model. Package version records are inputs.
- Versioning.ParsePart: a field counts as a number when it is a non-empty run of ASCII digits. Python's `int()` also accepts surrounding whitespace, a sign, underscores between digits and non-ASCII digits; those fields are treated as strings here.
- Versioning.Part: numbers are `nat`, because a field that is a run of digits never names a negative number.
- Versioning.CompareVersions: string parts compare by code point, as Python does. Comparing a wrapped part with a non-part object (`return False`) only arises outside `match_version` and is left out.
- Strings.Words: `str.split()` is modelled with ASCII whitespace only. Python also splits on other Unicode whitespace.
- RbInstallVersion.VersionTuple: the numbers are `nat`, as they are in `VERSION`.
- SystemState.ParseLine: the regular expression is written out as a function, and the model does not reason about expressions in general.
- The `ldap` rules are defined in `PACKAGES` but not requested by `get_install_steps`, so they never become steps. They are modelled as data only.
- Python's dictionary insertion order is modelled explicitly by `Plan.order`.
- InstallSteps.RemoveFirst: on a name that is not in the list the model returns the list unchanged, where Python's `list.remove` raises `ValueError`. The source never reaches that case, since the skip loop only removes a name its set holds (`SkipPackages` proves the name is present).
- Translation and logging: the `gettext` wrapping `_()` of step names (`rbinstall/install_steps.py:229, 259, 308, 349-366`) is the identity here, and the `debug()` logging of `rbinstall/state.py:229, 314` is left out, because neither changes a returned value.
- The exact steps are worked out end to end for the virtualenv, extras and service-integration phases. The system-package phase is covered through the rule lemmas of `DistroInfoProperties` and the general loop lemmas, not listed platform by platform.
