/** The clang source-based code coverage script: `args.gn` parsing, the coverage-tools stamp files, and the commands it runs. */
module Coverage {
  import opened Wrappers
  import opened Strings

  const DefaultGomaJobs: nat := 100
  const ProfrawExtension: string := "profraw"
  const ClangCoverageBuildArg: string := "use_clang_coverage"
  const UseGomaBuildArg: string := "use_goma"
  const GtestLauncherFlag: string := " --test-launcher-jobs=1"

  // ---------------------------------------------------------------- platform

  /** `_GetPlatform` from `sys.platform`. */
  function GetPlatform(sysPlatform: string): (r: Result<string, PyError>)
    ensures r.Success? ==> r.value == "win" || r.value == "linux" || r.value == "mac"
    ensures r.Failure? <==> sysPlatform != "win32" && sysPlatform != "cygwin" && !StartsWith(sysPlatform, "linux") && sysPlatform != "darwin"
  {
    if sysPlatform == "win32" || sysPlatform == "cygwin" then Success("win")
    else if StartsWith(sysPlatform, "linux") then Success("linux")
    else if sysPlatform == "darwin" then Success("mac")
    else Failure(AssertionFailed)
  }

  // ---------------------------------------------------------------- args.gn

  /** One `args.gn` line: the text before its first `#`, split on `=`; only a line with exactly two pieces assigns, the stripped right piece to the stripped left one. */
  function ArgsLine(line: string): (r: Option<(string, string)>)
    ensures r.Some? <==> multiset(Split(line, '#')[0])['='] == 1
  {
    var code := Split(line, '#')[0];
    SplitCount(code, '=');
    var pair := Split(code, '=');
    if |pair| != 2 then None else Some((Strip(pair[0]), Strip(pair[1])))
  }

  /** What each line assigns, in order. */
  function Parsed(lines: seq<string>): (r: seq<Option<(string, string)>>)
    ensures |r| == |lines| && forall i :: 0 <= i < |lines| ==> r[i] == ArgsLine(lines[i])
  {
    seq(|lines|, i requires 0 <= i < |lines| => ArgsLine(lines[i]))
  }

  /** Whether a line's assignment is to `key`. */
  predicate Assigns(a: Option<(string, string)>, key: string)
  {
    a.Some? && a.value.0 == key
  }

  /** The map a sequence of assignments builds, a later assignment replacing an earlier one. */
  function Assignments(ops: seq<Option<(string, string)>>): map<string, string>
  {
    if ops == [] then map[]
    else
      var args := Assignments(ops[..|ops| - 1]);
      match ops[|ops| - 1]
      case Some(kv) => args[kv.0 := kv.1]
      case None => args
  }

  /** The build arguments `args.gn` sets. */
  function ArgsOf(lines: seq<string>): map<string, string>
  {
    Assignments(Parsed(lines))
  }

  /** `_ParseArgsGnFile`: `argsGn` holds the lines of `args.gn` when the file exists. */
  method ParseArgsGnFile(argsGn: Option<seq<string>>) returns (r: Result<map<string, string>, PyError>)
    ensures argsGn.None? ==> r == Failure(AssertionFailed)
    ensures argsGn.Some? ==> r == Success(ArgsOf(argsGn.value))
  {
    if argsGn.None? {
      return Failure(AssertionFailed);
    }
    var lines := argsGn.value;
    var args: map<string, string> := map[];
    for i := 0 to |lines|
      invariant args == Assignments(Parsed(lines)[..i])
    {
      assert Parsed(lines)[..i + 1][..i] == Parsed(lines)[..i];
      var withoutComments := Split(lines[i], '#')[0];
      var pair := Split(withoutComments, '=');
      if |pair| == 2 {
        args := args[Strip(pair[0]) := Strip(pair[1])];
      }
    }
    assert Parsed(lines)[..|lines|] == Parsed(lines);
    return Success(args);
  }

  /** A comment after `#` never changes what a line assigns. */
  lemma CommentIgnored(code: string, comment: string)
    requires '#' !in code
    ensures ArgsLine(code + "#" + comment) == ArgsLine(code)
  {
    SplitFree(code, '#', "#" + comment);
    assert code + "#" + comment == code + ("#" + comment);
    SplitFree(code, '#', []);
    assert code + [] == code;
  }

  /** `key=value` written without padding, `=` or `#` is read back as that assignment. */
  lemma ArgsLineRoundTrip(key: string, value: string)
    requires key != [] && !IsSpace(key[0]) && !IsSpace(key[|key| - 1]) && '=' !in key && '#' !in key
    requires value != [] && !IsSpace(value[0]) && !IsSpace(value[|value| - 1]) && '=' !in value && '#' !in value
    ensures ArgsLine(key + "=" + value) == Some((key, value))
  {
    var line := key + "=" + value;
    assert '#' !in line by {
      assert forall i :: 0 <= i < |line| ==> line[i] == (if i < |key| then key[i] else if i == |key| then '=' else value[i - |key| - 1]);
    }
    SplitFree(line, '#', []);
    assert line + [] == line;
    assert line == Join([key, value], '=');
    SplitJoin([key, value], '=');
    StripUnpadded(key);
    StripUnpadded(value);
  }

  /** What the last assignment does to one key. */
  lemma ArgsStep(ops: seq<Option<(string, string)>>, key: string)
    requires ops != []
    ensures Assigns(ops[|ops| - 1], key) ==>
      key in Assignments(ops) && Assignments(ops)[key] == ops[|ops| - 1].value.1
    ensures !Assigns(ops[|ops| - 1], key) ==>
      (key in Assignments(ops) <==> key in Assignments(ops[..|ops| - 1]))
      && (key in Assignments(ops) ==> Assignments(ops)[key] == Assignments(ops[..|ops| - 1])[key])
  {
  }

  /** The value of a key is the one its last assignment gives. */
  lemma {:induction false} ArgsLastWins(ops: seq<Option<(string, string)>>, i: nat, key: string, value: string)
    requires i < |ops| && ops[i] == Some((key, value))
    requires forall j :: i < j < |ops| ==> !Assigns(ops[j], key)
    ensures key in Assignments(ops) && Assignments(ops)[key] == value
    decreases |ops|
  {
    ArgsStep(ops, key);
    var init := ops[..|ops| - 1];
    if i < |ops| - 1 {
      assert forall j :: i < j < |init| ==> init[j] == ops[j];
      ArgsLastWins(init, i, key, value);
    }
  }

  /** A key is set exactly when some assignment is to it. */
  lemma {:induction false} ArgsAssigned(ops: seq<Option<(string, string)>>, key: string)
    ensures key !in Assignments(ops) <==> forall j :: 0 <= j < |ops| ==> !Assigns(ops[j], key)
    decreases |ops|
  {
    if ops != [] {
      var init := ops[..|ops| - 1];
      ArgsAssigned(init, key);
      ArgsStep(ops, key);
      assert forall j :: 0 <= j < |init| ==> ops[j] == init[j];
    }
  }

  /** A set key's value comes from an assignment after which none is to that key. */
  lemma {:induction false} ArgsSource(ops: seq<Option<(string, string)>>, key: string)
    requires key in Assignments(ops)
    ensures exists i :: LastAssignment(ops, i, key, Assignments(ops)[key])
    decreases |ops|
  {
    var init := ops[..|ops| - 1];
    var last := |ops| - 1;
    ArgsStep(ops, key);
    if Assigns(ops[last], key) {
      assert LastAssignment(ops, last, key, Assignments(ops)[key]);
    } else {
      ArgsSource(init, key);
      var i :| LastAssignment(init, i, key, Assignments(init)[key]);
      assert forall j :: 0 <= j < |init| ==> ops[j] == init[j];
      assert LastAssignment(ops, i, key, Assignments(ops)[key]);
    }
  }

  /** `ops[i]` assigns `value` to `key`, and no later assignment is to `key`. */
  predicate LastAssignment(ops: seq<Option<(string, string)>>, i: int, key: string, value: string)
  {
    0 <= i < |ops| && ops[i] == Some((key, value)) && forall j :: i < j < |ops| ==> !Assigns(ops[j], key)
  }

  /** `_IsGomaConfigured`. */
  predicate IsGomaConfigured(args: map<string, string>)
  {
    UseGomaBuildArg in args && args[UseGomaBuildArg] == "true"
  }

  /** Goma is configured exactly when the last line of `args.gn` assigning `use_goma` assigns `true`. */
  lemma GomaConfiguredByLastAssignment(lines: seq<string>)
    ensures IsGomaConfigured(ArgsOf(lines)) <==> exists i :: LastAssignment(Parsed(lines), i, UseGomaBuildArg, "true")
  {
    var ops := Parsed(lines);
    if UseGomaBuildArg in Assignments(ops) {
      ArgsSource(ops, UseGomaBuildArg);
    }
    if exists i :: LastAssignment(ops, i, UseGomaBuildArg, "true") {
      var i :| LastAssignment(ops, i, UseGomaBuildArg, "true");
      ArgsLastWins(ops, i, UseGomaBuildArg, "true");
    }
  }

  /** `_ValidateBuildingWithClangCoverage`: `use_clang_coverage = true` is required. */
  function ValidateClangCoverage(args: map<string, string>): (r: Result<(), PyError>)
    ensures r.Success? <==> ClangCoverageBuildArg in args && args[ClangCoverageBuildArg] == "true"
  {
    if ClangCoverageBuildArg !in args || args[ClangCoverageBuildArg] != "true" then Failure(AssertionFailed) else Success(())
  }

  // ---------------------------------------------------------------- stamp files

  /** `%d` of any integer. */
  function FormatInt(i: int): string
  {
    if i < 0 then "-" + Decimal(-i) else Decimal(i)
  }

  /** `a, b = package_version.split('-')` then `int(a), int(b)`. */
  function ParseVersion(version: string): Result<(int, int), PyError>
  {
    var parts := Split(version, '-');
    if |parts| != 2 then Failure(ValueError)
    else
      match (ParseInt(parts[0]), ParseInt(parts[1]))
      case (Some(a), Some(b)) => Success((a, b))
      case _ => Failure(ValueError)
  }

  /** What one stamp line does: `None` when it names another OS and is skipped, otherwise the revisions it holds or the error reading them. */
  function StampLine(line: string, platform: string): (r: Option<Result<(int, int), PyError>>)
    ensures r.None? ==> ',' in line
    ensures ',' !in line ==> r == Some(ParseVersion(RStrip(line)))
  {
    var fields := if ',' in line then Split(RStrip(line), ',') else [RStrip(line), ""];
    if |fields| != 2 then Some(Failure(ValueError))
    else if fields[1] != "" && fields[1] != platform then None
    else Some(ParseVersion(fields[0]))
  }

  /** The revisions of the first line for this platform; a stamp with no such line fails the `assert False`. */
  function StampRevision(lines: seq<string>, platform: string): (r: Result<(int, int), PyError>)
    ensures r.Success? ==> r.value.0 >= 0 && r.value.1 >= 0
  {
    if lines == [] then Failure(AssertionFailed)
    else
      var fields := if ',' in lines[0] then Split(RStrip(lines[0]), ',') else [RStrip(lines[0]), ""];
      NaturalVersion(fields[0]);
      match StampLine(lines[0], platform)
      case None => StampRevision(lines[1..], platform)
      case Some(r) => r
  }

  /** `_GetRevisionFromStampFile`: `stamp` holds the file's lines when it exists. */
  method GetRevisionFromStampFile(stamp: Option<seq<string>>, platform: string) returns (r: Result<(int, int), PyError>)
    ensures stamp.None? ==> r == Success((0, 0))
    ensures stamp.Some? ==> r == StampRevision(stamp.value, platform)
  {
    if stamp.None? {
      return Success((0, 0));
    }
    var lines := stamp.value;
    for i := 0 to |lines|
      invariant StampRevision(lines[i..], platform) == StampRevision(lines, platform)
    {
      assert lines[i..][1..] == lines[i + 1..];
      var line := lines[i];
      var version: string;
      var targetOs: string;
      if ',' in line {
        var fields := Split(RStrip(line), ',');
        if |fields| != 2 {
          return Failure(ValueError);
        }
        version, targetOs := fields[0], fields[1];
      } else {
        version, targetOs := RStrip(line), "";
      }
      if targetOs != "" && platform != targetOs {
        continue;
      }
      var parts := Split(version, '-');
      if |parts| != 2 {
        return Failure(ValueError);
      }
      var revision := ParseInt(parts[0]);
      var subRevision := ParseInt(parts[1]);
      if revision.None? || subRevision.None? {
        return Failure(ValueError);
      }
      return Success((revision.value, subRevision.value));
    }
    return Failure(AssertionFailed);
  }

  /** The stamp line written after unpacking the tools: `%s,%s` of the package version and the platform, then a newline. */
  function StampText(revision: int, subRevision: int, platform: string): string
  {
    PackageVersion(revision, subRevision) + "," + platform + "\n"
  }

  /** `'%d-%d' % (clang_revision, clang_sub_revision)`. */
  function PackageVersion(revision: int, subRevision: int): string
  {
    FormatInt(revision) + "-" + FormatInt(subRevision)
  }

  lemma DigitsFree(s: string, c: char)
    requires AllDigits(s) && !IsDigit(c)
    ensures c !in s
  {
  }

  /** The written package version reads back as the two revisions. */
  lemma PackageVersionRoundTrip(revision: nat, subRevision: nat)
    ensures ParseVersion(PackageVersion(revision, subRevision)) == Success((revision, subRevision))
  {
    var a := Decimal(revision);
    var b := Decimal(subRevision);
    DigitsFree(a, '-');
    DigitsFree(b, '-');
    assert a + "-" + b == Join([a, b], '-');
    SplitJoin([a, b], '-');
    ParseDecimal(revision);
    ParseDecimal(subRevision);
  }

  /** A platform name a stamp can carry: non-empty, without `,`, not ending in whitespace. */
  predicate PlatformName(platform: string)
  {
    platform != [] && ',' !in platform && !IsSpace(platform[|platform| - 1])
  }

  /** The written stamp line, stripped of its newline, splits on `,` into the version and the platform. */
  lemma StampFields(revision: nat, subRevision: nat, platform: string)
    requires PlatformName(platform)
    ensures var line := StampText(revision, subRevision, platform);
      ',' in line && Split(RStrip(line), ',') == [PackageVersion(revision, subRevision), platform]
  {
    var version := PackageVersion(revision, subRevision);
    var line := StampText(revision, subRevision, platform);
    var body := version + "," + platform;
    assert line == body + "\n";
    assert RStrip(line) == body by {
      assert line[..|line| - 1] == body;
    }
    assert line[|version|] == ',';
    VersionFree(revision, subRevision);
    assert body == Join([version, platform], ',');
    SplitJoin([version, platform], ',');
  }

  /** A stamp written for a platform gives back the revisions written, on that platform; on any other it has no line and fails. */
  lemma StampRoundTrip(revision: nat, subRevision: nat, platform: string, reader: string)
    requires PlatformName(platform)
    ensures StampRevision([StampText(revision, subRevision, platform)], reader)
      == if reader == platform then Success((revision, subRevision)) else Failure(AssertionFailed)
  {
    StampFields(revision, subRevision, platform);
    PackageVersionRoundTrip(revision, subRevision);
    var lines := [StampText(revision, subRevision, platform)];
    assert lines[1..] == [];
  }

  lemma VersionFree(revision: nat, subRevision: nat)
    ensures ',' !in PackageVersion(revision, subRevision)
  {
    DigitsFree(Decimal(revision), ',');
    DigitsFree(Decimal(subRevision), ',');
  }

  /** What `DownloadCoverageToolsIfNeeded` decides. */
  datatype ToolsAction = UpToDate(revision: int) | Download(url: string, stamp: string)

  /** `_GetRevisionFromStampFile` as a function: a missing stamp counts as revision `0-0`. */
  function StampOrZero(stamp: Option<seq<string>>, platform: string): Result<(int, int), PyError>
  {
    if stamp.None? then Success((0, 0)) else StampRevision(stamp.value, platform)
  }

  /** The coverage tools are current when both exist and their stamp holds the clang stamp's revisions; otherwise the package for those revisions is fetched from the platform's bucket and its stamp written. */
  function ToolsCheck(clangStamp: Option<seq<string>>, coverageStamp: Option<seq<string>>, platform: string,
                      hasTools: bool, cdsUrl: string): (r: Result<ToolsAction, PyError>)
    ensures r.Success? ==> StampOrZero(clangStamp, platform).Success? && StampOrZero(coverageStamp, platform).Success?
    ensures r.Success? && r.value.UpToDate? <==>
      hasTools && StampOrZero(clangStamp, platform).Success? && StampOrZero(clangStamp, platform) == StampOrZero(coverageStamp, platform)
  {
    var clang := StampOrZero(clangStamp, platform);
    if clang.Failure? then Failure(clang.error)
    else
      var coverage := StampOrZero(coverageStamp, platform);
      if coverage.Failure? then Failure(coverage.error)
      else ToolsDecision(clang.value, coverage.value, platform, hasTools, cdsUrl)
  }

  /** The decision once both stamps are read: up to date only with the tools present and equal revisions; a fetch writes the clang revisions' stamp, and only Linux and Mac have packages. */
  function ToolsDecision(clang: (int, int), coverage: (int, int), platform: string, hasTools: bool, cdsUrl: string)
    : (r: Result<ToolsAction, PyError>)
    ensures r == Success(UpToDate(clang.0)) <==> hasTools && coverage == clang
    ensures r.Failure? <==> !(hasTools && coverage == clang) && platform != "mac" && platform != "linux"
    ensures r.Success? && r.value.Download? ==>
      r.value.stamp == StampText(clang.0, clang.1, platform)
      && EndsWith(r.value.url, "llvm-code-coverage-" + PackageVersion(clang.0, clang.1) + ".tgz")
  {
    if hasTools && coverage == clang then Success(UpToDate(clang.0))
    else
      var file := "llvm-code-coverage-" + PackageVersion(clang.0, clang.1) + ".tgz";
      var stamp := StampText(clang.0, clang.1, platform);
      if platform == "mac" then Success(Download(cdsUrl + "/Mac/" + file, stamp))
      else if platform == "linux" then Success(Download(cdsUrl + "/Linux_x64/" + file, stamp))
      else Failure(AssertionFailed)
  }

  /** A version read from text never holds a negative number: `-` separates the two numbers. */
  lemma NaturalVersion(version: string)
    ensures ParseVersion(version).Success? ==> ParseVersion(version).value.0 >= 0 && ParseVersion(version).value.1 >= 0
  {
    var parts := Split(version, '-');
    SplitPiecesFree(version, '-');
    if |parts| == 2 {
      ParseIntNoMinus(parts[0]);
      ParseIntNoMinus(parts[1]);
    }
  }

  /** Text without `-` never parses as a negative number. */
  lemma ParseIntNoMinus(s: string)
    requires '-' !in s
    ensures ParseInt(s).Some? ==> ParseInt(s).value >= 0
  {
    var t := Strip(s);
    if t != [] {
      var r := RStrip(s);
      assert t == r[|r| - |t|..];
      assert t[0] == r[|r| - |t|] == s[|r| - |t|];
    }
  }

  /** Once the tools are fetched and their stamp written, the next run finds them up to date. */
  lemma DownloadThenUpToDate(clangStamp: Option<seq<string>>, coverageStamp: Option<seq<string>>, platform: string,
                             hasTools: bool, cdsUrl: string)
    requires PlatformName(platform)
    requires ToolsCheck(clangStamp, coverageStamp, platform, hasTools, cdsUrl).Success?
    requires ToolsCheck(clangStamp, coverageStamp, platform, hasTools, cdsUrl).value.Download?
    ensures var written := ToolsCheck(clangStamp, coverageStamp, platform, hasTools, cdsUrl).value.stamp;
      ToolsCheck(clangStamp, Some([written]), platform, true, cdsUrl).Success?
      && ToolsCheck(clangStamp, Some([written]), platform, true, cdsUrl).value.UpToDate?
  {
    var clang := StampOrZero(clangStamp, platform).value;
    StampRoundTrip(clang.0, clang.1, platform, platform);
  }

  // ---------------------------------------------------------------- commands

  /** `_BuildTargets`: `jobsCount` is `-j` when given; `argsGn` is what parsing `args.gn` gives, looked at only when no count is given. */
  method BuildTargetsCommand(targets: seq<string>, jobsCount: Option<int>, buildDir: string,
                             argsGn: Result<map<string, string>, PyError>) returns (r: Result<seq<string>, PyError>)
    ensures jobsCount.None? && argsGn.Failure? ==> r == Failure(argsGn.error)
    ensures jobsCount.Some? || argsGn.Success? ==> r.Success?
    ensures r.Success? ==>
      var jobs := if jobsCount.Some? then jobsCount else if IsGomaConfigured(argsGn.value) then Some(DefaultGomaJobs as int) else None;
      |r.value| == 3 + (if jobs.Some? then 1 else 0) + |targets|
      && r.value[..3] == ["ninja", "-C", buildDir]
      && (jobs.Some? ==> r.value[3] == "-j" + FormatInt(jobs.value))
      && r.value[|r.value| - |targets|..] == targets
  {
    var jobs := jobsCount;
    if jobs.None? {
      if argsGn.Failure? {
        return Failure(argsGn.error);
      }
      if IsGomaConfigured(argsGn.value) {
        jobs := Some(DefaultGomaJobs);
      }
    }
    var cmd := ["ninja", "-C", buildDir];
    if jobs.Some? {
      cmd := cmd + ["-j" + FormatInt(jobs.value)];
    }
    cmd := cmd + targets;
    return Success(cmd);
  }

  /** `_GenerateLineByLineFileCoverageInHtml`'s command: the first binary is positional, every other one an `-object=` option in order, and the filters come last. */
  method CoverageShowCommand(llvmCov: string, outputDir: string, profdata: string, binaries: seq<string>, filters: seq<string>)
    returns (r: Result<seq<string>, PyError>)
    ensures binaries == [] <==> r == Failure(IndexError)
    ensures r.Success? ==>
      |r.value| == 5 + |binaries| + |filters|
      && r.value[..6] == [llvmCov, "show", "-format=html", "-output-dir=" + outputDir, "-instr-profile=" + profdata, binaries[0]]
      && (forall i :: 1 <= i < |binaries| ==> r.value[5 + i] == "-object=" + binaries[i])
      && r.value[5 + |binaries|..] == filters
  {
    if binaries == [] {
      return Failure(IndexError);
    }
    var cmd := [llvmCov, "show", "-format=html", "-output-dir=" + outputDir, "-instr-profile=" + profdata, binaries[0]];
    cmd := cmd + seq(|binaries| - 1, i requires 0 <= i < |binaries| - 1 => "-object=" + binaries[i + 1]);
    cmd := cmd + filters;
    return Success(cmd);
  }

  /** The longest prefix of `s` without whitespace. */
  function Word(s: string): (w: string)
    ensures |w| <= |s| && w == s[..|w|] && (forall i :: 0 <= i < |w| ==> !IsSpace(w[i]))
    ensures |w| == |s| || IsSpace(s[|w|])
  {
    if s == [] || IsSpace(s[0]) then [] else [s[0]] + Word(s[1..])
  }

  /** `token` starts at `k` after nothing but whitespace, is non-empty, has no whitespace, and ends at whitespace or the end. */
  predicate FirstTokenAt(command: string, k: int, token: string)
  {
    token != [] && 0 <= k <= |command| - |token| && (forall i :: 0 <= i < k ==> IsSpace(command[i]))
    && command[k..k + |token|] == token && (forall i :: 0 <= i < |token| ==> !IsSpace(token[i]))
    && (k + |token| == |command| || IsSpace(command[k + |token|]))
  }

  /** `_GetBinaryPath`: `command.split()[0]`, the first whitespace-separated token. */
  function GetBinaryPath(command: string): (r: Result<string, PyError>)
    ensures r.Failure? <==> forall i :: 0 <= i < |command| ==> IsSpace(command[i])
    ensures r.Success? ==> exists k :: FirstTokenAt(command, k, r.value)
  {
    var t := LStrip(command);
    if t == [] then Failure(IndexError)
    else
      var w := Word(t);
      var k := |command| - |t|;
      assert command[k..k + |w|] == t[..|w|];
      assert FirstTokenAt(command, k, w);
      Success(w)
  }

  /** The values of a list of results, or the first error among them. */
  function AllValues(rs: seq<Result<string, PyError>>): (r: Result<seq<string>, PyError>)
    ensures r.Success? <==> forall i :: 0 <= i < |rs| ==> rs[i].Success?
    ensures r.Success? ==> |r.value| == |rs| && forall i :: 0 <= i < |rs| ==> rs[i] == Success(r.value[i])
  {
    if rs == [] then Success([])
    else
      var rest := AllValues(rs[1..]);
      assert forall i :: 1 <= i < |rs| ==> rs[1..][i - 1] == rs[i];
      if rs[0].Failure? then Failure(rs[0].error)
      else if rest.Failure? then rest
      else Success([rs[0].value] + rest.value)
  }

  /** The binary of every command, one each; the script first requires as many targets as commands. */
  function BinaryPaths(targets: seq<string>, commands: seq<string>): (r: Result<seq<string>, PyError>)
    ensures r.Success? ==> (|r.value| == |commands| == |targets|
      && forall i :: 0 <= i < |commands| ==> GetBinaryPath(commands[i]) == Success(r.value[i]))
    ensures r.Failure? <==> |targets| != |commands| || exists i :: 0 <= i < |commands| && GetBinaryPath(commands[i]).Failure?
    ensures |targets| != |commands| ==> r == Failure(AssertionFailed)
  {
    if |targets| != |commands| then Failure(AssertionFailed)
    else
      var paths := seq(|commands|, i requires 0 <= i < |commands| => GetBinaryPath(commands[i]));
      assert forall i :: 0 <= i < |commands| ==> paths[i] == GetBinaryPath(commands[i]);
      AllValues(paths)
  }

  /** How `_ExecuteCommand` runs a target: the command, the profile file pattern and the output file. */
  datatype Execution = Execution(command: string, profrawPath: string, outputPath: string)

  /** Gtest targets run on one launcher job; the raw profile is `<target>.%p.profraw` and the output `<target>_output.txt` in the output directory. */
  function ExecuteCommand(target: string, command: string, outputDir: string, gtestTargets: set<string>): (e: Execution)
    ensures e.command == command + (if target in gtestTargets then GtestLauncherFlag else "")
    ensures target == [] || target[0] != '/' ==>
      EndsWith(e.profrawPath, target + ".%p." + ProfrawExtension) && EndsWith(e.outputPath, target + "_output.txt")
    ensures target == [] || target[0] != '/' ==> StartsWith(e.profrawPath, outputDir) && StartsWith(e.outputPath, outputDir)
    ensures target != [] && target[0] == '/' ==> e.profrawPath == target + ".%p." + ProfrawExtension && e.outputPath == target + "_output.txt"
  {
    Execution(if target in gtestTargets then command + GtestLauncherFlag else command,
              PathJoin(outputDir, target + ".%p." + ProfrawExtension),
              PathJoin(outputDir, target + "_output.txt"))
  }

  /** The second `:`-separated piece of a `gn refs` line, if it has a `:`. */
  function AfterColon(line: string): (r: Option<string>)
    ensures r.None? <==> ':' !in line
  {
    SplitCount(line, ':');
    assert ':' in line <==> multiset(line)[':'] > 0;
    var parts := Split(line, ':');
    if |parts| < 2 then None else Some(parts[1])
  }

  /** `_IsTargetGTestTarget`'s set: the second `:`-separated piece of every non-empty `gn refs` line; a line without `:` is an `IndexError`. */
  function GtestTargetNames(lines: seq<string>): (r: Result<set<string>, PyError>)
    ensures r.Failure? <==> exists i :: 0 <= i < |lines| && lines[i] != "" && ':' !in lines[i]
    ensures r.Success? ==> forall name :: name in r.value <==>
      exists i :: 0 <= i < |lines| && lines[i] != "" && AfterColon(lines[i]) == Some(name)
  {
    if lines == [] then Success({})
    else
      var rest := GtestTargetNames(lines[1..]);
      assert forall i :: 1 <= i < |lines| ==> lines[i] == lines[1..][i - 1];
      if lines[0] == "" then rest
      else
        match AfterColon(lines[0])
        case None => Failure(IndexError)
        case Some(name) => if rest.Failure? then rest else Success({name} + rest.value)
  }

  /** A `gn refs` line `//dir:name` names the target `name`. */
  lemma GtestLineName(dir: string, name: string)
    requires ':' !in dir && ':' !in name
    ensures AfterColon(dir + ":" + name) == Some(name)
  {
    assert dir + ":" + name == Join([dir, name], ':');
    SplitJoin([dir, name], ':');
  }
}
