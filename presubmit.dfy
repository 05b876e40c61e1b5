/**
 * The presubmit checks of the old `tools/telemetry` directory: the count of
 * added against removed uses of deprecated code in the diffs of a change, the
 * read-only notice for the moved directory, and the validation of
 * `binary_dependencies.json`. The presubmit framework's input and output
 * objects become plain values: an affected file is its path and the lines of
 * its diff, and an external validator is the output and return code it gives.
 */
module Presubmit {
  import opened Strings

  /** A file touched by the change, with the lines of its SCM diff. */
  datatype AffectedFile = AffectedFile(path: string, diff: seq<string>)

  /** `output_api.PresubmitError(message, items=..., long_text=...)`. */
  datatype PresubmitError = PresubmitError(message: string, items: seq<string>, longText: string)

  /** What running an external validator gives: its combined output and its return code. */
  datatype RunResult = RunResult(output: string, returnCode: int)

  /** `_IsAddedLine`: a line the diff adds, not the `+++ ` header naming the new file. */
  predicate IsAddedLine(line: string)
    ensures IsAddedLine(line) ==> |line| > 0 && line[0] == '+'
  {
    StartsWith(line, "+") && !StartsWith(line, "+++ ")
  }

  /** `_IsRemovedLine`: a line the diff removes, not the `--- ` header naming the old file; never an added line. */
  predicate IsRemovedLine(line: string)
    ensures IsRemovedLine(line) ==> |line| > 0 && line[0] == '-' && !IsAddedLine(line)
  {
    StartsWith(line, "-") && !StartsWith(line, "--- ")
  }

  /** A line counts as an added use when it is added and holds the deprecated code. */
  function LineAdds(line: string, code: string): nat
  {
    if IsAddedLine(line) && Contains(line, code) then 1 else 0
  }

  /** A line counts as a removed use when it does not count as added, is removed, and holds the deprecated code. */
  function LineRemoves(line: string, code: string): nat
  {
    if IsAddedLine(line) && Contains(line, code) then 0
    else if IsRemovedLine(line) && Contains(line, code) then 1
    else 0
  }

  function DiffAdds(lines: seq<string>, code: string): nat
  {
    if lines == [] then 0 else DiffAdds(lines[..|lines| - 1], code) + LineAdds(lines[|lines| - 1], code)
  }

  function DiffRemoves(lines: seq<string>, code: string): nat
  {
    if lines == [] then 0 else DiffRemoves(lines[..|lines| - 1], code) + LineRemoves(lines[|lines| - 1], code)
  }

  /** The added uses over the affected files, leaving out the presubmit script itself. */
  function AddedCalls(files: seq<AffectedFile>, presubmit: string, code: string): nat
  {
    if files == [] then 0
    else
      var f := files[|files| - 1];
      AddedCalls(files[..|files| - 1], presubmit, code) + (if f.path == presubmit then 0 else DiffAdds(f.diff, code))
  }

  /** The removed uses over the affected files, leaving out the presubmit script itself. */
  function RemovedCalls(files: seq<AffectedFile>, presubmit: string, code: string): nat
  {
    if files == [] then 0
    else
      var f := files[|files| - 1];
      RemovedCalls(files[..|files| - 1], presubmit, code) + (if f.path == presubmit then 0 else DiffRemoves(f.diff, code))
  }

  /** The error reported when a change adds more uses of the deprecated code than it removes. */
  function DeprecatedCodeError(code: string, crbug: nat): PresubmitError
  {
    PresubmitError("Your patch adds more instances of " + code + ". Please see crbug.com/" + Decimal(crbug)
                   + " for" + "how to proceed.", [], "")
  }

  /** The path of the presubmit script, which no check looks at. */
  function PresubmitPath(localPath: string): string
  {
    PathJoin(localPath, "PRESUBMIT.py")
  }

  /**
   * `_CheckNoMoreUsageOfDeprecatedCode`: counts the added and the removed lines
   * holding `code` over the diffs of the change, except the presubmit script's,
   * and reports one error when more are added than removed.
   */
  method CheckNoMoreUsageOfDeprecatedCode(files: seq<AffectedFile>, localPath: string, code: string, crbug: nat)
    returns (results: seq<PresubmitError>)
    ensures var added := AddedCalls(files, PresubmitPath(localPath), code);
      var removed := RemovedCalls(files, PresubmitPath(localPath), code);
      results == if added > removed then [DeprecatedCodeError(code, crbug)] else []
  {
    results := [];
    var presubmit := PathJoin(localPath, "PRESUBMIT.py");
    var addedCalls, removedCalls := 0, 0;
    for i := 0 to |files|
      invariant addedCalls == AddedCalls(files[..i], presubmit, code)
      invariant removedCalls == RemovedCalls(files[..i], presubmit, code)
    {
      assert files[..i + 1][..i] == files[..i];
      var f := files[i];
      if f.path != presubmit {
        for j := 0 to |f.diff|
          invariant addedCalls == AddedCalls(files[..i], presubmit, code) + DiffAdds(f.diff[..j], code)
          invariant removedCalls == RemovedCalls(files[..i], presubmit, code) + DiffRemoves(f.diff[..j], code)
        {
          assert f.diff[..j + 1][..j] == f.diff[..j];
          var line := f.diff[j];
          if IsAddedLine(line) && Contains(line, code) {
            addedCalls := addedCalls + 1;
          } else if IsRemovedLine(line) && Contains(line, code) {
            removedCalls := removedCalls + 1;
          }
        }
        assert f.diff[..|f.diff|] == f.diff;
      }
    }
    assert files[..|files|] == files;
    if addedCalls > removedCalls {
      results := results + [DeprecatedCodeError(code, crbug)];
    }
  }

  /** The affected source files other than the presubmit script, in order. */
  function OtherFiles(paths: seq<string>, presubmit: string): (r: seq<string>)
    ensures forall p :: p in r <==> p in paths && p != presubmit
  {
    if paths == [] then []
    else (if paths[0] == presubmit then [] else [paths[0]]) + OtherFiles(paths[1..], presubmit)
  }

  /** The error telling that the directory has moved, listing the changed files. */
  const MovedMessage: string := "tools/telemetry/ has moved to the catapult repo. It is deprecated and "
                                 + "scheduled for deletion on 1/29/16."
                                 + "\nPlease instead make your changes to telemetry/ "
                                 + "in https://github.com/catapult-project/catapult/tree/master/telemetry."
                                 + "\nContact aiolos@ for further questions. Changed files:\n"

  function MovedError(changed: seq<string>): PresubmitError
  {
    PresubmitError(MovedMessage, changed, "")
  }

  /** The notice of `_TemporarilyReadOnly`, given the path of the presubmit script. */
  function ReadOnlyNotice(sourcePaths: seq<string>, presubmit: string): seq<PresubmitError>
  {
    var changed := OtherFiles(sourcePaths, presubmit);
    if changed != [] then [MovedError(changed)] else []
  }

  /** `_TemporarilyReadOnly` over the paths of the affected source files. */
  function TemporarilyReadOnly(sourcePaths: seq<string>, localPath: string): (r: seq<PresubmitError>)
    ensures |r| <= 1
    ensures r != [] <==> exists p :: p in sourcePaths && p != PresubmitPath(localPath)
  {
    var changed := OtherFiles(sourcePaths, PresubmitPath(localPath));
    assert changed != [] ==> changed[0] in changed;
    ReadOnlyNotice(sourcePaths, PresubmitPath(localPath))
  }

  /** The validators run on `binary_dependencies.json`, with the error of the first that fails. */
  datatype Validation = Validation(runs: seq<seq<string>>, results: seq<PresubmitError>)

  function DependenciesPath(localPath: string): string
  {
    PathJoin(PathJoin(PathJoin(localPath, "telemetry"), "internal"), "binary_dependencies.json")
  }

  function ValidatorCommand(python: string, localPath: string, tool: string): seq<string>
  {
    [python, PathJoin(localPath, tool), DependenciesPath(localPath)]
  }

  function ValidationFailed(output: string): PresubmitError
  {
    PresubmitError("Validating binary_dependencies.json failed:", [], output)
  }

  /**
   * The loop of `_CheckTelemetryBinaryDependencies` from the `i`th affected
   * file on: for each file at `depsPath`, run the `json_format` command and
   * then the `validate_binary_dependencies` one; the first failure ends the
   * loop. Both validators are deterministic: every run gives the result passed in.
   */
  function ValidateFrom(paths: seq<string>, i: nat, depsPath: string, formatRun: seq<string>, validateRun: seq<string>,
                        jsonFormat: RunResult, validate: RunResult): (r: Validation)
    requires i <= |paths|
    ensures |r.results| <= 1
    ensures r.results != [] <==> depsPath in paths[i..] && (jsonFormat.returnCode != 0 || validate.returnCode != 0)
    decreases |paths| - i
  {
    assert i < |paths| ==> paths[i..] == [paths[i]] + paths[i + 1..];
    if i == |paths| then Validation([], [])
    else if paths[i] != depsPath then ValidateFrom(paths, i + 1, depsPath, formatRun, validateRun, jsonFormat, validate)
    else if jsonFormat.returnCode != 0 then Validation([formatRun], [ValidationFailed(jsonFormat.output)])
    else if validate.returnCode != 0 then Validation([formatRun, validateRun], [ValidationFailed(validate.output)])
    else
      var rest := ValidateFrom(paths, i + 1, depsPath, formatRun, validateRun, jsonFormat, validate);
      Validation([formatRun, validateRun] + rest.runs, rest.results)
  }

  /** What `_CheckTelemetryBinaryDependencies` runs and reports for the affected files at `paths`. */
  function BinaryDependencies(paths: seq<string>, python: string, localPath: string, jsonFormat: RunResult, validate: RunResult): Validation
  {
    ValidateFrom(paths, 0, DependenciesPath(localPath), ValidatorCommand(python, localPath, "json_format"),
                 ValidatorCommand(python, localPath, "validate_binary_dependencies"), jsonFormat, validate)
  }

  /** `_CheckTelemetryBinaryDependencies` over the paths of the affected files. */
  method CheckTelemetryBinaryDependencies(paths: seq<string>, python: string, localPath: string, jsonFormat: RunResult, validate: RunResult)
    returns (runs: seq<seq<string>>, results: seq<PresubmitError>)
    ensures Validation(runs, results) == BinaryDependencies(paths, python, localPath, jsonFormat, validate)
  {
    var depsPath := DependenciesPath(localPath);
    var formatRun := ValidatorCommand(python, localPath, "json_format");
    var validateRun := ValidatorCommand(python, localPath, "validate_binary_dependencies");
    runs, results := RunValidators(paths, depsPath, formatRun, validateRun, jsonFormat, validate);
  }

  /** The loop of `_CheckTelemetryBinaryDependencies`, over the commands it builds. */
  method RunValidators(paths: seq<string>, depsPath: string, formatRun: seq<string>, validateRun: seq<string>,
                       jsonFormat: RunResult, validate: RunResult)
    returns (runs: seq<seq<string>>, results: seq<PresubmitError>)
    ensures Validation(runs, results) == ValidateFrom(paths, 0, depsPath, formatRun, validateRun, jsonFormat, validate)
  {
    runs, results := [], [];
    ghost var full := ValidateFrom(paths, 0, depsPath, formatRun, validateRun, jsonFormat, validate);
    var i := 0;
    while i < |paths|
      invariant i <= |paths| && results == []
      invariant full == Validation(runs + ValidateFrom(paths, i, depsPath, formatRun, validateRun, jsonFormat, validate).runs,
                                   ValidateFrom(paths, i, depsPath, formatRun, validateRun, jsonFormat, validate).results)
    {
      ValidateStep(paths, i, depsPath, formatRun, validateRun, jsonFormat, validate);
      if paths[i] == depsPath {
        runs := runs + [formatRun];
        if jsonFormat.returnCode != 0 {
          results := [ValidationFailed(jsonFormat.output)];
          break;
        }
        runs := runs + [validateRun];
        if validate.returnCode != 0 {
          results := [ValidationFailed(validate.output)];
          break;
        }
      }
      i := i + 1;
    }
  }

  /** One step of `ValidateFrom`, in the shape the loop of `CheckTelemetryBinaryDependencies` takes it. */
  lemma ValidateStep(paths: seq<string>, i: nat, depsPath: string, formatRun: seq<string>, validateRun: seq<string>,
                     jsonFormat: RunResult, validate: RunResult)
    requires i < |paths|
    ensures var here := ValidateFrom(paths, i, depsPath, formatRun, validateRun, jsonFormat, validate);
            var rest := ValidateFrom(paths, i + 1, depsPath, formatRun, validateRun, jsonFormat, validate);
            here == if paths[i] != depsPath then rest
                    else if jsonFormat.returnCode != 0 then Validation([formatRun], [ValidationFailed(jsonFormat.output)])
                    else if validate.returnCode != 0 then Validation([formatRun, validateRun], [ValidationFailed(validate.output)])
                    else Validation([formatRun, validateRun] + rest.runs, rest.results)
  {
  }

  /** `_CommonChecks`: the lint results, the deprecated-code count and the read-only notice, in that order. */
  method CommonChecks(lint: seq<PresubmitError>, files: seq<AffectedFile>, sourcePaths: seq<string>, localPath: string)
    returns (results: seq<PresubmitError>)
    ensures results == lint
      + (if AddedCalls(files, PresubmitPath(localPath), "GetChromiumSrcDir()") > RemovedCalls(files, PresubmitPath(localPath), "GetChromiumSrcDir()")
         then [DeprecatedCodeError("GetChromiumSrcDir()", 511332)] else [])
      + TemporarilyReadOnly(sourcePaths, localPath)
  {
    results := lint;
    var deprecated := CheckNoMoreUsageOfDeprecatedCode(files, localPath, "GetChromiumSrcDir()", 511332);
    results := results + deprecated;
    results := results + TemporarilyReadOnly(sourcePaths, localPath);
  }
}

/** What the presubmit checks promise. */
module PresubmitProperties {
  import opened Strings
  import opened Presubmit

  /** The classifier: a line is added iff it starts with `+` and is not a `+++ ` header. */
  lemma AddedLineExamples()
    ensures IsAddedLine("+x") && !IsAddedLine("+++ b/file") && IsAddedLine("+++x") && !IsAddedLine("x+")
    ensures IsRemovedLine("-x") && !IsRemovedLine("--- a/file") && !IsRemovedLine("")
  {
    assert "+++ b/file"[..4] == "+++ ";
    assert "--- a/file"[..4] == "--- ";
    assert "+++x"[3] != "+++ "[3];
    assert "x+"[..1] == "x";
  }

  /** Each line is counted at most once, and only when it holds the code and is added or removed. */
  lemma LineCountedOnce(line: string, code: string)
    ensures LineAdds(line, code) + LineRemoves(line, code) <= 1
    ensures LineAdds(line, code) + LineRemoves(line, code) == 1 <==>
      Contains(line, code) && (IsAddedLine(line) || IsRemovedLine(line))
  {
  }

  /** A diff yields no more counted uses than it has lines. */
  lemma {:induction false} DiffCountBound(lines: seq<string>, code: string)
    ensures DiffAdds(lines, code) + DiffRemoves(lines, code) <= |lines|
  {
    if lines != [] {
      DiffCountBound(lines[..|lines| - 1], code);
      LineCountedOnce(lines[|lines| - 1], code);
    }
  }

  /** The counts over a change are the sums of the counts over its parts. */
  lemma {:induction false} CallsAppend(files: seq<AffectedFile>, more: seq<AffectedFile>, presubmit: string, code: string)
    ensures AddedCalls(files + more, presubmit, code) == AddedCalls(files, presubmit, code) + AddedCalls(more, presubmit, code)
    ensures RemovedCalls(files + more, presubmit, code) == RemovedCalls(files, presubmit, code) + RemovedCalls(more, presubmit, code)
    decreases |more|
  {
    if more != [] {
      var init := more[..|more| - 1];
      assert (files + more)[..|files + more| - 1] == files + init;
      assert (files + more)[|files + more| - 1] == more[|more| - 1];
      CallsAppend(files, init, presubmit, code);
    } else {
      assert files + more == files;
    }
  }

  /** Two changes that differ only in the presubmit script's diff. */
  ghost predicate SameOutsidePresubmit(files: seq<AffectedFile>, files': seq<AffectedFile>, presubmit: string)
  {
    && |files| == |files'|
    && forall k :: 0 <= k < |files| ==>
         files[k].path == files'[k].path && (files[k].path != presubmit ==> files[k].diff == files'[k].diff)
  }

  /** The presubmit script's own diff is never counted. */
  lemma {:induction false} PresubmitNeverCounted(files: seq<AffectedFile>, files': seq<AffectedFile>, presubmit: string, code: string)
    requires SameOutsidePresubmit(files, files', presubmit)
    ensures AddedCalls(files, presubmit, code) == AddedCalls(files', presubmit, code)
    ensures RemovedCalls(files, presubmit, code) == RemovedCalls(files', presubmit, code)
    decreases |files|
  {
    if files != [] {
      var n := |files| - 1;
      PresubmitNeverCounted(files[..n], files'[..n], presubmit, code);
    }
  }

  /** A file that moves a use (one removed and one added line holding the code) adds one to each count. */
  lemma MovedCallCounts(files: seq<AffectedFile>, presubmit: string, code: string, path: string, removed: string, added: string)
    requires path != presubmit
    requires IsRemovedLine(removed) && Contains(removed, code)
    requires IsAddedLine(added) && Contains(added, code)
    ensures var moved := files + [AffectedFile(path, [removed, added])];
      AddedCalls(moved, presubmit, code) == AddedCalls(files, presubmit, code) + 1
      && RemovedCalls(moved, presubmit, code) == RemovedCalls(files, presubmit, code) + 1
  {
    var moved := files + [AffectedFile(path, [removed, added])];
    assert moved[..|moved| - 1] == files;
    assert [removed, added][..1] == [removed] && [removed][..0] == [];
    assert LineAdds(removed, code) == 0 && LineRemoves(removed, code) == 1;
    assert LineAdds(added, code) == 1 && LineRemoves(added, code) == 0;
    assert DiffAdds([removed], code) == 0 && DiffRemoves([removed], code) == 1;
    assert DiffAdds([removed, added], code) == 1 && DiffRemoves([removed, added], code) == 1;
  }

  /** Moving a use of the deprecated code never changes whether the change is reported; a move on its own is never reported. */
  lemma MovedCallKeepsVerdict(files: seq<AffectedFile>, localPath: string, code: string, path: string, removed: string, added: string)
    requires path != PresubmitPath(localPath)
    requires IsRemovedLine(removed) && Contains(removed, code)
    requires IsAddedLine(added) && Contains(added, code)
    ensures var p, moved := PresubmitPath(localPath), files + [AffectedFile(path, [removed, added])];
      (AddedCalls(moved, p, code) > RemovedCalls(moved, p, code)) == (AddedCalls(files, p, code) > RemovedCalls(files, p, code))
    ensures var p := PresubmitPath(localPath);
      AddedCalls([AffectedFile(path, [removed, added])], p, code) == RemovedCalls([AffectedFile(path, [removed, added])], p, code)
  {
    MovedCallCounts(files, PresubmitPath(localPath), code, path, removed, added);
    MovedCallCounts([], PresubmitPath(localPath), code, path, removed, added);
    assert [] + [AffectedFile(path, [removed, added])] == [AffectedFile(path, [removed, added])];
  }

  /** Only `binary_dependencies.json` is validated: without it nothing runs. */
  lemma {:induction false} ValidationOnlyOnDependencies(paths: seq<string>, i: nat, depsPath: string, formatRun: seq<string>,
                                                        validateRun: seq<string>, jsonFormat: RunResult, validate: RunResult)
    requires i <= |paths| && depsPath !in paths[i..]
    ensures ValidateFrom(paths, i, depsPath, formatRun, validateRun, jsonFormat, validate) == Validation([], [])
    decreases |paths| - i
  {
    if i < |paths| {
      assert paths[i..] == [paths[i]] + paths[i + 1..];
      ValidationOnlyOnDependencies(paths, i + 1, depsPath, formatRun, validateRun, jsonFormat, validate);
    }
  }

  /** When a validator fails, its output is the error's long text, and `json_format` is checked first. */
  lemma {:induction false} ValidationReportsFirstFailure(paths: seq<string>, i: nat, depsPath: string, formatRun: seq<string>,
                                                         validateRun: seq<string>, jsonFormat: RunResult, validate: RunResult)
    requires i <= |paths| && depsPath in paths[i..]
    ensures jsonFormat.returnCode != 0 ==>
      ValidateFrom(paths, i, depsPath, formatRun, validateRun, jsonFormat, validate).results == [ValidationFailed(jsonFormat.output)]
    ensures jsonFormat.returnCode == 0 && validate.returnCode != 0 ==>
      ValidateFrom(paths, i, depsPath, formatRun, validateRun, jsonFormat, validate).results == [ValidationFailed(validate.output)]
    decreases |paths| - i
  {
    assert paths[i..] == [paths[i]] + paths[i + 1..];
    if paths[i] != depsPath {
      ValidationReportsFirstFailure(paths, i + 1, depsPath, formatRun, validateRun, jsonFormat, validate);
    }
  }
}
