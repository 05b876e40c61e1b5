# Chromium tools: task manager, binary-size diagnosis, coverage script, telemetry presubmit, GN scopes

This project models five pieces of Chromium's tooling in Dafny and proves properties of them.

- **The loading task manager** (`android/loading`). A task is a static file or a recipe that produces an output path. The builder registers tasks and checks that their paths are unique. `GenerateScenario` lists the tasks the goals need, dependencies first, and skips frozen tasks whose output exists. `GenerateDependentSetPerTask` computes for each task the tasks that depend on it. `ListResumingTasksToFreeze` finds the smallest frozen set that makes a rerun skip a given set of tasks. `ExecuteWithCommandLine` picks tasks with `-e`/`-f` regexes, runs the scenario (with `-k` it keeps going past failures), and writes a resume file. `task_manager.py` is not part of this model. Its behaviour is rebuilt from the expectations in `task_manager_unittest.py`, and every row below cites those test lines.
- **`diagnose_apk_bloat.py`**. Covered parts:
  - the `_BuildHelper` names and defaults, and its `gn` and `ninja` commands;
  - the resource-size diff and its summary line;
  - the archive metadata comparison;
  - the revision-list selection;
  - the consecutive-failure counter of the build loop;
  - the tool-prefix search.
- **`coverage.py`**. Covered parts:
  - the `args.gn` parser;
  - the clang stamp-file reader, together with the stamp writer, and the tool-download decision;
  - the `ninja` and `llvm-cov show` commands;
  - the binary path of a command;
  - the file names `_ExecuteCommand` uses and the gtest target set.
- **The telemetry `PRESUBMIT.py`**. Covered parts:
  - the added and removed diff-line tests;
  - the deprecated-call counter;
  - the read-only notice;
  - the `binary_dependencies.json` validation loop.
- **GN's `Scope`**, as `scope_unittest.cc` exercises it. Covered parts:
  - values held along a chain of containing scopes, where a const ancestor is readable but not mutable;
  - merging with and without clobber;
  - closures;
  - the used-variable marks. `scope.cc` is not part of this model.

Each module matches one source file or one concern:

| module | models |
|---|---|
| `Wrappers` | `Option`, `Result` and the Python exceptions |
| `Sets`, `Strings` | list, set and string helpers (Python's `split`, `strip`, `int`, `str.replace`, `os.path.join`) |
| `TaskGraph` | the `Task` and `Builder` classes |
| `Scenario`, `ScenarioProperties` | `GenerateScenario` and its soundness, leastness and completeness |
| `Dependents`, `DependentsProperties` | `GenerateDependentSetPerTask` |
| `Resume`, `ResumeProperties` | `ListResumingTasksToFreeze` and its round trip |
| `Selection`, `SelectionProperties` | the `-e` and `-f` selection |
| `ResumeFile` | the resume file's text |
| `Driver` | `ExecuteWithCommandLine` |
| `ApkBloat` | `diagnose_apk_bloat.py` |
| `Coverage` | `coverage.py` |
| `Presubmit`, `PresubmitProperties` | `PRESUBMIT.py` |
| `GnScope`, `GnScopeScenarios` | GN's `Scope` and the scenarios of its unit test |

The model follows the tests and code wherever they disagree with the task manager's written design:

- Builder keys are the task name inside the optional output subdirectory (`subdir/hello.py`), not absolute paths. A dynamic task's path is the output directory joined with that key (`task_manager_unittest.py:165-186`, `121-132`).
- The written design says a frozen task with no output has its dependencies expanded again. The tests expect a `TaskError` when a reachable frozen task has no output (`task_manager_unittest.py:231-232`), and the model raises it.

## Model

| member | source | states |
|---|---|---|
| TaskGraph.TaskArena.constructor | android/loading/task_manager_unittest.py:69-101 | an arena starts with no tasks |
| TaskGraph.TaskArena.NewTask | android/loading/task_manager_unittest.py:69-88 | a new task is appended with its name, path and dependencies; a static task (no recipe) is done from creation, a dynamic one is not, and its recipe has run zero times |
| TaskGraph.TaskArena.AddDependency | android/loading/task_manager_unittest.py:89-101 | adding a dependency changes only that task's dependency list |
| TaskGraph.TaskArena.Execute | android/loading/task_manager_unittest.py:69-101 | executing a static task raises `TaskError` and changes nothing; a done dynamic task is not run again; otherwise only its own recipe runs, once more, and the task is done exactly when the recipe returns |
| TaskGraph.Builder.constructor | android/loading/task_manager_unittest.py:104-186 | a builder starts with no registered tasks, over the given arena, output directory and optional subdirectory |
| TaskGraph.Builder.Key | android/loading/task_manager_unittest.py:165-186 | the registration key is the name itself without a subdirectory and exactly `sub/name` inside the subdirectory `sub` |
| TaskGraph.Builder.SubdirectoryKeys | android/loading/task_manager_unittest.py:165-186 | the test's keys: inside `sub`, `name` is registered as `sub/name`, never as the bare name, and the already-joined `sub/name` as `sub/sub/name` |
| TaskGraph.Builder.CreateStaticTask | android/loading/task_manager_unittest.py:105-119 | a missing file raises `TaskError`; re-using a key raises `TaskError`; otherwise a static, done task over the existing file is stored under its key; errors change nothing |
| TaskGraph.Builder.RegisterTask | android/loading/task_manager_unittest.py:121-186 | a new key stores a dynamic task at output directory + key; a used key raises unless `merge` is set, merging onto a static task raises, and merging onto a dynamic task returns the existing task; errors and merges change nothing |
| Scenario.Visit | android/loading/task_manager_unittest.py:189-270 | visiting a task only adds path marks (the walk's termination measure); it fails only with a cycle, collision or missing-output error, and keeps every listed task live |
| Scenario.VisitAll | android/loading/task_manager_unittest.py:189-270 | visiting a list of goals only adds path marks; it fails only with a cycle, collision or missing-output error, and keeps every listed task live |
| Scenario.VisitExtends | android/loading/task_manager_unittest.py:189-211 | a successful visit keeps every earlier mark and listed task and only appends tasks whose paths it marks |
| Scenario.VisitAllExtends | android/loading/task_manager_unittest.py:189-211 | the same for a list of goals |
| Scenario.GenerateScenario | android/loading/task_manager_unittest.py:189-270 | a scenario lists only live tasks of the graph (neither static nor frozen with output), and an error is always a cycle, a path collision or a frozen task without output |
| ScenarioProperties.VisitSound | android/loading/task_manager_unittest.py:189-240 | after a visit the task is available (static, frozen with output, or listed) and the walk invariant holds: listed tasks are live, distinct in path, with their dependencies available before them |
| ScenarioProperties.VisitAllSound | android/loading/task_manager_unittest.py:189-240 | after visiting the goals every goal is available and the walk invariant holds |
| ScenarioProperties.ScenarioSound | android/loading/task_manager_unittest.py:189-240 | a successful `GenerateScenario` lists each needed task once, dependencies before dependents, never a static or frozen-with-output task |
| ScenarioProperties.VisitLeast | android/loading/task_manager_unittest.py:189-240 | a visit lists only tasks inside any set closed under live dependencies that holds the task |
| ScenarioProperties.VisitAllLeast | android/loading/task_manager_unittest.py:189-240 | the same for a list of goals |
| ScenarioProperties.ScenarioLeast | android/loading/task_manager_unittest.py:190-240 | the scenario lies inside every set that holds the live goals and is closed under live dependencies, so redundant goals and goal order add nothing and frozen subtrees are omitted |
| ScenarioProperties.VisitComplete | android/loading/task_manager_unittest.py:242-270 | a visit succeeds when the tasks to list have distinct paths, a rank that decreases along dependencies, and frozen ones have outputs |
| ScenarioProperties.VisitAllComplete | android/loading/task_manager_unittest.py:242-270 | the same for a list of goals |
| ScenarioProperties.ScenarioComplete | android/loading/task_manager_unittest.py:242-270 | `GenerateScenario` fails only on a cycle, a path collision or a frozen goal without output: with an acyclic, collision-free live set it succeeds |
| ScenarioProperties.ReachedListed | android/loading/task_manager_unittest.py:189-270 | a live task reached from the goals through live tasks is listed, after the task that depends on it |
| ScenarioProperties.ReachedOrder | android/loading/task_manager_unittest.py:242-256 | along a chain of live dependencies the later task is always listed strictly earlier |
| ScenarioProperties.ScenarioAcyclic | android/loading/task_manager_unittest.py:242-256 | no live task reached from the goals of a scenario lies on a dependency cycle |
| ScenarioProperties.ScenarioPathsDistinct | android/loading/task_manager_unittest.py:258-270 | two live tasks reached from the goals of a scenario with the same output path are the same task |
| ScenarioProperties.ScenarioFrozenPresent | android/loading/task_manager_unittest.py:213-232 | a frozen dynamic task reached from the goals of a scenario has its output |
| ScenarioProperties.CycleFails | android/loading/task_manager_unittest.py:242-256 | a dependency cycle among the live tasks reached from the goals makes `GenerateScenario` raise |
| ScenarioProperties.CollisionFails | android/loading/task_manager_unittest.py:258-270 | two different live tasks reached from the goals with one output path make `GenerateScenario` raise |
| ScenarioProperties.FrozenMissingFails | android/loading/task_manager_unittest.py:213-232 | a reached frozen dynamic task without its output makes `GenerateScenario` raise |
| ScenarioProperties.CycleErrorExample | android/loading/task_manager_unittest.py:242-256 | `testCycleError`: `a` on `c`, `b` on `a`, `c` on `b`, goal `d` on `c` raises |
| ScenarioProperties.CollisionErrorExample | android/loading/task_manager_unittest.py:258-270 | `testCollisionError`: two tasks registered as `a` by two builders raise |
| ScenarioProperties.FrozenMissingExample | android/loading/task_manager_unittest.py:213-232 | `testFreezing`: freezing `a` before its output exists raises for goal `d` |
| Dependents.DirectDependents | android/loading/task_manager_unittest.py:272-295 | the direct dependents are scenario tasks |
| Dependents.Close | android/loading/task_manager_unittest.py:272-295 | the fixpoint grows its start and stays inside the scenario |
| Dependents.DependentSet | android/loading/task_manager_unittest.py:272-295 | a task's dependents include its direct dependents and are scenario tasks |
| Dependents.GenerateDependentSetPerTask | android/loading/task_manager_unittest.py:272-295 | one entry per scenario task, holding at least its direct dependents and only scenario tasks |
| DependentsProperties.CloseClosed | android/loading/task_manager_unittest.py:272-295 | the fixpoint is closed: no scenario task outside it depends on a task inside it |
| DependentsProperties.CloseLeast | android/loading/task_manager_unittest.py:272-295 | the fixpoint lies inside every closed set containing its start |
| DependentsProperties.DependentSetClosed | android/loading/task_manager_unittest.py:272-295 | a scenario task depending on the task or on one of its dependents is a dependent |
| DependentsProperties.DependentSetLeast | android/loading/task_manager_unittest.py:272-295 | the dependent set is the least closed set holding the direct dependents |
| DependentsProperties.DependentSetTransitive | android/loading/task_manager_unittest.py:272-295 | dependents of a dependent are dependents |
| DependentsProperties.ScenarioTopological | android/loading/task_manager_unittest.py:189-211 | a scenario lists every task after the listed tasks it depends on |
| DependentsProperties.DependentsComeAfter | android/loading/task_manager_unittest.py:272-295 | in a scenario every dependent of a task comes after it |
| DependentsProperties.DependentSetExample | android/loading/task_manager_unittest.py:272-295 | the test's cases: `a` has no dependents in `[a]` or `[a,b]`, `{c}` in `[a,b,c]`, `{c,d}` in `[a,b,c,d]`, and `d` has none in `[a,d]` |
| DependentsProperties.ExampleCase | android/loading/task_manager_unittest.py:287-295 | a closed set of direct dependents is the dependent set |
| Resume.ResumeVisit | android/loading/task_manager_unittest.py:321-369 | the resume walk only adds walked tasks |
| Resume.ResumeVisitAll | android/loading/task_manager_unittest.py:321-369 | the same for a list of goals |
| Resume.ListResumingTasksToFreeze | android/loading/task_manager_unittest.py:321-369 | the tasks to freeze are dynamic tasks of the graph, none both in the scenario and skipped |
| ResumeProperties.ResumeVisitSound | android/loading/task_manager_unittest.py:321-369 | the walk reaches the task if dynamic; a reached task is frozen exactly when it is not both in the scenario and skipped; walked-through tasks have their dynamic dependencies reached |
| ResumeProperties.ResumeVisitAllSound | android/loading/task_manager_unittest.py:321-369 | the same for a list of goals |
| ResumeProperties.ResumeVisitLeast | android/loading/task_manager_unittest.py:321-369 | the walk reaches only tasks of any set closed under walking through skipped scenario tasks |
| ResumeProperties.ResumeVisitAllLeast | android/loading/task_manager_unittest.py:321-369 | the same for a list of goals |
| ResumeProperties.ReachedFacts | android/loading/task_manager_unittest.py:321-369 | the tasks reached by `ListResumingTasksToFreeze` satisfy the walk invariant and include the dynamic goals |
| ResumeProperties.ReachedLeast | android/loading/task_manager_unittest.py:321-369 | the reached set is the least closed set holding the dynamic goals |
| ResumeProperties.SkippedReached | android/loading/task_manager_unittest.py:347-369 | every skipped task (closed under dependents in the scenario) is reached |
| ResumeProperties.ReplayClosed | android/loading/task_manager_unittest.py:347-369 | with the result frozen, the skipped set holds the live goals, is closed under live dependencies and is all live |
| ResumeProperties.ReplayFeasible | android/loading/task_manager_unittest.py:347-369 | with the result frozen, the skipped tasks can be listed without cycle or collision |
| ResumeProperties.ReplayCovers | android/loading/task_manager_unittest.py:347-369 | rerunning with the result frozen lists every skipped task |
| ResumeProperties.ResumeRoundTrip | android/loading/task_manager_unittest.py:347-369 | `set(GenerateScenario(goals, ListResumingTasksToFreeze(scenario, goals, skipped))) == skipped` |
| ResumeProperties.ResumeMinimal | android/loading/task_manager_unittest.py:347-369 | any frozen set giving the same scenario contains the result, which is therefore the minimal one |
| Selection.Matching | android/loading/task_manager_unittest.py:441-445 | the tasks matching one `-e` regex are tasks of the arena |
| Selection.RunSelection | android/loading/task_manager_unittest.py:441-445 | the tasks selected by the `-e` regexes are tasks of the arena |
| Selection.Without | android/loading/task_manager_unittest.py:447-456 | removing the impossible tasks keeps exactly the others |
| Selection.WithoutOne | android/loading/task_manager_unittest.py:447-456 | one task is kept exactly when it is not impossible |
| Selection.WithoutAppend | android/loading/task_manager_unittest.py:447-456 | removal distributes over concatenation, so the kept tasks keep their order and repetitions |
| Selection.RunFinals | android/loading/task_manager_unittest.py:441-456 | the final tasks chosen are tasks of the arena |
| Selection.SelectTasksFromCommandLineRegexes | android/loading/task_manager_unittest.py:441-456 | the selection loop computes the `-e`/`-f` selection function |
| Selection.SelectFinals | android/loading/task_manager_unittest.py:441-445 | the `-e` loop computes the final tasks: the matching tasks of the default scenario, regex by regex |
| Selection.AnyMatches | android/loading/task_manager_unittest.py:447-456 | the search finds a match exactly when some `-f` regex matches the name |
| Selection.SelectFrozen | android/loading/task_manager_unittest.py:447-456 | the `-f` loop computes the frozen list and drops the impossible tasks from the finals |
| SelectionProperties.MatchingMembers | android/loading/task_manager_unittest.py:441-445 | a task matches one regex exactly when it is listed and the regex matches its name |
| SelectionProperties.RunSelectionMembers | android/loading/task_manager_unittest.py:441-445 | a task is selected exactly when it is in the universe and some `-e` regex names it |
| SelectionProperties.FrozenListMembers | android/loading/task_manager_unittest.py:447-452 | a task is frozen exactly when some `-f` regex names it and its output exists |
| SelectionProperties.ImpossibleMembers | android/loading/task_manager_unittest.py:447-456 | a task is impossible exactly when it is, or depends on, a named task without output |
| SelectionProperties.SelectionIds | android/loading/task_manager_unittest.py:441-456 | every selected final is a task and every frozen task has its output |
| ResumeFile.FreezeArgs | android/loading/task_manager_unittest.py:458-527 | two resume-file lines per frozen task |
| ResumeFile.NewlineAt | android/loading/task_manager_unittest.py:458-527 | the first newline of a text, or its end |
| ResumeFile.SplitLine | android/loading/task_manager_unittest.py:458-527 | reading lines back splits off a first newline-free line |
| ResumeFile.EntryReadsBack | android/loading/task_manager_unittest.py:458-466 | one entry reads back as `-f` and `^name$` |
| ResumeFile.AnchoredEntry | android/loading/task_manager_unittest.py:458-466 | an entry followed by more text reads back as `-f`, `^name$` and then the lines of that text |
| ResumeFile.IncrementalResume | android/loading/task_manager_unittest.py:477-484 | the resume file kept during the run reads back as `-f`, `^name$` for each succeeded task in order |
| ResumeFile.JoinLinesReadsBack | android/loading/task_manager_unittest.py:458-527 | non-empty, newline-free lines joined by newlines read back as the same lines |
| ResumeFile.RegeneratedResume | android/loading/task_manager_unittest.py:458-484 | the resume file rewritten after a failure reads back as `-f`, `^name$` for each task to freeze |
| ResumeFile.RegeneratedReadsBack | android/loading/task_manager_unittest.py:458-484 | with single-line names, the joined `-f` arguments split back into the same lines |
| ResumeFile.AbortResumeText | android/loading/task_manager_unittest.py:458-465 | aborting after `d` succeeded rewrites the file as `-f\n^d$` |
| ResumeFile.KeepGoingResumeText | android/loading/task_manager_unittest.py:476-483 | a keep-going run after `d` and `b` succeeded rewrites the file as `-f\n^d$\n-f\n^b$` |
| ResumeFile.IncrementalResumeAppend | android/loading/task_manager_unittest.py:458-527 | each succeeded task appends exactly its own entry to the resume file |
| Driver.RecipeRan | android/loading/task_manager_unittest.py:372-531 | the tasks whose recipe ran are executed tasks |
| Driver.DoneAfter | android/loading/task_manager_unittest.py:372-531 | a run keeps one done flag per task |
| Driver.DoneAfterMeaning | android/loading/task_manager_unittest.py:372-531 | after a run a task is done exactly when it was done before or it succeeded |
| Driver.RunsAfterMeaning | android/loading/task_manager_unittest.py:372-531 | after a run each recipe has run as many more times as it appears in the history |
| Driver.DependenciesSucceeded | android/loading/task_manager_unittest.py:477-492 | a task the run reaches without it being skipped has all its scenario dependencies succeeded |
| Driver.BlockedGrows | android/loading/task_manager_unittest.py:477-492 | a new failure blocks exactly that task and its dependents in addition |
| Driver.Covered | android/loading/task_manager_unittest.py:477-492 | at the end every scenario task was executed or blocked by a failure |
| Driver.EndOfScenario | android/loading/task_manager_unittest.py:429-492 | a run through the whole scenario ends with every task executed or blocked |
| Driver.EndAtFailure | android/loading/task_manager_unittest.py:458-531 | a failure without `-k`, a keyboard interrupt or an out-of-memory error ends the run at that task, which is the only failure without `-k` and the last task attempted, with every earlier scenario task executed or blocked |
| Driver.ExecuteRecorded | android/loading/task_manager_unittest.py:372-531 | executing one task updates the done flags and recipe counts exactly as the run's history says |
| Driver.AttemptTask | android/loading/task_manager_unittest.py:458-531 | one scenario task is skipped, succeeds, or fails and blocks its dependents (with `-k`) or stops the run; the resume file gains the succeeded task's entry |
| Driver.RunScenario | android/loading/task_manager_unittest.py:429-531 | the run executes tasks in scenario order, dependencies first; without `-k` at most one task fails and it is the last attempted; every scenario task before the last attempted one was executed or blocked, and with `-k` all are; done flags, recipe counts and the resume file follow the history |
| Driver.PlanScenario | android/loading/task_manager_unittest.py:429-456 | the planned finals and frozen tasks are tasks of the arena |
| Driver.PlanFacts | android/loading/task_manager_unittest.py:429-456 | the plan's scenario is `GenerateScenario` of the selection: distinct, topological, with no static or frozen task |
| Driver.NotSucceededClosed | android/loading/task_manager_unittest.py:458-527 | the tasks not succeeded in a run are closed under dependents |
| Driver.ResumeSkipsCompletedWork | android/loading/task_manager_unittest.py:494-527 | replaying the resume file lists exactly the tasks that did not succeed |
| Driver.ResumeListIds | android/loading/task_manager_unittest.py:458-527 | the tasks to freeze are tasks of the arena |
| Driver.ExecuteWithCommandLine | android/loading/task_manager_unittest.py:429-527 | a configuration error raises and runs nothing; a dry run or an empty scenario runs nothing and writes no log (exit 1 when nothing matches); otherwise it reports what `RunPlan` does |
| Driver.RunPlan | android/loading/task_manager_unittest.py:429-527 | exit 0 iff nothing failed; without `-k` the one failure is the last task attempted; every task before it executed or blocked; interrupts propagate; the resume file is the incremental one (no failure, or out-of-memory) or the regenerated one |
| ApkBloat.Title | binary_size/diagnose_apk_bloat.py:159-162 | `title()` keeps the length |
| ApkBloat.TitleChars | binary_size/diagnose_apk_bloat.py:159-162 | `title()` upper-cases a letter after a non-letter and lower-cases a letter after a letter |
| ApkBloat.TitleAfterChars | binary_size/diagnose_apk_bloat.py:159-162 | title-casing after a letter or not: each character is upper-cased after a non-letter and lower-cased after a letter |
| ApkBloat.LowerAfterLetter | binary_size/diagnose_apk_bloat.py:159-162 | a lower-case word after a letter is left unchanged |
| ApkBloat.TitleIdempotent | binary_size/diagnose_apk_bloat.py:159-162 | title-casing twice is title-casing once |
| ApkBloat.TitleLowerWord | binary_size/diagnose_apk_bloat.py:159-162 | a lower-case word gets only its first letter upper-cased |
| ApkBloat.ApkName | binary_size/diagnose_apk_bloat.py:159-162 | `apk_name` title-cases and joins every `_` part but the last, rewrites `Webview` to `WebView` and ends in `.apk` |
| ApkBloat.ApkNameDropsLastPart | binary_size/diagnose_apk_bloat.py:159-162 | a target written as parts joined by `_` is named after all of its parts but the last |
| ApkBloat.MainLibName | binary_size/diagnose_apk_bloat.py:169-176 | `chrome` exactly on Linux; otherwise the monochrome library exactly when the target contains `monochrome` |
| ApkBloat.MapFileName | binary_size/diagnose_apk_bloat.py:183-184 | the main library name followed by `.map.gz`, and nothing else in between (its length is the sum of the two) |
| ApkBloat.GnArgs | binary_size/diagnose_apk_bloat.py:200-207 | the GN arguments start with the official-build flags and end with the extra arguments |
| ApkBloat.BuildHelper.constructor | binary_size/diagnose_apk_bloat.py:142-152 | the helper copies the arguments and applies the defaults |
| ApkBloat.BuildHelper.SetDefaults | binary_size/diagnose_apk_bloat.py:186-198 | goma is used if asked or a goma directory exists; load average defaults to the CPU count; jobs default to 10000 with goma and 500 without; the extra GN args depend on `src-internal` |
| ApkBloat.BuildHelper.GenGnCmd | binary_size/diagnose_apk_bloat.py:200-207 | `gn gen <out> --args=<gn args>` |
| ApkBloat.BuildHelper.GenNinjaCmd | binary_size/diagnose_apk_bloat.py:209-214 | `ninja -C <out>`, then `-j` and `-l` only when set, and the target last |
| ApkBloat.DefaultNinjaCmd | binary_size/diagnose_apk_bloat.py:186-214 | after the defaults the ninja command always carries `-j` (10000 with goma, 500 without, unless given) and `-l` |
| ApkBloat.Collect | binary_size/diagnose_apk_bloat.py:102-121 | the diff holds exactly the with-minus-without entries of the pairs present in both charts with equal units, never more than there are entries |
| ApkBloat.CollectOne | binary_size/diagnose_apk_bloat.py:106-119 | one entry gives its difference when comparable, and nothing otherwise |
| ApkBloat.CollectAppend | binary_size/diagnose_apk_bloat.py:106-119 | collecting distributes over concatenation: one result per comparable entry, in order |
| ApkBloat.InsertPermutes | binary_size/diagnose_apk_bloat.py:120-121 | inserting keeps every entry |
| ApkBloat.InsertSorted | binary_size/diagnose_apk_bloat.py:120-121 | inserting into a list sorted by descending magnitude keeps it sorted |
| ApkBloat.InsertBounded | binary_size/diagnose_apk_bloat.py:120-121 | inserting keeps every magnitude within a common bound |
| ApkBloat.InsertStable | binary_size/diagnose_apk_bloat.py:120-121 | inserting places the new entry before the old entries of its magnitude and keeps their order |
| ApkBloat.SortByMagnitude | binary_size/diagnose_apk_bloat.py:120-121 | the sort orders by descending absolute value and is a permutation |
| ApkBloat.SortByMagnitudeStable | binary_size/diagnose_apk_bloat.py:120-121 | entries of equal magnitude keep their order, as Python's sort does |
| ApkBloat.GroupedDigits | binary_size/diagnose_apk_bloat.py:96-100 | the `{:,}` grouping is the decimal text with commas added |
| ApkBloat.WithoutCommasAppend | binary_size/diagnose_apk_bloat.py:96-100 | dropping commas distributes over concatenation |
| ApkBloat.WithoutCommasDigits | binary_size/diagnose_apk_bloat.py:96-100 | a string of digits has no commas to drop |
| ApkBloat.DecimalThousands | binary_size/diagnose_apk_bloat.py:96-100 | the decimal text of a number of 1000 or more is that of its thousands followed by three digits |
| ApkBloat.SummaryOf | binary_size/diagnose_apk_bloat.py:96-100 | the summary is empty exactly when no entry's section contains `normalized`, and otherwise is the line of the first such entry |
| ApkBloat.ResourceSizesDiff.constructor | binary_size/diagnose_apk_bloat.py:86-90 | a new diff holds no result (`_diff = None`) |
| ApkBloat.ResourceSizesDiff.ProduceDiff | binary_size/diagnose_apk_bloat.py:102-121 | the stored diff is present and is the comparable entries' differences sorted by descending magnitude |
| ApkBloat.ResourceSizesDiff.Summary | binary_size/diagnose_apk_bloat.py:86-100 | before `ProduceDiff` the summary raises `TypeError`; after it, it is the summary of the stored diff |
| ApkBloat.Strs | binary_size/diagnose_apk_bloat.py:331-345 | a list of strings as JSON strings, element by element |
| ApkBloat.Revs | binary_size/diagnose_apk_bloat.py:333 | the revisions of the archives, in order |
| ApkBloat.Dirs | binary_size/diagnose_apk_bloat.py:334 | the directories of the archives, in order |
| ApkBloat.StrsInjective | binary_size/diagnose_apk_bloat.py:331-345 | equal JSON lists come from equal string lists |
| ApkBloat.GenerateMetadata | binary_size/diagnose_apk_bloat.py:331-345 | the metadata has exactly its eight keys |
| ApkBloat.GeneratedFields | binary_size/diagnose_apk_bloat.py:331-345 | each metadata field holds the corresponding build setting |
| ApkBloat.GeneratedMatches | binary_size/diagnose_apk_bloat.py:352-367 | stored metadata matches exactly when every field but `gn_args` is equal, and `gn_args` too unless `is_cloud` |
| ApkBloat.MetadataExists | binary_size/diagnose_apk_bloat.py:352-367 | no `path` is a `KeyError`; no stored file is `False`; otherwise the verdict is the comparison of the two dictionaries, and a missing key is a `KeyError` |
| ApkBloat.MetadataVerdict | binary_size/diagnose_apk_bloat.py:331-367 | two generated metadata match exactly when archives, target, OS, cloud flag, subrepo and path agree, and the GN args too for a local build |
| ApkBloat.GnArgsRecordInjective | binary_size/diagnose_apk_bloat.py:340-343 | the `gn_args` records agree exactly when both of their settings agree |
| ApkBloat.GenerateRevList | binary_size/diagnose_apk_bloat.py:435-464 | the list fails unless the ancestor check passes with distinct revisions; with `--all` it is every revision (a list of 15 or more needs confirmation), otherwise the first and last |
| ApkBloat.FailureRunSinceSuccess | binary_size/diagnose_apk_bloat.py:649-667 | the counter equals the failed builds since the last success |
| ApkBloat.FailureRun | binary_size/diagnose_apk_bloat.py:649-667 | the counter never exceeds the number of failed builds |
| ApkBloat.ThreeFailuresInARow | binary_size/diagnose_apk_bloat.py:649-667 | three failed builds in a row end the run |
| ApkBloat.FirstDeathIsThirdFailure | binary_size/diagnose_apk_bloat.py:649-667 | the run ends at a failed build, with exactly three failures in a row |
| ApkBloat.DiffPairs | binary_size/diagnose_apk_bloat.py:669-670 | the diffs taken are between archives `k` and `k+1`, for every archive but the first |
| ApkBloat.BuildLoop | binary_size/diagnose_apk_bloat.py:649-670 | the loop ends at the first step where the failure count exceeds 2, or runs to the end, and diffs every consecutive pair it reached |
| ApkBloat.IndexOf | binary_size/diagnose_apk_bloat.py:418 | the first occurrence of a character |
| ApkBloat.CandidateIsSuffix | binary_size/diagnose_apk_bloat.py:413-418 | every tool prefix tried is a suffix of the configured one that still holds a `/` |
| ApkBloat.FirstRebasedChoice | binary_size/diagnose_apk_bloat.py:413-419 | the result is the first candidate whose rebased `readelf` exists, or empty when there is none |
| ApkBloat.ToolPrefixChoice | binary_size/diagnose_apk_bloat.py:407-419 | the same for the candidates of a configured prefix |
| ApkBloat.BuildVars | binary_size/diagnose_apk_bloat.py:409-411 | one entry at most per line, and every key is free of `=` |
| ApkBloat.VarKey | binary_size/diagnose_apk_bloat.py:409-411 | the key is the right-stripped line up to its first `=`, and holds no `=` |
| ApkBloat.BuildVarsStep | binary_size/diagnose_apk_bloat.py:409-411 | a line with a `=` sets its key to its value; any other key, or a line without `=`, changes nothing |
| ApkBloat.BuildVarsKeys | binary_size/diagnose_apk_bloat.py:409-411 | a key is set exactly when some line with a `=` has it as its key |
| ApkBloat.BuildVarsLastWins | binary_size/diagnose_apk_bloat.py:409-411 | a key holds the value of the last line that sets it |
| ApkBloat.FindToolPrefix | binary_size/diagnose_apk_bloat.py:407-419 | no `build_vars.txt` gives `''`; a missing `android_tool_prefix` is a `KeyError`; otherwise the loop returns the first rebased candidate whose `readelf` exists |
| Coverage.GetPlatform | code_coverage/coverage.py:103-111 | `win`, `linux` or `mac`, and an assertion failure exactly for any other platform |
| Coverage.ParseArgsGnFile | code_coverage/coverage.py:432-455 | a missing `args.gn` fails the assertion; otherwise the loop builds the map of the lines' assignments |
| Coverage.CommentIgnored | code_coverage/coverage.py:444-445 | text from the first `#` on never changes what a line assigns |
| Coverage.ArgsLine | code_coverage/coverage.py:445-448 | a line assigns exactly when the text before its comment holds exactly one `=` |
| Coverage.ArgsLineRoundTrip | code_coverage/coverage.py:444-453 | `key=value` without padding, `=` or `#` reads back as that assignment, stripped |
| Coverage.ArgsStep | code_coverage/coverage.py:443-453 | a line assigning a key sets it; any other line leaves it alone |
| Coverage.ArgsLastWins | code_coverage/coverage.py:443-453 | a key holds the value of its last assignment |
| Coverage.ArgsAssigned | code_coverage/coverage.py:443-453 | a key is set exactly when some line assigns it |
| Coverage.ArgsSource | code_coverage/coverage.py:443-453 | a set key's value comes from a line after which no line assigns it |
| Coverage.GomaConfiguredByLastAssignment | code_coverage/coverage.py:255-262 | goma is configured exactly when the last assignment of `use_goma` is `true` |
| Coverage.ValidateClangCoverage | code_coverage/coverage.py:422-429 | validation passes exactly when `use_clang_coverage` is `true` |
| Coverage.GetRevisionFromStampFile | code_coverage/coverage.py:120-146 | no stamp gives `(0, 0)`; otherwise the loop returns the revisions of the first line for the platform, a `ValueError` on a malformed line, or fails the assertion |
| Coverage.PackageVersionRoundTrip | code_coverage/coverage.py:143-166 | `'%d-%d'` of two revisions reads back as those revisions |
| Coverage.StampFields | code_coverage/coverage.py:134-183 | a written stamp line splits on `,` into the version and the platform |
| Coverage.VersionFree | code_coverage/coverage.py:166-183 | a package version never contains the `,` that separates it from the platform |
| Coverage.StampLine | code_coverage/coverage.py:133-143 | a line without `,` is read as a version for every platform; only a line with `,` can be skipped |
| Coverage.StampRoundTrip | code_coverage/coverage.py:129-183 | a stamp written for a platform reads back as the written revisions on that platform and fails the assertion on any other |
| Coverage.StampRevision | code_coverage/coverage.py:140-144 | a stamp never yields a negative revision |
| Coverage.ParseIntNoMinus | code_coverage/coverage.py:143-144 | text without `-` never parses as a negative number |
| Coverage.ToolsDecision | code_coverage/coverage.py:159-186 | the tools are up to date exactly when present with the clang revisions; otherwise the package named after those revisions is fetched for Mac or Linux (anything else fails) and the stamp of those revisions written |
| Coverage.ToolsCheck | code_coverage/coverage.py:159-186 | a successful check read both stamps; the tools are up to date exactly when present and the two stamps agree |
| Coverage.DownloadThenUpToDate | code_coverage/coverage.py:148-186 | after a download writes its stamp, the next check finds the tools up to date |
| Coverage.BuildTargetsCommand | code_coverage/coverage.py:242-274 | `ninja -C <build dir>`, then `-j<n>` when a count is given or 100 when goma is configured, then the targets; `args.gn` is read only when no count is given |
| Coverage.CoverageShowCommand | code_coverage/coverage.py:189-216 | the first binary positional, each other as `-object=` in order, the filters last; no binary is an `IndexError` |
| Coverage.Word | code_coverage/coverage.py:387 | the longest whitespace-free prefix |
| Coverage.GetBinaryPath | code_coverage/coverage.py:378-387 | the first whitespace-separated token, after leading whitespace only, ending at whitespace; an all-whitespace command is an `IndexError` |
| Coverage.AllValues | code_coverage/coverage.py:566 | a list comprehension of results succeeds exactly when every element does |
| Coverage.BinaryPaths | code_coverage/coverage.py:547-566 | as many targets as commands are required; then one binary per command, in order |
| Coverage.ExecuteCommand | code_coverage/coverage.py:318-335 | gtest targets get ` --test-launcher-jobs=1`; for a relative target the profile and the output paths start with the output directory and end in `<target>.%p.profraw` and `<target>_output.txt`; an absolute target drops the output directory |
| Coverage.AfterColon | code_coverage/coverage.py:406 | a line has a part after `:` exactly when it holds a `:` |
| Coverage.GtestTargetNames | code_coverage/coverage.py:390-408 | the gtest names are exactly the parts after `:` of the non-empty lines, and reading fails exactly when such a line has no `:` |
| Coverage.GtestLineName | code_coverage/coverage.py:406 | a line `//dir:name` names `name` |
| Presubmit.CheckNoMoreUsageOfDeprecatedCode | telemetry/PRESUBMIT.py:79-108 | the loop counts added and removed calls outside `PRESUBMIT.py` and returns one error exactly when more are added |
| Presubmit.CheckTelemetryBinaryDependencies | telemetry/PRESUBMIT.py:47-76 | the loop runs the validators only on `binary_dependencies.json` and stops at the first failure |
| Presubmit.RunValidators | telemetry/PRESUBMIT.py:57-76 | the loop over affected files computes the validation runs and errors |
| Presubmit.CommonChecks | telemetry/PRESUBMIT.py:6-17 | lint results, then the `GetChromiumSrcDir()` check with crbug 511332, then the read-only notice |
| Presubmit.IsAddedLine | telemetry/PRESUBMIT.py:84-87 | an added line starts with `+` |
| Presubmit.IsRemovedLine | telemetry/PRESUBMIT.py:84-87 | a removed line starts with `-` and is never an added line |
| PresubmitProperties.AddedLineExamples | telemetry/PRESUBMIT.py:84-87 | `+x` and `+++x` are added, `+++ b/file` and `x+` are not; `-x` is removed, `--- a/file` and the empty line are not |
| PresubmitProperties.LineCountedOnce | telemetry/PRESUBMIT.py:98-102 | each line counts at most once, and exactly when it holds the code and is added or removed |
| PresubmitProperties.DiffCountBound | telemetry/PRESUBMIT.py:98-102 | a diff counts at most one call per line |
| PresubmitProperties.CallsAppend | telemetry/PRESUBMIT.py:94-102 | counts over several files add up |
| PresubmitProperties.PresubmitNeverCounted | telemetry/PRESUBMIT.py:95-97 | changing `PRESUBMIT.py`'s own diff never changes the counts |
| PresubmitProperties.MovedCallCounts | telemetry/PRESUBMIT.py:94-102 | a file moving a use (one removed and one added line with the code) adds one to each count |
| PresubmitProperties.MovedCallKeepsVerdict | telemetry/PRESUBMIT.py:94-108 | moving a use never changes whether the change is reported, and a move alone is not reported |
| Presubmit.OtherFiles | telemetry/PRESUBMIT.py:23-28 | the files considered are the affected ones other than `PRESUBMIT.py` |
| Presubmit.TemporarilyReadOnly | telemetry/PRESUBMIT.py:20-37 | at most one notice, given exactly when a file other than `PRESUBMIT.py` changed |
| Presubmit.ValidateFrom | telemetry/PRESUBMIT.py:57-76 | validation yields at most one error, and one exactly when the dependencies file is among the files left and a validator fails |
| PresubmitProperties.ValidationOnlyOnDependencies | telemetry/PRESUBMIT.py:57-59 | without the dependencies file nothing runs |
| PresubmitProperties.ValidationReportsFirstFailure | telemetry/PRESUBMIT.py:60-75 | the format failure is reported if any, else the validation failure |
| GnScope.Mark | gn/scope_unittest.cc:152-163 | marking a variable used keeps every key and value |
| GnScope.Scope.Root | gn/scope_unittest.cc:26-40 | a root scope holds nothing and has no containing scope |
| GnScope.Scope.Nested | gn/scope_unittest.cc:86-102 | a nested scope holds nothing, inside its parent, const or mutable |
| GnScope.Scope.ConstAncestor | gn/scope_unittest.cc:104-114 | the first const ancestor, if any, is a valid scope of the chain |
| GnScope.Scope.LookUpThroughConstAncestor | gn/scope_unittest.cc:104-149 | looking up a name finds the mutable chain's innermost value, else the const ancestor's lookup |
| GnScope.Scope.LookUp | gn/scope_unittest.cc:117-149 | a name held by the scope itself reads its own value; nothing is found exactly when no scope of the chain holds the name |
| GnScope.Scope.SetValue | gn/scope_unittest.cc:117-145 | setting a value replaces it and keeps its used mark |
| GnScope.Scope.GetMutableValue | gn/scope_unittest.cc:148-168 | finds a value only in the mutable chain, never in const ancestors, and marks it used only when asked |
| GnScope.Scope.GetValue | gn/scope_unittest.cc:148 | finds a value anywhere in the chain, marking it used only when asked |
| GnScope.Scope.CheckForUnusedVars | gn/scope_unittest.cc:152-163 | passes exactly when every value of the scope is marked used |
| GnScope.Scope.NonRecursiveMergeTo | gn/scope_unittest.cc:26-78 | without clobber, merging fails exactly when a destination value differs; success adds every source value; the destination keeps its other values |
| GnScope.Scope.MakeClosure | gn/scope_unittest.cc:81-115 | the closure is a fresh scope inside the first const ancestor, holding the mutable chain flattened with inner values shadowing outer ones, and looks up exactly as the original |
| GnScope.Scope.ClosureLooksUpSame | gn/scope_unittest.cc:81-115 | a scope holding the flattened mutable chain inside the first const ancestor looks up every name exactly as the original |
| GnScope.Scope.Flattened | gn/scope_unittest.cc:81-115 | the flattened chain holds every value of the innermost scope unchanged |
| GnScopeScenarios.ScopeWith | gn/scope_unittest.cc:36-46 | a scope holding only `v` |
| GnScopeScenarios.CollisionScenario | gn/scope_unittest.cc:41-50 | a colliding value without clobber fails the merge |
| GnScopeScenarios.ClobberScenario | gn/scope_unittest.cc:52-66 | a clobber merge succeeds and the destination holds the source value |
| GnScopeScenarios.SameValueScenario | gn/scope_unittest.cc:68-78 | an equal colliding value merges without error |
| GnScopeScenarios.RootClosureScenario | gn/scope_unittest.cc:104-106 | the root's closure has no containing scope and reads `on_root` |
| GnScopeScenarios.NestedClosureScenario | gn/scope_unittest.cc:109-114 | the nested closure sits inside the root and reads `on_root`, `on_one` shadowed to `on_two`, and `on_two2` |
| GnScopeScenarios.ThreeScopes | gn/scope_unittest.cc:117-145 | a const root under two mutable scopes, each holding its own value |
| GnScopeScenarios.ConstAncestorScenario | gn/scope_unittest.cc:148-149 | a const ancestor's value is readable but not mutable |
| GnScopeScenarios.UsedMarkScenario | gn/scope_unittest.cc:152-168 | unused-variable checking fails until the value is fetched as used |

## Left out

- `task_manager.py` and GN's `scope.cc` are not part of this model. Both are rebuilt from their unit tests' expectations.
- Recipes are abstract outcomes (returns, raises, keyboard interrupt, out of memory), not their side effects. File existence is a set of present paths. Regex matching is an abstract `Matcher`.
- The task manager's execution log format, argparse's `@file` expansion, and the GraphViz output (`task_manager_unittest.py:297-319`) are left out.
- `diagnose_apk_bloat.py`: subprocess, git, gclient and gsutil calls, zip extraction, file copying, `raw_input`, JSON loading and the module-global restore callback are left out. The user's answer to the commit-count prompt is a parameter of `GenerateRevList`.
- ApkBloat.Title: `title()` is modelled for ASCII letters only. Non-ASCII letters are treated as non-letters.
- ApkBloat.ResourceSizesDiff.ProduceDiff: the nested dictionary loops are taken as one sequence of with-patch entries in iteration order. `_RunResourceSizes` and `DetailedResults` are left out.
- ApkBloat.MetadataExists: the order of the dictionary's keys is left open. The loop takes them in any order, and the verdict does not depend on it.
- ApkBloat.ResourceSizesDiff: chartjson measures are modelled as integers. Python's values may be floats, whose differences and `{:,}` formatting are not modelled.
- ApkBloat.BuildHelper: an unset `max_jobs` or `max_load_average` is the empty string. `_BuildHelper.Run` and the archive and diff managers are left out.
- `coverage.py`: the threaded target execution, the profraw file listing, the `llvm-profdata merge` call, all subprocess calls, path normalisation in `_VerifyTargetExecutablesAreInBuildDirectory`, argparse, and the tool download over urllib2 are left out. The download decision is modelled, but the download itself is not.
- Coverage.GtestTargetNames: the module-global cache of the gtest target set is not modelled. The set is computed from the `gn refs` lines each time.
- `PRESUBMIT.py`: the `input_api`/`output_api` objects, pylint and the external validator processes are left out. Affected files are a sequence of (path, diff lines), and validator runs are given results.
- GnScope.Scope.GetMutableValue: returns a copy of the value, not GN's writable `Value*`. Writes through that pointer into the scope are not modelled.
- GN: a `Value` is a boolean, an integer, a string or a list. The none and scope value types, parse nodes and error locations are not modelled.
