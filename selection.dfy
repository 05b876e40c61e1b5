/**
 * Choosing the final tasks and the tasks to freeze from the command line.
 * With `-e` regexes, the final tasks are, regex by regex, the tasks of the
 * default scenario whose name the regex matches. With `-f` regexes, every task
 * of the final tasks' complete scenario whose name some regex matches is frozen
 * when its output exists; when it does not, the task and every task depending
 * on it are impossible and dropped from the final tasks.
 */
module Selection {
  import opened Wrappers
  import opened TaskGraph
  import opened Sets
  import opened Scenario
  import opened ScenarioProperties
  import opened Dependents

  /** `matches(regex, name)` stands for `re.search(regex, name)` finding a match. */
  type Matcher = (string, string) -> bool

  /** The options of the task manager's command line that choose and run tasks. */
  datatype CommandLine = CommandLine(runRegexes: seq<string>, frozenRegexes: seq<string>, keepGoing: bool, dryRun: bool)

  /** The final tasks to list, and the tasks to freeze in the order they were found. */
  datatype Selection = Selection(finals: seq<TaskId>, frozen: seq<TaskId>)

  /** A successful scenario names tasks of the arena. */
  lemma ScenarioIds(g: Graph, files: set<string>, frozen: set<TaskId>, goals: seq<TaskId>)
    requires WellFormed(g) && ValidIds(g, goals) && GenerateScenario(g, files, frozen, goals).Success?
    ensures ValidIds(g, GenerateScenario(g, files, frozen, goals).value)
  {
    ScenarioSound(g, files, frozen, goals);
  }

  /** The tasks of `tasks` whose name `regex` matches, in order. */
  function Matching(g: Graph, tasks: seq<TaskId>, regex: string, matches: Matcher): (r: seq<TaskId>)
    requires ValidIds(g, tasks)
    ensures ValidIds(g, r)
  {
    if tasks == [] then []
    else
      var t := tasks[|tasks| - 1];
      assert t in tasks;
      PrefixIn(tasks, |tasks| - 1);
      Matching(g, tasks[..|tasks| - 1], regex, matches) + (if matches(regex, g[t].name) then [t] else [])
  }

  /** For each regex in turn, the tasks of `universe` it matches. */
  function RunSelection(g: Graph, universe: seq<TaskId>, regexes: seq<string>, matches: Matcher): (r: seq<TaskId>)
    requires ValidIds(g, universe)
    ensures ValidIds(g, r)
  {
    if regexes == [] then []
    else RunSelection(g, universe, regexes[..|regexes| - 1], matches) + Matching(g, universe, regexes[|regexes| - 1], matches)
  }

  /** Some regex matches the task's name. */
  predicate Named(g: Graph, regexes: seq<string>, matches: Matcher, t: TaskId)
    requires t < |g|
  {
    exists r :: r in regexes && matches(r, g[t].name)
  }

  /** The named tasks of `tasks` whose output exists, in order. */
  function FrozenList(g: Graph, files: set<string>, tasks: seq<TaskId>, regexes: seq<string>, matches: Matcher): seq<TaskId>
    requires ValidIds(g, tasks)
  {
    if tasks == [] then []
    else
      var t := tasks[|tasks| - 1];
      assert t in tasks;
      PrefixIn(tasks, |tasks| - 1);
      FrozenList(g, files, tasks[..|tasks| - 1], regexes, matches)
        + (if Named(g, regexes, matches, t) && g[t].path in files then [t] else [])
  }

  /** The named tasks of `tasks` whose output is missing, with the tasks of `scenario` that depend on them. */
  function Impossible(g: Graph, files: set<string>, scenario: seq<TaskId>, tasks: seq<TaskId>, regexes: seq<string>, matches: Matcher): set<TaskId>
    requires ValidIds(g, tasks)
  {
    if tasks == [] then {}
    else
      var t := tasks[|tasks| - 1];
      assert t in tasks;
      PrefixIn(tasks, |tasks| - 1);
      Impossible(g, files, scenario, tasks[..|tasks| - 1], regexes, matches)
        + (if Named(g, regexes, matches, t) && g[t].path !in files then {t} + DependentSet(g, scenario, t) else {})
  }

  /** The tasks of `ts` outside `S`, in order. */
  function Without(ts: seq<TaskId>, S: set<TaskId>): (r: seq<TaskId>)
    ensures forall t :: t in r <==> t in ts && t !in S
  {
    if ts == [] then []
    else (if ts[0] in S then [] else [ts[0]]) + Without(ts[1..], S)
  }

  /** One task is kept exactly when it is outside `S`. */
  lemma WithoutOne(t: TaskId, S: set<TaskId>)
    ensures Without([t], S) == if t in S then [] else [t]
  {
    assert [t][1..] == [];
  }

  /** Removing distributes over concatenation, so the kept tasks keep their order and their repetitions. */
  lemma {:induction false} WithoutAppend(a: seq<TaskId>, b: seq<TaskId>, S: set<TaskId>)
    ensures Without(a + b, S) == Without(a, S) + Without(b, S)
    decreases |a|
  {
    if a == [] {
      assert a + b == b;
    } else {
      assert (a + b)[0] == a[0] && (a + b)[1..] == a[1..] + b;
      WithoutAppend(a[1..], b, S);
    }
  }

  /** The final tasks: the defaults, or with `-e` regexes the default scenario's tasks they match. */
  function RunFinals(g: Graph, files: set<string>, defaults: seq<TaskId>, args: CommandLine, matches: Matcher): (r: Result<seq<TaskId>, TaskError>)
    requires WellFormed(g) && ValidIds(g, defaults)
    ensures r.Success? ==> ValidIds(g, r.value)
  {
    if args.runRegexes == [] then Success(defaults)
    else
      var universe := GenerateScenario(g, files, {}, defaults);
      if universe.Failure? then Failure(universe.error)
      else
        ScenarioIds(g, files, {}, defaults);
        Success(RunSelection(g, universe.value, args.runRegexes, matches))
  }

  /**
   * With `-f` regexes: the final tasks without the impossible ones, and the
   * tasks to freeze, both taken from the final tasks' complete scenario.
   */
  function FreezeFinals(g: Graph, files: set<string>, finals: seq<TaskId>, regexes: seq<string>, matches: Matcher): Result<Selection, TaskError>
    requires WellFormed(g) && ValidIds(g, finals)
  {
    if regexes == [] then Success(Selection(finals, []))
    else
      var complete := GenerateScenario(g, files, {}, finals);
      if complete.Failure? then Failure(complete.error)
      else
        ScenarioIds(g, files, {}, finals);
        Success(Selection(
          Without(finals, Impossible(g, files, complete.value, complete.value, regexes, matches)),
          FrozenList(g, files, complete.value, regexes, matches)))
  }

  /** `_SelectTasksFromCommandLineRegexes`: the final tasks and the tasks to freeze. */
  function SelectTasks(g: Graph, files: set<string>, defaults: seq<TaskId>, args: CommandLine, matches: Matcher): Result<Selection, TaskError>
    requires WellFormed(g) && ValidIds(g, defaults)
  {
    var finals := RunFinals(g, files, defaults, args, matches);
    if finals.Failure? then Failure(finals.error)
    else FreezeFinals(g, files, finals.value, args.frozenRegexes, matches)
  }

  /** `_SelectTasksFromCommandLineRegexes`. */
  method SelectTasksFromCommandLineRegexes(g: Graph, files: set<string>, defaults: seq<TaskId>, args: CommandLine, matches: Matcher)
    returns (r: Result<Selection, TaskError>)
    requires WellFormed(g) && ValidIds(g, defaults)
    ensures r == SelectTasks(g, files, defaults, args, matches)
  {
    var finals := SelectFinals(g, files, defaults, args, matches);
    if finals.Failure? {
      return Failure(finals.error);
    }
    r := SelectFrozen(g, files, finals.value, args.frozenRegexes, matches);
  }

  /** The first half: the final tasks the `-e` regexes choose. */
  method SelectFinals(g: Graph, files: set<string>, defaults: seq<TaskId>, args: CommandLine, matches: Matcher)
    returns (r: Result<seq<TaskId>, TaskError>)
    requires WellFormed(g) && ValidIds(g, defaults)
    ensures r == RunFinals(g, files, defaults, args, matches)
  {
    if args.runRegexes == [] {
      return Success(defaults);
    }
    var universe := GenerateScenario(g, files, {}, defaults);
    if universe.Failure? {
      return Failure(universe.error);
    }
    ScenarioIds(g, files, {}, defaults);
    var u := universe.value;
    var regexes := args.runRegexes;
    var finals := [];
    for i := 0 to |regexes|
      invariant finals == RunSelection(g, u, regexes[..i], matches)
    {
      for j := 0 to |u|
        invariant ValidIds(g, u[..j])
        invariant finals == RunSelection(g, u, regexes[..i], matches) + Matching(g, u[..j], regexes[i], matches)
      {
        MatchingStep(g, u, j, regexes[i], matches);
        if matches(regexes[i], g[u[j]].name) {
          finals := finals + [u[j]];
        }
      }
      assert u[..|u|] == u;
      assert regexes[..i + 1][..i] == regexes[..i];
    }
    assert regexes[..|regexes|] == regexes;
    return Success(finals);
  }

  /** One more task of the universe extends the tasks a regex matches. */
  lemma MatchingStep(g: Graph, u: seq<TaskId>, j: nat, regex: string, matches: Matcher)
    requires ValidIds(g, u) && j < |u|
    ensures u[j] < |g| && ValidIds(g, u[..j]) && ValidIds(g, u[..j + 1])
    ensures Matching(g, u[..j + 1], regex, matches)
      == Matching(g, u[..j], regex, matches) + (if matches(regex, g[u[j]].name) then [u[j]] else [])
  {
    assert u[j] in u;
    PrefixIn(u, j);
    PrefixIn(u, j + 1);
    assert u[..j + 1][..j] == u[..j];
  }

  /** Whether some regex of `regexes` matches `name`, trying them in order until one does. */
  method AnyMatches(regexes: seq<string>, name: string, matches: Matcher) returns (found: bool)
    ensures found <==> exists r :: r in regexes && matches(r, name)
  {
    var k := 0;
    while k < |regexes| && !matches(regexes[k], name)
      invariant k <= |regexes|
      invariant forall j :: 0 <= j < k ==> !matches(regexes[j], name)
    {
      k := k + 1;
    }
    found := k < |regexes|;
    if found {
      assert regexes[k] in regexes;
    }
  }

  /** Extending the tasks looked at by `c[i]` extends the frozen list and the impossible set by what `c[i]` contributes. */
  lemma FreezeStep(g: Graph, files: set<string>, c: seq<TaskId>, i: nat, regexes: seq<string>, matches: Matcher)
    requires ValidIds(g, c) && i < |c|
    ensures c[i] < |g| && ValidIds(g, c[..i]) && ValidIds(g, c[..i + 1])
    ensures FrozenList(g, files, c[..i + 1], regexes, matches) == FrozenList(g, files, c[..i], regexes, matches)
      + (if Named(g, regexes, matches, c[i]) && g[c[i]].path in files then [c[i]] else [])
    ensures Impossible(g, files, c, c[..i + 1], regexes, matches) == Impossible(g, files, c, c[..i], regexes, matches)
      + (if Named(g, regexes, matches, c[i]) && g[c[i]].path !in files then {c[i]} + DependentSet(g, c, c[i]) else {})
  {
    assert c[i] in c;
    PrefixIn(c, i);
    PrefixIn(c, i + 1);
    assert c[..i + 1][..i] == c[..i];
  }

  /** The second half: the tasks the `-f` regexes freeze, and the final tasks left possible. */
  method SelectFrozen(g: Graph, files: set<string>, finals: seq<TaskId>, regexes: seq<string>, matches: Matcher)
    returns (r: Result<Selection, TaskError>)
    requires WellFormed(g) && ValidIds(g, finals)
    ensures r == FreezeFinals(g, files, finals, regexes, matches)
  {
    if regexes == [] {
      return Success(Selection(finals, []));
    }
    var complete := GenerateScenario(g, files, {}, finals);
    if complete.Failure? {
      return Failure(complete.error);
    }
    ScenarioIds(g, files, {}, finals);
    var c := complete.value;
    var dependents := GenerateDependentSetPerTask(g, c);
    var frozen: seq<TaskId> := [];
    var impossible: set<TaskId> := {};
    for i := 0 to |c|
      invariant ValidIds(g, c[..i])
      invariant frozen == FrozenList(g, files, c[..i], regexes, matches)
      invariant impossible == Impossible(g, files, c, c[..i], regexes, matches)
    {
      var t := c[i];
      FreezeStep(g, files, c, i, regexes, matches);
      var named := AnyMatches(regexes, g[t].name, matches);
      if named {
        if g[t].path in files {
          frozen := frozen + [t];
        } else {
          impossible := impossible + {t} + dependents[t];
        }
      }
    }
    assert c[..|c|] == c;
    return Success(Selection(Without(finals, impossible), frozen));
  }
}

/** What the selection functions choose, task by task. */
module SelectionProperties {
  import opened Wrappers
  import opened TaskGraph
  import opened Sets
  import opened Scenario
  import opened ScenarioProperties
  import opened Dependents
  import opened Selection

  /** A non-empty sequence is its prefix followed by its last element. */
  lemma SplitLast(tasks: seq<TaskId>)
    requires tasks != []
    ensures tasks == tasks[..|tasks| - 1] + [tasks[|tasks| - 1]]
  {
  }

  /** `regex` keeps exactly the tasks whose name it matches. */
  lemma {:induction false} MatchingMembers(g: Graph, tasks: seq<TaskId>, regex: string, matches: Matcher, t: TaskId)
    requires ValidIds(g, tasks)
    ensures t in Matching(g, tasks, regex, matches) <==> t in tasks && matches(regex, g[t].name)
    decreases |tasks|
  {
    if tasks != [] {
      SplitLast(tasks);
      PrefixIn(tasks, |tasks| - 1);
      MatchingMembers(g, tasks[..|tasks| - 1], regex, matches, t);
    }
  }

  /** With `-e` regexes, the final tasks are the default scenario's tasks that some regex matches. */
  lemma {:induction false} RunSelectionMembers(g: Graph, universe: seq<TaskId>, regexes: seq<string>, matches: Matcher, t: TaskId)
    requires ValidIds(g, universe)
    ensures t in RunSelection(g, universe, regexes, matches) <==> t in universe && Named(g, regexes, matches, t)
    decreases |regexes|
  {
    if regexes != [] {
      var last := regexes[|regexes| - 1];
      assert regexes == regexes[..|regexes| - 1] + [last];
      RunSelectionMembers(g, universe, regexes[..|regexes| - 1], matches, t);
      MatchingMembers(g, universe, last, matches, t);
      if t in universe && Named(g, regexes, matches, t) {
        var r :| r in regexes && matches(r, g[t].name);
        if r != last {
          assert r in regexes[..|regexes| - 1];
        }
      }
    }
  }

  /** The tasks to freeze are the named tasks whose output exists. */
  lemma {:induction false} FrozenListMembers(g: Graph, files: set<string>, tasks: seq<TaskId>, regexes: seq<string>, matches: Matcher, t: TaskId)
    requires ValidIds(g, tasks)
    ensures t in FrozenList(g, files, tasks, regexes, matches) <==>
      t in tasks && Named(g, regexes, matches, t) && g[t].path in files
    decreases |tasks|
  {
    if tasks != [] {
      SplitLast(tasks);
      PrefixIn(tasks, |tasks| - 1);
      FrozenListMembers(g, files, tasks[..|tasks| - 1], regexes, matches, t);
    }
  }

  /** The impossible tasks are the named tasks whose output is missing, and every task depending on one. */
  lemma {:induction false} ImpossibleMembers(g: Graph, files: set<string>, scenario: seq<TaskId>, tasks: seq<TaskId>, regexes: seq<string>, matches: Matcher, t: TaskId)
    requires ValidIds(g, tasks)
    ensures t in Impossible(g, files, scenario, tasks, regexes, matches) <==>
      exists x :: x in tasks && Named(g, regexes, matches, x) && g[x].path !in files && (t == x || t in DependentSet(g, scenario, x))
    decreases |tasks|
  {
    if tasks != [] {
      SplitLast(tasks);
      PrefixIn(tasks, |tasks| - 1);
      ImpossibleMembers(g, files, scenario, tasks[..|tasks| - 1], regexes, matches, t);
    }
  }

  /** A successful selection names tasks of the arena, and every task it freezes has its output. */
  lemma SelectionIds(g: Graph, files: set<string>, defaults: seq<TaskId>, args: CommandLine, matches: Matcher)
    requires WellFormed(g) && ValidIds(g, defaults) && SelectTasks(g, files, defaults, args, matches).Success?
    ensures ValidIds(g, SelectTasks(g, files, defaults, args, matches).value.finals)
    ensures forall t :: t in SelectTasks(g, files, defaults, args, matches).value.frozen ==> t < |g| && g[t].path in files
  {
    var finals := RunFinals(g, files, defaults, args, matches).value;
    if args.frozenRegexes != [] {
      var complete := GenerateScenario(g, files, {}, finals).value;
      ScenarioIds(g, files, {}, finals);
      forall t | t in FrozenList(g, files, complete, args.frozenRegexes, matches)
        ensures t < |g| && g[t].path in files
      {
        FrozenListMembers(g, files, complete, args.frozenRegexes, matches, t);
      }
    }
  }
}
