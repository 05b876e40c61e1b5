/**
 * `ExecuteWithCommandLine`: chooses the tasks from the command line, lists
 * the scenario, runs it task by task and keeps the resume file up to date.
 * A task whose recipe raises an ordinary exception fails: the run stops, or
 * with `-k` goes on without the tasks that depend on it. A keyboard interrupt
 * or an out-of-memory error stops the run and propagates.
 */
module Driver {
  import opened Wrappers
  import opened TaskGraph
  import opened Sets
  import opened Scenario
  import opened ScenarioProperties
  import opened Dependents
  import opened DependentsProperties
  import opened Resume
  import opened ResumeProperties
  import opened Selection
  import opened SelectionProperties
  import opened ResumeFile

  /** How `ExecuteWithCommandLine` ends: an exit code, or an exception propagating to the caller. */
  datatype Outcome = ExitCode(code: nat) | Raised(exception: Exception) | RaisedTaskError(error: TaskError)

  /** How the execution loop ends: over the whole scenario, or cut short by an exception it does not handle. */
  datatype LoopEnd = Finished | Interrupted(exception: Exception)

  /** `ts` lists tasks of `scenario` in the scenario's order. */
  predicate InScenarioOrder(scenario: seq<TaskId>, ts: seq<TaskId>)
  {
    && (forall x :: x in ts ==> x in scenario)
    && (forall a, b :: 0 <= a < b < |ts| ==> IndexOf(scenario, ts[a]) < IndexOf(scenario, ts[b]))
  }

  /** A failed task, or a scenario task that depends on one: the run does not execute it. */
  predicate Blocked(g: Graph, scenario: seq<TaskId>, failed: seq<TaskId>, x: TaskId)
  {
    exists f :: f in failed && (x == f || x in DependentSet(g, scenario, f))
  }

  /** The tasks of `ts` that were not done in `done`, in order: those whose recipe runs when executed. */
  function RecipeRan(done: seq<bool>, ts: seq<TaskId>): (r: seq<TaskId>)
    ensures forall x :: x in r ==> x in ts
  {
    if ts == [] then []
    else
      var t := ts[|ts| - 1];
      PrefixIn(ts, |ts| - 1);
      RecipeRan(done, ts[..|ts| - 1]) + (if t < |done| && !done[t] then [t] else [])
  }

  /** Every task of `ts` is listed in the scenario before position `i`. */
  predicate Before(scenario: seq<TaskId>, ts: seq<TaskId>, i: nat)
  {
    forall x :: x in ts ==> x in scenario && IndexOf(scenario, x) < i
  }

  /**
   * The executed tasks split into those that succeeded (already done, or the
   * recipe returned) and those that failed (the recipe ran and raised).
   */
  ghost predicate Partition(g: Graph, done0: seq<bool>, recipes: TaskId -> RecipeOutcome,
                            attempted: seq<TaskId>, succeeded: seq<TaskId>, failed: seq<TaskId>)
  {
    && (forall x :: x in attempted <==> x in succeeded || x in failed)
    && (forall x :: x in succeeded ==> x !in failed)
    && ValidIds(g, succeeded)
    && (forall x :: x in succeeded ==> x < |done0| && (done0[x] || recipes(x) == Returns))
    && (forall x :: x in failed ==> x < |done0| && !done0[x] && recipes(x).Raises?)
  }

  /** Every scenario dependency of an executed task succeeded. */
  ghost predicate DependenciesFirst(g: Graph, sc: seq<TaskId>, attempted: seq<TaskId>, succeeded: seq<TaskId>)
  {
    forall x, d :: x in attempted && x < |g| && d in g[x].dependencies && d in sc ==> d in succeeded
  }

  /**
   * What a run has done: the tasks executed, in scenario order, split into
   * succeeded and failed; the recipes that ran; every scenario dependency of
   * an executed task succeeded before it.
   */
  ghost predicate Attempts(g: Graph, sc: seq<TaskId>, done0: seq<bool>, recipes: TaskId -> RecipeOutcome,
                           attempted: seq<TaskId>, succeeded: seq<TaskId>, failed: seq<TaskId>, history: seq<TaskId>)
  {
    && InScenarioOrder(sc, attempted)
    && history == RecipeRan(done0, attempted)
    && Partition(g, done0, recipes, attempted, succeeded, failed)
    && DependenciesFirst(g, sc, attempted, succeeded)
  }

  /**
   * The skipped tasks: they include the failed tasks, every scenario task
   * depending on a skipped one, and only blocked tasks; every task before
   * position `i` was executed or skipped.
   */
  ghost predicate Skips(g: Graph, sc: seq<TaskId>, i: nat, skip: set<TaskId>, attempted: seq<TaskId>, failed: seq<TaskId>)
  {
    && i <= |sc|
    && (forall x :: x in failed ==> x in skip)
    && (forall x :: x in skip ==> Blocked(g, sc, failed, x))
    && (forall y, d :: y in sc && y < |g| && d in g[y].dependencies && d in skip ==> y in skip)
    && (forall j :: 0 <= j < i ==> sc[j] in attempted || sc[j] in skip)
  }

  /** A task that is not skipped has every scenario dependency succeeded. */
  lemma DependenciesSucceeded(g: Graph, sc: seq<TaskId>, done0: seq<bool>, recipes: TaskId -> RecipeOutcome, i: nat, skip: set<TaskId>,
                              attempted: seq<TaskId>, succeeded: seq<TaskId>, failed: seq<TaskId>)
    requires Topological(g, sc) && i < |sc| && sc[i] !in skip
    requires Partition(g, done0, recipes, attempted, succeeded, failed) && Skips(g, sc, i, skip, attempted, failed)
    ensures forall d :: d in g[sc[i]].dependencies && d in sc ==> d in succeeded
  {
    var t := sc[i];
    forall d | d in g[t].dependencies && d in sc
      ensures d in succeeded
    {
      assert d in sc[..i];
      var j :| 0 <= j < i && sc[..i][j] == d;
      assert sc[j] == d;
    }
  }

  lemma OrderStep(sc: seq<TaskId>, i: nat, attempted: seq<TaskId>)
    requires Distinct(sc) && i < |sc| && Before(sc, attempted, i) && InScenarioOrder(sc, attempted)
    ensures Before(sc, attempted + [sc[i]], i + 1) && InScenarioOrder(sc, attempted + [sc[i]])
  {
    assert sc[i] in sc;
    IndexOfDistinct(sc, i);
  }

  lemma RecipeRanAppend(done: seq<bool>, ts: seq<TaskId>, t: TaskId)
    ensures RecipeRan(done, ts + [t]) == RecipeRan(done, ts) + (if t < |done| && !done[t] then [t] else [])
  {
    assert (ts + [t])[..|ts|] == ts;
  }

  lemma PartitionStep(g: Graph, done0: seq<bool>, recipes: TaskId -> RecipeOutcome,
                      attempted: seq<TaskId>, succeeded: seq<TaskId>, failed: seq<TaskId>, t: TaskId, ok: bool)
    requires Partition(g, done0, recipes, attempted, succeeded, failed) && t !in attempted && t < |g| && t < |done0|
    requires ok ==> done0[t] || recipes(t) == Returns
    requires !ok ==> !done0[t] && recipes(t).Raises?
    ensures Partition(g, done0, recipes, attempted + [t],
                      if ok then succeeded + [t] else succeeded, if ok then failed else failed + [t])
  {
  }

  lemma DependenciesFirstStep(g: Graph, sc: seq<TaskId>, attempted: seq<TaskId>, succeeded: seq<TaskId>, t: TaskId, succeeded': seq<TaskId>)
    requires DependenciesFirst(g, sc, attempted, succeeded) && (forall x :: x in succeeded ==> x in succeeded')
    requires t < |g| && forall d :: d in g[t].dependencies && d in sc ==> d in succeeded
    ensures DependenciesFirst(g, sc, attempted + [t], succeeded')
  {
  }

  /** The done flags after the tasks of `succeeded` succeeded, one by one. */
  function DoneAfter(done0: seq<bool>, succeeded: seq<TaskId>): (r: seq<bool>)
    ensures |r| == |done0|
  {
    if succeeded == [] then done0
    else
      var before := DoneAfter(done0, succeeded[..|succeeded| - 1]);
      var t := succeeded[|succeeded| - 1];
      if t < |before| then before[t := true] else before
  }

  /** The recipe counters after the recipes of `history` ran, one by one. */
  function RunsAfter(runs0: seq<nat>, history: seq<TaskId>): (r: seq<nat>)
    ensures |r| == |runs0|
  {
    if history == [] then runs0
    else
      var before := RunsAfter(runs0, history[..|history| - 1]);
      var t := history[|history| - 1];
      if t < |before| then before[t := before[t] + 1] else before
  }

  /** A task is done afterwards when it was done before or succeeded. */
  lemma {:induction false} DoneAfterMeaning(done0: seq<bool>, succeeded: seq<TaskId>, x: nat)
    requires x < |done0|
    ensures DoneAfter(done0, succeeded)[x] == (done0[x] || x in succeeded)
  {
    if succeeded != [] {
      var prefix := succeeded[..|succeeded| - 1];
      assert succeeded == prefix + [succeeded[|succeeded| - 1]];
      DoneAfterMeaning(done0, prefix, x);
    }
  }

  /** A recipe counter grows by the number of times the task appears in `history`. */
  lemma {:induction false} RunsAfterMeaning(runs0: seq<nat>, history: seq<TaskId>, x: nat)
    requires x < |runs0|
    ensures RunsAfter(runs0, history)[x] == runs0[x] + multiset(history)[x]
  {
    if history != [] {
      var prefix := history[..|history| - 1];
      assert history == prefix + [history[|history| - 1]];
      RunsAfterMeaning(runs0, prefix, x);
    }
  }

  lemma DoneAfterStep(done0: seq<bool>, succeeded: seq<TaskId>, t: TaskId)
    ensures DoneAfter(done0, succeeded + [t]) == if t < |done0| then DoneAfter(done0, succeeded)[t := true] else DoneAfter(done0, succeeded)
  {
    assert (succeeded + [t])[..|succeeded|] == succeeded;
  }

  lemma RunsAfterStep(runs0: seq<nat>, history: seq<TaskId>, t: TaskId)
    ensures RunsAfter(runs0, history + [t]) ==
      if t < |runs0| then RunsAfter(runs0, history)[t := RunsAfter(runs0, history)[t] + 1] else RunsAfter(runs0, history)
  {
    var h, before := history + [t], RunsAfter(runs0, history);
    assert h[..|h| - 1] == history;
    assert RunsAfter(runs0, h) == if t < |before| then before[t := before[t] + 1] else before;
  }

  lemma ResumeStep(g: Graph, start: string, succeeded: seq<TaskId>, t: TaskId)
    requires ValidIds(g, succeeded) && t < |g|
    ensures start + IncrementalResume(g, succeeded) + Entry(g, t) == start + IncrementalResume(g, succeeded + [t])
  {
    var done, entry := IncrementalResume(g, succeeded), Entry(g, t);
    IncrementalResumeAppend(g, succeeded, t);
    AppendAssociates(start, done, entry);
  }

  /** Skipping a skipped task keeps `Skips`. */
  lemma SkipStep(g: Graph, sc: seq<TaskId>, i: nat, skip: set<TaskId>, attempted: seq<TaskId>, failed: seq<TaskId>)
    requires i < |sc| && sc[i] in skip && Skips(g, sc, i, skip, attempted, failed)
    ensures Skips(g, sc, i + 1, skip, attempted, failed)
  {
  }

  /** Executing `t` successfully keeps `Skips`. */
  lemma SucceedStep(g: Graph, sc: seq<TaskId>, i: nat, skip: set<TaskId>, attempted: seq<TaskId>, failed: seq<TaskId>)
    requires i < |sc| && Skips(g, sc, i, skip, attempted, failed)
    ensures Skips(g, sc, i + 1, skip, attempted + [sc[i]], failed)
  {
  }

  /** Failing `t` at position `i` keeps `Skips` once `t` and its dependents are skipped. */
  lemma FailStep(g: Graph, sc: seq<TaskId>, i: nat, skip: set<TaskId>, attempted: seq<TaskId>, failed: seq<TaskId>)
    requires i < |sc| && Skips(g, sc, i, skip, attempted, failed)
    ensures Skips(g, sc, i + 1, skip + {sc[i]} + DependentSet(g, sc, sc[i]), attempted + [sc[i]], failed + [sc[i]])
  {
    var t := sc[i];
    var skip' := skip + {t} + DependentSet(g, sc, t);
    forall x | x in skip'
      ensures Blocked(g, sc, failed + [t], x)
    {
      BlockedGrows(g, sc, failed, t, x);
    }
    forall y, d | y in sc && y < |g| && d in g[y].dependencies && d in skip'
      ensures y in skip'
    {
      if d == t || d in DependentSet(g, sc, t) {
        DependentSetClosed(g, sc, t, y, d);
      }
    }
  }

  /** Failing `t` blocks `t` and its dependents on top of what was blocked. */
  lemma BlockedGrows(g: Graph, scenario: seq<TaskId>, failed: seq<TaskId>, t: TaskId, x: TaskId)
    ensures Blocked(g, scenario, failed + [t], x) <==>
      Blocked(g, scenario, failed, x) || x == t || x in DependentSet(g, scenario, t)
  {
    if Blocked(g, scenario, failed + [t], x) {
      var f :| f in failed + [t] && (x == f || x in DependentSet(g, scenario, f));
      if f != t {
        assert f in failed;
      }
    }
    if Blocked(g, scenario, failed, x) {
      var f :| f in failed && (x == f || x in DependentSet(g, scenario, f));
      assert f in failed + [t];
    }
    if x == t || x in DependentSet(g, scenario, t) {
      assert t in failed + [t];
    }
  }

  /** The bookkeeping of the execution loop after the first `i` tasks of the scenario, while no exception stopped it. */
  ghost predicate Progress(g: Graph, sc: seq<TaskId>, keepGoing: bool, done0: seq<bool>, recipes: TaskId -> RecipeOutcome,
                           i: nat, skip: set<TaskId>, attempted: seq<TaskId>, succeeded: seq<TaskId>, failed: seq<TaskId>, history: seq<TaskId>)
  {
    && Before(sc, attempted, i)
    && Attempts(g, sc, done0, recipes, attempted, succeeded, failed, history)
    && Skips(g, sc, i, skip, attempted, failed)
    && (forall x :: x in failed ==> recipes(x) == Raises(Ordinary))
    && (!keepGoing ==> failed == [])
  }

  /** The loop's setting: a listed scenario of dynamic tasks, with a done flag per task. */
  ghost predicate Setting(g: Graph, sc: seq<TaskId>, done0: seq<bool>)
  {
    ValidIds(g, sc) && Distinct(sc) && Topological(g, sc) && |done0| == |g| && forall t :: t in sc ==> !g[t].isStatic
  }

  /** The task at position `i` has not been executed yet. */
  lemma NotYetAttempted(g: Graph, sc: seq<TaskId>, keepGoing: bool, done0: seq<bool>, recipes: TaskId -> RecipeOutcome,
                        i: nat, skip: set<TaskId>, attempted: seq<TaskId>, succeeded: seq<TaskId>, failed: seq<TaskId>, history: seq<TaskId>)
    requires Setting(g, sc, done0) && i < |sc|
    requires Progress(g, sc, keepGoing, done0, recipes, i, skip, attempted, succeeded, failed, history)
    ensures sc[i] !in attempted && sc[i] !in succeeded && sc[i] < |g| && !g[sc[i]].isStatic
  {
    assert sc[i] in sc;
    IndexOfDistinct(sc, i);
  }

  lemma SkipProgress(g: Graph, sc: seq<TaskId>, keepGoing: bool, done0: seq<bool>, recipes: TaskId -> RecipeOutcome,
                     i: nat, skip: set<TaskId>, attempted: seq<TaskId>, succeeded: seq<TaskId>, failed: seq<TaskId>, history: seq<TaskId>)
    requires i < |sc| && sc[i] in skip
    requires Progress(g, sc, keepGoing, done0, recipes, i, skip, attempted, succeeded, failed, history)
    ensures Progress(g, sc, keepGoing, done0, recipes, i + 1, skip, attempted, succeeded, failed, history)
  {
    SkipStep(g, sc, i, skip, attempted, failed);
  }

  /** Executing the task at position `i` successfully; its recipe runs when it was not done. */
  lemma SucceedProgress(g: Graph, sc: seq<TaskId>, keepGoing: bool, done0: seq<bool>, recipes: TaskId -> RecipeOutcome,
                        i: nat, skip: set<TaskId>, attempted: seq<TaskId>, succeeded: seq<TaskId>, failed: seq<TaskId>, history: seq<TaskId>)
    requires Setting(g, sc, done0) && i < |sc| && sc[i] !in skip
    requires done0[sc[i]] || recipes(sc[i]) == Returns
    requires Progress(g, sc, keepGoing, done0, recipes, i, skip, attempted, succeeded, failed, history)
    ensures Progress(g, sc, keepGoing, done0, recipes, i + 1, skip, attempted + [sc[i]], succeeded + [sc[i]], failed,
                     history + (if done0[sc[i]] then [] else [sc[i]]))
  {
    var t := sc[i];
    NotYetAttempted(g, sc, keepGoing, done0, recipes, i, skip, attempted, succeeded, failed, history);
    DependenciesSucceeded(g, sc, done0, recipes, i, skip, attempted, succeeded, failed);
    OrderStep(sc, i, attempted);
    RecipeRanAppend(done0, attempted, t);
    PartitionStep(g, done0, recipes, attempted, succeeded, failed, t, true);
    DependenciesFirstStep(g, sc, attempted, succeeded, t, succeeded + [t]);
    SucceedStep(g, sc, i, skip, attempted, failed);
  }

  /** Executing the task at position `i`, whose recipe raises. */
  lemma FailProgress(g: Graph, sc: seq<TaskId>, keepGoing: bool, done0: seq<bool>, recipes: TaskId -> RecipeOutcome,
                     i: nat, skip: set<TaskId>, attempted: seq<TaskId>, succeeded: seq<TaskId>, failed: seq<TaskId>, history: seq<TaskId>)
    requires Setting(g, sc, done0) && i < |sc| && sc[i] !in skip
    requires !done0[sc[i]] && recipes(sc[i]).Raises?
    requires Progress(g, sc, keepGoing, done0, recipes, i, skip, attempted, succeeded, failed, history)
    ensures Attempts(g, sc, done0, recipes, attempted + [sc[i]], succeeded, failed + [sc[i]], history + [sc[i]])
    ensures !keepGoing ==> failed == []
    ensures recipes(sc[i]) == Raises(Ordinary) && keepGoing ==>
      Progress(g, sc, keepGoing, done0, recipes, i + 1, skip + {sc[i]} + DependentSet(g, sc, sc[i]),
               attempted + [sc[i]], succeeded, failed + [sc[i]], history + [sc[i]])
  {
    var t := sc[i];
    NotYetAttempted(g, sc, keepGoing, done0, recipes, i, skip, attempted, succeeded, failed, history);
    DependenciesSucceeded(g, sc, done0, recipes, i, skip, attempted, succeeded, failed);
    OrderStep(sc, i, attempted);
    RecipeRanAppend(done0, attempted, t);
    PartitionStep(g, done0, recipes, attempted, succeeded, failed, t, false);
    DependenciesFirstStep(g, sc, attempted, succeeded, t, succeeded);
    FailStep(g, sc, i, skip, attempted, failed);
  }

  /** At the end of the scenario every task was executed or is blocked by a failure. */
  lemma Covered(g: Graph, sc: seq<TaskId>, keepGoing: bool, done0: seq<bool>, recipes: TaskId -> RecipeOutcome,
                skip: set<TaskId>, attempted: seq<TaskId>, succeeded: seq<TaskId>, failed: seq<TaskId>, history: seq<TaskId>)
    requires Progress(g, sc, keepGoing, done0, recipes, |sc|, skip, attempted, succeeded, failed, history)
    ensures forall t :: t in sc ==> t in attempted || Blocked(g, sc, failed, t)
  {
    forall t | t in sc
      ensures t in attempted || Blocked(g, sc, failed, t)
    {
      var j :| 0 <= j < |sc| && sc[j] == t;
    }
  }

  /** What holds when the loop over the scenario stops, however it stops. */
  ghost predicate Ended(g: Graph, sc: seq<TaskId>, keepGoing: bool, done0: seq<bool>, recipes: TaskId -> RecipeOutcome, end: LoopEnd,
                        attempted: seq<TaskId>, succeeded: seq<TaskId>, failed: seq<TaskId>, history: seq<TaskId>)
  {
    && Attempts(g, sc, done0, recipes, attempted, succeeded, failed, history)
    && (end == Finished ==> forall x :: x in failed ==> recipes(x) == Raises(Ordinary))
    && (end.Interrupted? ==>
          && end.exception != Ordinary && attempted != [] && attempted[|attempted| - 1] in failed
          && recipes(attempted[|attempted| - 1]) == Raises(end.exception))
    && (!keepGoing ==> |failed| <= 1 && (failed != [] ==> |attempted| > 0 && failed[0] == attempted[|attempted| - 1]))
    && (end == Finished && (keepGoing || failed == []) ==> forall t :: t in sc ==> t in attempted || Blocked(g, sc, failed, t))
    && (attempted != [] ==> CoveredBefore(g, sc, attempted, failed, IndexOf(sc, attempted[|attempted| - 1])))
  }

  /** Every scenario task before position `i` was executed or is blocked by a failure. */
  ghost predicate CoveredBefore(g: Graph, sc: seq<TaskId>, attempted: seq<TaskId>, failed: seq<TaskId>, i: nat)
  {
    forall j :: 0 <= j < i && j < |sc| ==> sc[j] in attempted || Blocked(g, sc, failed, sc[j])
  }

  /** The loop ran to the end of the scenario. */
  lemma EndOfScenario(g: Graph, sc: seq<TaskId>, keepGoing: bool, done0: seq<bool>, recipes: TaskId -> RecipeOutcome,
                      skip: set<TaskId>, attempted: seq<TaskId>, succeeded: seq<TaskId>, failed: seq<TaskId>, history: seq<TaskId>)
    requires Progress(g, sc, keepGoing, done0, recipes, |sc|, skip, attempted, succeeded, failed, history)
    ensures Ended(g, sc, keepGoing, done0, recipes, Finished, attempted, succeeded, failed, history)
  {
    Covered(g, sc, keepGoing, done0, recipes, skip, attempted, succeeded, failed, history);
  }

  /** The recipe of the task at position `i` raised: an interruption, or an ordinary failure without `-k`. */
  lemma EndAtFailure(g: Graph, sc: seq<TaskId>, keepGoing: bool, done0: seq<bool>, recipes: TaskId -> RecipeOutcome,
                     i: nat, skip: set<TaskId>, attempted: seq<TaskId>, succeeded: seq<TaskId>, failed: seq<TaskId>, history: seq<TaskId>,
                     e: Exception)
    requires Setting(g, sc, done0) && i < |sc| && sc[i] !in skip
    requires !done0[sc[i]] && recipes(sc[i]) == Raises(e) && (e == Ordinary ==> !keepGoing)
    requires Progress(g, sc, keepGoing, done0, recipes, i, skip, attempted, succeeded, failed, history)
    ensures Ended(g, sc, keepGoing, done0, recipes, if e == Ordinary then Finished else Interrupted(e),
                  attempted + [sc[i]], succeeded, failed + [sc[i]], history + [sc[i]])
  {
    FailProgress(g, sc, keepGoing, done0, recipes, i, skip, attempted, succeeded, failed, history);
    var t := sc[i];
    IndexOfDistinct(sc, i);
    forall j | 0 <= j < i
      ensures sc[j] in attempted + [t] || Blocked(g, sc, failed + [t], sc[j])
    {
      if sc[j] !in attempted {
        BlockedGrows(g, sc, failed, t, sc[j]);
      }
    }
  }

  /** The done flags after one more task succeeds. */
  lemma DoneStep(done0: seq<bool>, succeeded: seq<TaskId>, t: TaskId, before: seq<bool>, after: seq<bool>)
    requires before == DoneAfter(done0, succeeded) && t < |done0| && after == before[t := true]
    ensures after == DoneAfter(done0, succeeded + [t])
  {
    DoneAfterStep(done0, succeeded, t);
  }

  /** Succeeding again leaves the done flags as they are. */
  lemma DoneStepAgain(done0: seq<bool>, succeeded: seq<TaskId>, t: TaskId)
    requires t < |done0| && DoneAfter(done0, succeeded)[t]
    ensures DoneAfter(done0, succeeded + [t]) == DoneAfter(done0, succeeded)
  {
    DoneAfterStep(done0, succeeded, t);
    UpdateSame(DoneAfter(done0, succeeded), t, true);
  }

  lemma UpdateSame<T>(s: seq<T>, k: nat, v: T)
    requires k < |s| && s[k] == v
    ensures s[k := v] == s
  {
  }

  /**
   * Executes task `t` of the loop, whose done flags and recipe counters are
   * those after `succeeded` succeeded and the recipes of `history` ran.
   */
  method ExecuteRecorded(arena: TaskArena, t: TaskId, recipe: RecipeOutcome,
                         ghost done0: seq<bool>, ghost runs0: seq<nat>, ghost succeeded: seq<TaskId>, ghost history: seq<TaskId>)
    returns (r: Execution)
    requires arena.Valid() && t < |arena.tasks| && !arena.tasks[t].isStatic && t !in succeeded
    requires |done0| == |runs0| == |arena.tasks|
    requires arena.isDone == DoneAfter(done0, succeeded) && arena.recipeRuns == RunsAfter(runs0, history)
    modifies arena
    ensures arena.Valid() && arena.tasks == old(arena.tasks)
    ensures r == if done0[t] then Executed(false) else if recipe.Returns? then Executed(true) else RecipeRaised(recipe.exception)
    ensures arena.isDone == if r.Executed? then DoneAfter(done0, succeeded + [t]) else DoneAfter(done0, succeeded)
    ensures arena.recipeRuns == if done0[t] then RunsAfter(runs0, history) else RunsAfter(runs0, history + [t])
  {
    DoneAfterMeaning(done0, succeeded, t);
    ghost var doneBefore := arena.isDone;
    r := arena.Execute(t, recipe);
    if done0[t] {
      DoneStepAgain(done0, succeeded, t);
    } else {
      RunsAfterStep(runs0, history, t);
      if recipe.Returns? {
        DoneStep(done0, succeeded, t, doneBefore, arena.isDone);
      } else {
        UpdateSame(doneBefore, t, false);
      }
    }
  }

  /** The bookkeeping of the execution loop: tasks to skip, tasks executed, and the resume file so far. */
  datatype Run = Run(skip: set<TaskId>, attempted: seq<TaskId>, succeeded: seq<TaskId>, failed: seq<TaskId>,
                     history: seq<TaskId>, resume: string)

  /**
   * One turn of the execution loop on task `sc[i]`, which is not skipped:
   * execute it and record the outcome; `stop` when an exception ends the
   * loop or a failure ends it without `-k`.
   */
  method AttemptTask(arena: TaskArena, sc: seq<TaskId>, keepGoing: bool, recipes: TaskId -> RecipeOutcome,
                     dependents: map<TaskId, set<TaskId>>, resumeStart: string, i: nat, run: Run,
                     ghost done0: seq<bool>, ghost runs0: seq<nat>)
    returns (next: Run, end: LoopEnd, stop: bool)
    requires arena.Valid() && Setting(arena.tasks, sc, done0) && |runs0| == |arena.tasks|
    requires i < |sc| && sc[i] !in run.skip && dependents == GenerateDependentSetPerTask(arena.tasks, sc)
    requires arena.isDone == DoneAfter(done0, run.succeeded) && arena.recipeRuns == RunsAfter(runs0, run.history)
    requires Progress(arena.tasks, sc, keepGoing, done0, recipes, i, run.skip, run.attempted, run.succeeded, run.failed, run.history)
    requires run.resume == resumeStart + IncrementalResume(arena.tasks, run.succeeded)
    modifies arena
    ensures arena.Valid() && arena.tasks == old(arena.tasks)
    ensures arena.isDone == DoneAfter(done0, next.succeeded) && arena.recipeRuns == RunsAfter(runs0, next.history)
    ensures stop ==> Ended(arena.tasks, sc, keepGoing, done0, recipes, end, next.attempted, next.succeeded, next.failed, next.history)
    ensures !stop ==> end == Finished
    ensures !stop ==>
      Progress(arena.tasks, sc, keepGoing, done0, recipes, i + 1, next.skip, next.attempted, next.succeeded, next.failed, next.history)
    ensures next.resume == resumeStart + IncrementalResume(arena.tasks, next.succeeded)
  {
    var g := arena.tasks;
    var t := sc[i];
    NotYetAttempted(g, sc, keepGoing, done0, recipes, i, run.skip, run.attempted, run.succeeded, run.failed, run.history);
    var r := ExecuteRecorded(arena, t, recipes(t), done0, runs0, run.succeeded, run.history);
    end, stop := Finished, false;
    match r
    case Executed(ran) =>
      SucceedProgress(g, sc, keepGoing, done0, recipes, i, run.skip, run.attempted, run.succeeded, run.failed, run.history);
      ResumeStep(g, resumeStart, run.succeeded, t);
      next := Run(run.skip, run.attempted + [t], run.succeeded + [t], run.failed,
                  if ran then run.history + [t] else run.history, run.resume + Entry(g, t));
    case RecipeRaised(e) =>
      FailProgress(g, sc, keepGoing, done0, recipes, i, run.skip, run.attempted, run.succeeded, run.failed, run.history);
      next := run.(history := run.history + [t], attempted := run.attempted + [t], failed := run.failed + [t]);
      if e != Ordinary {
        EndAtFailure(g, sc, keepGoing, done0, recipes, i, run.skip, run.attempted, run.succeeded, run.failed, run.history, e);
        end, stop := Interrupted(e), true;
        return;
      }
      next := next.(skip := next.skip + {t} + dependents[t]);
      if !keepGoing {
        EndAtFailure(g, sc, keepGoing, done0, recipes, i, run.skip, run.attempted, run.succeeded, run.failed, run.history, e);
        stop := true;
      }
    case NotExecutable(_) =>
      assert false;
  }

  /**
   * The execution loop of `ExecuteWithCommandLine` over a listed scenario.
   * `attempted` are the tasks executed, `succeeded` and `failed` split them,
   * `history` are those whose recipe ran, and `resume` is the resume file as
   * it grows from `resumeStart`.
   */
  method RunScenario(arena: TaskArena, sc: seq<TaskId>, keepGoing: bool, recipes: TaskId -> RecipeOutcome, resumeStart: string)
    returns (end: LoopEnd, attempted: seq<TaskId>, succeeded: seq<TaskId>, failed: seq<TaskId>, history: seq<TaskId>, resume: string)
    requires arena.Valid() && ValidIds(arena.tasks, sc) && Distinct(sc) && Topological(arena.tasks, sc)
    requires forall t :: t in sc ==> !arena.tasks[t].isStatic
    modifies arena
    ensures arena.Valid() && arena.tasks == old(arena.tasks)
    ensures arena.isDone == DoneAfter(old(arena.isDone), succeeded)
    ensures arena.recipeRuns == RunsAfter(old(arena.recipeRuns), history)
    ensures Ended(arena.tasks, sc, keepGoing, old(arena.isDone), recipes, end, attempted, succeeded, failed, history)
    ensures resume == resumeStart + IncrementalResume(arena.tasks, succeeded)
  {
    var g := arena.tasks;
    ghost var done0 := arena.isDone;
    ghost var runs0 := arena.recipeRuns;
    var dependents := GenerateDependentSetPerTask(g, sc);
    var run := Run({}, [], [], [], [], resumeStart);
    end := Finished;
    ghost var stopped := false;
    var i := 0;
    while i < |sc|
      invariant arena.Valid() && arena.tasks == g && i <= |sc|
      invariant arena.isDone == DoneAfter(done0, run.succeeded) && arena.recipeRuns == RunsAfter(runs0, run.history)
      invariant Progress(g, sc, keepGoing, done0, recipes, i, run.skip, run.attempted, run.succeeded, run.failed, run.history)
      invariant run.resume == resumeStart + IncrementalResume(g, run.succeeded)
      invariant end == Finished && !stopped
    {
      if sc[i] in run.skip {
        SkipProgress(g, sc, keepGoing, done0, recipes, i, run.skip, run.attempted, run.succeeded, run.failed, run.history);
      } else {
        var stop;
        run, end, stop := AttemptTask(arena, sc, keepGoing, recipes, dependents, resumeStart, i, run, done0, runs0);
        if stop {
          stopped := true;
          break;
        }
      }
      i := i + 1;
    }
    if !stopped {
      EndOfScenario(g, sc, keepGoing, done0, recipes, run.skip, run.attempted, run.succeeded, run.failed, run.history);
    }
    attempted, succeeded, failed, history, resume := run.attempted, run.succeeded, run.failed, run.history, run.resume;
  }

  /** The final tasks and the tasks to freeze chosen from the command line, and the scenario they list. */
  datatype Plan = Plan(selection: Selection, scenario: seq<TaskId>)

  /** What `ExecuteWithCommandLine` lists before running anything. */
  function PlanScenario(g: Graph, files: set<string>, defaults: seq<TaskId>, args: CommandLine, matches: Matcher): (r: Result<Plan, TaskError>)
    requires WellFormed(g) && ValidIds(g, defaults)
    ensures r.Success? ==> ValidIds(g, r.value.selection.finals) && ValidIds(g, r.value.selection.frozen)
  {
    var selection := SelectTasks(g, files, defaults, args, matches);
    if selection.Failure? then Failure(selection.error)
    else
      SelectionIds(g, files, defaults, args, matches);
      var scenario := GenerateScenario(g, files, Elems(selection.value.frozen), selection.value.finals);
      if scenario.Failure? then Failure(scenario.error)
      else Success(Plan(selection.value, scenario.value))
  }

  /** A plan lists a scenario of dynamic tasks, each after its scenario dependencies, freezing tasks whose output exists. */
  lemma PlanFacts(g: Graph, files: set<string>, defaults: seq<TaskId>, args: CommandLine, matches: Matcher, p: Plan)
    requires WellFormed(g) && ValidIds(g, defaults) && PlanScenario(g, files, defaults, args, matches) == Success(p)
    ensures ValidIds(g, p.selection.finals) && ValidIds(g, p.selection.frozen)
    ensures forall t :: t in p.selection.frozen ==> g[t].path in files
    ensures GenerateScenario(g, files, Elems(p.selection.frozen), p.selection.finals) == Success(p.scenario)
    ensures IsScenario(g, files, Elems(p.selection.frozen), p.selection.finals, p.scenario)
    ensures ValidIds(g, p.scenario) && Distinct(p.scenario) && Topological(g, p.scenario)
    ensures forall t :: t in p.scenario ==> !g[t].isStatic && t !in p.selection.frozen
  {
    SelectionIds(g, files, defaults, args, matches);
    ScenarioSound(g, files, Elems(p.selection.frozen), p.selection.finals);
    ScenarioTopological(g, files, Elems(p.selection.frozen), p.selection.finals, p.scenario);
    forall t | t in p.scenario
      ensures !g[t].isStatic && t !in p.selection.frozen
    {
      var k :| 0 <= k < |p.scenario| && p.scenario[k] == t;
    }
  }

  /** The tasks of a run that did not succeed: every scenario task depending on one of them did not succeed either. */
  lemma NotSucceededClosed(g: Graph, sc: seq<TaskId>, done0: seq<bool>, recipes: TaskId -> RecipeOutcome,
                           attempted: seq<TaskId>, succeeded: seq<TaskId>, failed: seq<TaskId>, history: seq<TaskId>)
    requires Attempts(g, sc, done0, recipes, attempted, succeeded, failed, history)
    ensures SkipClosed(g, sc, Elems(sc) - Elems(succeeded))
  {
    forall t, d | t in sc && t < |g| && d in g[t].dependencies && d in Elems(sc) - Elems(succeeded)
      ensures t in Elems(sc) - Elems(succeeded)
    {
      assert t in succeeded ==> t in attempted;
    }
  }

  /**
   * Round trip of a rewritten resume file: replaying the final tasks with the
   * tasks it freezes, once their outputs exist, lists exactly the scenario
   * tasks that did not succeed.
   */
  lemma ResumeSkipsCompletedWork(g: Graph, files: set<string>, frozen: set<TaskId>, finals: seq<TaskId>, sc: seq<TaskId>,
                                 done0: seq<bool>, recipes: TaskId -> RecipeOutcome,
                                 attempted: seq<TaskId>, succeeded: seq<TaskId>, failed: seq<TaskId>, history: seq<TaskId>)
    requires WellFormed(g) && ValidIds(g, finals) && GenerateScenario(g, files, frozen, finals) == Success(sc)
    requires Attempts(g, sc, done0, recipes, attempted, succeeded, failed, history)
    requires forall t :: t in ListResumingTasksToFreeze(g, sc, finals, Elems(sc) - Elems(succeeded)) && t < |g| ==> g[t].path in files
    ensures var replay := GenerateScenario(g, files, Elems(ListResumingTasksToFreeze(g, sc, finals, Elems(sc) - Elems(succeeded))), finals);
      replay.Success? && Elems(replay.value) == Elems(sc) - Elems(succeeded)
  {
    NotSucceededClosed(g, sc, done0, recipes, attempted, succeeded, failed, history);
    ResumeRoundTrip(g, files, frozen, finals, Elems(sc) - Elems(succeeded), sc);
  }

  /** The tasks a rewritten resume file freezes are tasks of the arena. */
  lemma ResumeListIds(g: Graph, sc: seq<TaskId>, finals: seq<TaskId>, skipped: set<TaskId>)
    requires WellFormed(g) && ValidIds(g, finals)
    ensures ValidIds(g, ListResumingTasksToFreeze(g, sc, finals, skipped))
  {
    ReachedFacts(g, sc, finals, skipped);
  }

  /**
   * `ExecuteWithCommandLine`: lists the scenario the command line asks for and,
   * unless it is empty or the run is dry, writes the execution log and runs it.
   * `history` are the tasks whose recipe ran, in order; `resumeFile` is the
   * resume file's final text when one is written.
   */
  method ExecuteWithCommandLine(arena: TaskArena, files: set<string>, defaults: seq<TaskId>, args: CommandLine,
                                matches: Matcher, recipes: TaskId -> RecipeOutcome)
    returns (outcome: Outcome, logWritten: bool, resumeFile: Option<string>,
             attempted: seq<TaskId>, succeeded: seq<TaskId>, failed: seq<TaskId>, history: seq<TaskId>)
    requires arena.Valid() && ValidIds(arena.tasks, defaults)
    modifies arena
    ensures arena.Valid() && arena.tasks == old(arena.tasks)
    ensures var plan := PlanScenario(old(arena.tasks), files, defaults, args, matches);
      plan.Failure? ==>
        outcome == RaisedTaskError(plan.error) && !logWritten && resumeFile == None && history == []
        && arena.isDone == old(arena.isDone) && arena.recipeRuns == old(arena.recipeRuns)
    ensures var plan := PlanScenario(old(arena.tasks), files, defaults, args, matches);
      plan.Success? && (plan.value.scenario == [] || args.dryRun) ==>
        outcome == ExitCode(if plan.value.scenario == [] then 1 else 0) && !logWritten && resumeFile == None && history == []
        && arena.isDone == old(arena.isDone) && arena.recipeRuns == old(arena.recipeRuns)
    ensures var plan := PlanScenario(old(arena.tasks), files, defaults, args, matches);
      plan.Success? && plan.value.scenario != [] && !args.dryRun ==>
        var g := old(arena.tasks);
        var sc := plan.value.scenario;
        var sel := plan.value.selection;
        && logWritten
        && arena.isDone == DoneAfter(old(arena.isDone), succeeded)
        && arena.recipeRuns == RunsAfter(old(arena.recipeRuns), history)
        && Reported(g, sc, sel, args.keepGoing, old(arena.isDone), recipes, outcome, resumeFile, attempted, succeeded, failed, history)
  {
    var g := arena.tasks;
    attempted, succeeded, failed, history := [], [], [], [];
    logWritten, resumeFile := false, None;
    var selection := SelectTasksFromCommandLineRegexes(g, files, defaults, args, matches);
    if selection.Failure? {
      return RaisedTaskError(selection.error), logWritten, resumeFile, attempted, succeeded, failed, history;
    }
    SelectionIds(g, files, defaults, args, matches);
    var listed := GenerateScenario(g, files, Elems(selection.value.frozen), selection.value.finals);
    if listed.Failure? {
      return RaisedTaskError(listed.error), logWritten, resumeFile, attempted, succeeded, failed, history;
    }
    var sc := listed.value;
    if sc == [] {
      return ExitCode(1), logWritten, resumeFile, attempted, succeeded, failed, history;
    }
    if args.dryRun {
      return ExitCode(0), logWritten, resumeFile, attempted, succeeded, failed, history;
    }
    var plan := Plan(selection.value, sc);
    PlanFacts(g, files, defaults, args, matches, plan);
    logWritten := true;
    outcome, resumeFile, attempted, succeeded, failed, history := RunPlan(arena, selection.value, sc, args.keepGoing, recipes);
  }

  /**
   * What a run of a listed scenario `sc` reports: every task attempted in
   * order, the exit code or exception, and the resume file written, which
   * freezes on the next run exactly what is still to do.
   */
  ghost predicate Reported(g: Graph, sc: seq<TaskId>, sel: Selection, keepGoing: bool, done0: seq<bool>, recipes: TaskId -> RecipeOutcome,
                           outcome: Outcome, resumeFile: Option<string>,
                           attempted: seq<TaskId>, succeeded: seq<TaskId>, failed: seq<TaskId>, history: seq<TaskId>)
    requires WellFormed(g) && ValidIds(g, sel.finals) && ValidIds(g, sel.frozen)
  {
    && Attempts(g, sc, done0, recipes, attempted, succeeded, failed, history)
    && (outcome == ExitCode(0) <==> failed == [])
    && (outcome == ExitCode(0) || outcome == ExitCode(1) || outcome == Raised(KeyboardInterrupt) || outcome == Raised(OutOfMemory))
    && (outcome.Raised? ==> attempted != [] && recipes(attempted[|attempted| - 1]) == Raises(outcome.exception))
    && (outcome == ExitCode(1) ==> forall x :: x in failed ==> recipes(x) == Raises(Ordinary))
    && (!keepGoing ==> |failed| <= 1 && (failed != [] ==> attempted != [] && failed[0] == attempted[|attempted| - 1]))
    && (outcome.Raised? ==> attempted != [] && attempted[|attempted| - 1] in failed)
    && (outcome.ExitCode? && (keepGoing || failed == []) ==>
          forall t :: t in sc ==> t in attempted || Blocked(g, sc, failed, t))
    && (attempted != [] ==> CoveredBefore(g, sc, attempted, failed, IndexOf(sc, attempted[|attempted| - 1])))
    && ValidIds(g, ListResumingTasksToFreeze(g, sc, sel.finals, Elems(sc) - Elems(succeeded)))
    && resumeFile == Some(
         if failed == [] || outcome == Raised(OutOfMemory)
         then IncrementalResume(g, sel.frozen) + IncrementalResume(g, succeeded)
         else RegeneratedResume(g, ListResumingTasksToFreeze(g, sc, sel.finals, Elems(sc) - Elems(succeeded))))
  }

  /** The run of `ExecuteWithCommandLine` once the execution log is written: the scenario's tasks in order, then the resume file. */
  method RunPlan(arena: TaskArena, sel: Selection, sc: seq<TaskId>, keepGoing: bool, recipes: TaskId -> RecipeOutcome)
    returns (outcome: Outcome, resumeFile: Option<string>,
             attempted: seq<TaskId>, succeeded: seq<TaskId>, failed: seq<TaskId>, history: seq<TaskId>)
    requires arena.Valid() && ValidIds(arena.tasks, sel.finals) && ValidIds(arena.tasks, sel.frozen)
    requires ValidIds(arena.tasks, sc) && Distinct(sc) && Topological(arena.tasks, sc)
    requires forall t :: t in sc ==> !arena.tasks[t].isStatic
    modifies arena
    ensures arena.Valid() && arena.tasks == old(arena.tasks)
    ensures arena.isDone == DoneAfter(old(arena.isDone), succeeded)
    ensures arena.recipeRuns == RunsAfter(old(arena.recipeRuns), history)
    ensures Reported(arena.tasks, sc, sel, keepGoing, old(arena.isDone), recipes, outcome, resumeFile, attempted, succeeded, failed, history)
  {
    var g := arena.tasks;
    var finals := sel.finals;
    var end, resume;
    end, attempted, succeeded, failed, history, resume :=
      RunScenario(arena, sc, keepGoing, recipes, IncrementalResume(g, sel.frozen));
    ResumeListIds(g, sc, finals, Elems(sc) - Elems(succeeded));
    match end
    case Interrupted(e) =>
      outcome := Raised(e);
      if e == OutOfMemory {
        resumeFile := Some(resume);
      } else {
        resumeFile := Some(RegeneratedResume(g, ListResumingTasksToFreeze(g, sc, finals, Elems(sc) - Elems(succeeded))));
      }
    case Finished =>
      if failed == [] {
        outcome := ExitCode(0);
        resumeFile := Some(resume);
      } else {
        outcome := ExitCode(1);
        resumeFile := Some(RegeneratedResume(g, ListResumingTasksToFreeze(g, sc, finals, Elems(sc) - Elems(succeeded))));
      }
  }
}
