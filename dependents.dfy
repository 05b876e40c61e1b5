/**
 * `GenerateDependentSetPerTask`: for each task of a scenario, the scenario
 * tasks that depend on it directly or through other scenario tasks.
 */
module Dependents {
  import opened TaskGraph
  import opened Sets

  /** `t` has a dependency in `S`. */
  predicate DependsOnSome(g: Graph, t: TaskId, S: set<TaskId>)
    requires t < |g|
  {
    exists d :: d in g[t].dependencies && d in S
  }

  /** The scenario tasks with a dependency in `S`. */
  function DirectDependents(g: Graph, scenario: seq<TaskId>, S: set<TaskId>): (r: set<TaskId>)
    ensures r <= Elems(scenario)
  {
    set t | t in scenario && t < |g| && DependsOnSome(g, t, S)
  }

  /** Adds dependents to `S` until no scenario task outside it depends on a task inside it. */
  function Close(g: Graph, scenario: seq<TaskId>, S: set<TaskId>): (r: set<TaskId>)
    requires S <= Elems(scenario)
    ensures S <= r <= Elems(scenario)
    decreases |Elems(scenario) - S|
  {
    var next := S + DirectDependents(g, scenario, S);
    if next == S then S
    else
      StrictSubsetCardinality(Elems(scenario) - next, Elems(scenario) - S);
      Close(g, scenario, next)
  }

  /** The scenario tasks that transitively depend on `t`: only scenario tasks, and every one that depends on `t` directly. */
  function DependentSet(g: Graph, scenario: seq<TaskId>, t: TaskId): (r: set<TaskId>)
    ensures DirectDependents(g, scenario, {t}) <= r <= Elems(scenario)
  {
    Close(g, scenario, DirectDependents(g, scenario, {t}))
  }

  /** `GenerateDependentSetPerTask(scenario)`: one entry per scenario task, holding scenario tasks only, among them its direct dependents. */
  function GenerateDependentSetPerTask(g: Graph, scenario: seq<TaskId>): (r: map<TaskId, set<TaskId>>)
    ensures r.Keys == Elems(scenario)
    ensures forall t :: t in r ==> DirectDependents(g, scenario, {t}) <= r[t] <= Elems(scenario)
  {
    map t | t in scenario :: DependentSet(g, scenario, t)
  }
}

/** What `DependentSet` computes: the least set of scenario tasks closed under "depends on". */
module DependentsProperties {
  import opened TaskGraph
  import opened Sets
  import opened Scenario
  import opened ScenarioProperties
  import opened Dependents

  /** No scenario task outside `C` depends on a task inside it. */
  predicate DependentClosed(g: Graph, scenario: seq<TaskId>, C: set<TaskId>)
  {
    DirectDependents(g, scenario, C) <= C
  }

  lemma DirectDependentsMonotone(g: Graph, scenario: seq<TaskId>, S: set<TaskId>, C: set<TaskId>)
    requires S <= C
    ensures DirectDependents(g, scenario, S) <= DirectDependents(g, scenario, C)
  {
  }

  /** The fixpoint is closed. */
  lemma {:induction false} CloseClosed(g: Graph, scenario: seq<TaskId>, S: set<TaskId>)
    requires S <= Elems(scenario)
    ensures DependentClosed(g, scenario, Close(g, scenario, S))
    decreases |Elems(scenario) - S|
  {
    var next := S + DirectDependents(g, scenario, S);
    if next != S {
      StrictSubsetCardinality(Elems(scenario) - next, Elems(scenario) - S);
      CloseClosed(g, scenario, next);
    }
  }

  /** The fixpoint is inside every closed set containing its start. */
  lemma {:induction false} CloseLeast(g: Graph, scenario: seq<TaskId>, S: set<TaskId>, C: set<TaskId>)
    requires S <= Elems(scenario) && S <= C && DependentClosed(g, scenario, C)
    ensures Close(g, scenario, S) <= C
    decreases |Elems(scenario) - S|
  {
    var next := S + DirectDependents(g, scenario, S);
    DirectDependentsMonotone(g, scenario, S, C);
    if next != S {
      StrictSubsetCardinality(Elems(scenario) - next, Elems(scenario) - S);
      CloseLeast(g, scenario, next, C);
    }
  }

  /**
   * A scenario task that depends on `t`, or on a task in `t`'s dependent set,
   * is in `t`'s dependent set.
   */
  lemma DependentSetClosed(g: Graph, scenario: seq<TaskId>, t: TaskId, y: TaskId, d: TaskId)
    requires y in scenario && y < |g| && d in g[y].dependencies
    requires d == t || d in DependentSet(g, scenario, t)
    ensures y in DependentSet(g, scenario, t)
  {
    var S := DirectDependents(g, scenario, {t});
    CloseClosed(g, scenario, S);
    if d == t {
      assert y in S;
    } else {
      assert y in DirectDependents(g, scenario, DependentSet(g, scenario, t));
    }
  }

  /** The dependent set is inside every scenario subset that is closed and holds `t`'s direct dependents. */
  lemma DependentSetLeast(g: Graph, scenario: seq<TaskId>, t: TaskId, C: set<TaskId>)
    requires DirectDependents(g, scenario, {t}) <= C && DependentClosed(g, scenario, C)
    ensures DependentSet(g, scenario, t) <= C
  {
    CloseLeast(g, scenario, DirectDependents(g, scenario, {t}), C);
  }

  /**
   * A dependent's dependents are dependents too, so marking a task and then,
   * recursively, its dependents marks exactly the task and its dependent set.
   */
  lemma DependentSetTransitive(g: Graph, scenario: seq<TaskId>, t: TaskId, x: TaskId)
    requires x in DependentSet(g, scenario, t)
    ensures DependentSet(g, scenario, x) <= DependentSet(g, scenario, t)
  {
    var D := DependentSet(g, scenario, t);
    CloseClosed(g, scenario, DirectDependents(g, scenario, {t}));
    DirectDependentsMonotone(g, scenario, {x}, D);
    DependentSetLeast(g, scenario, x, D);
  }

  /** Every listed task comes after the listed tasks it depends on. */
  predicate Topological(g: Graph, scenario: seq<TaskId>)
  {
    forall i :: 0 <= i < |scenario| ==>
      scenario[i] < |g| && forall d :: d in g[scenario[i]].dependencies && d in scenario ==> d in scenario[..i]
  }

  /** A scenario lists dependencies first. */
  lemma ScenarioTopological(g: Graph, files: set<string>, frozen: set<TaskId>, goals: seq<TaskId>, s: seq<TaskId>)
    requires WellFormed(g) && IsScenario(g, files, frozen, goals, s)
    ensures Topological(g, s)
  {
    forall i, d | 0 <= i < |s| && d in g[s[i]].dependencies && d in s
      ensures d in s[..i]
    {
      var k := IndexOf(s, d);
      assert Live(g, frozen, s[k]);
      assert Available(g, files, frozen, s[..i], d);
    }
  }

  /** In a topological scenario without repetitions, a task's dependents all come after it. */
  lemma DependentsComeAfter(g: Graph, scenario: seq<TaskId>, t: TaskId, x: TaskId)
    requires Topological(g, scenario) && t in scenario && x in DependentSet(g, scenario, t)
    ensures x in scenario && IndexOf(scenario, t) < IndexOf(scenario, x)
  {
    var C := Later(scenario, t);
    LaterClosed(g, scenario, t);
    DirectDependentsMonotone(g, scenario, {t}, C + {t});
    DirectDependentsMonotone(g, scenario, C, C + {t});
    DependentSetLeast(g, scenario, t, C);
  }

  /** The scenario tasks listed after `t`. */
  ghost function Later(scenario: seq<TaskId>, t: TaskId): set<TaskId>
  {
    set y | y in scenario && IndexOf(scenario, t) < IndexOf(scenario, y)
  }

  /** In a topological scenario, whatever depends on `t` or on a later task is itself later. */
  lemma LaterClosed(g: Graph, scenario: seq<TaskId>, t: TaskId)
    requires Topological(g, scenario) && t in scenario
    ensures DirectDependents(g, scenario, Later(scenario, t) + {t}) <= Later(scenario, t)
  {
    var C := Later(scenario, t);
    forall y | y in DirectDependents(g, scenario, C + {t})
      ensures y in C
    {
      var i := IndexOf(scenario, y);
      var d :| d in g[y].dependencies && d in C + {t};
      assert d in scenario[..i];
      IndexOfPrefix(scenario, d, i);
    }
  }

  /** The worked example: `c` depends on `a` and `b`, `d` on `a`. */
  function ExampleGraph(): Graph
  {
    [Task("a", "out/a", [], false), Task("b", "out/b", [], false),
     Task("c", "out/c", [0, 1], false), Task("d", "out/d", [0], false)]
  }

  lemma DependentSetExample()
    ensures DependentSet(ExampleGraph(), [0], 0) == {}
    ensures DependentSet(ExampleGraph(), [0, 1], 0) == {}
    ensures DependentSet(ExampleGraph(), [0, 1, 2], 0) == {2}
    ensures DependentSet(ExampleGraph(), [0, 1, 2, 3], 0) == {2, 3}
    ensures DependentSet(ExampleGraph(), [0, 3], 3) == {}
  {
    var g := ExampleGraph();
    ExampleCase(g, [0], 0, {});
    ExampleCase(g, [0, 1], 0, {});
    ExampleCase(g, [0, 1, 2], 0, {2});
    ExampleCase(g, [0, 1, 2, 3], 0, {2, 3});
    ExampleCase(g, [0, 3], 3, {});
  }

  /** `E` is the dependent set when it is closed and every member depends on `t` directly. */
  lemma ExampleCase(g: Graph, scenario: seq<TaskId>, t: TaskId, E: set<TaskId>)
    requires DirectDependents(g, scenario, {t}) == E && DependentClosed(g, scenario, E)
    ensures DependentSet(g, scenario, t) == E
  {
    DependentSetLeast(g, scenario, t, E);
  }
}
