/**
 * `GenerateScenario`: the depth-first listing of the tasks the goals need,
 * dependencies before dependents. Static tasks and frozen tasks (whose output
 * must already exist) are not listed and not descended into. Tasks are told
 * apart by output path: a path seen again while its own dependencies are being
 * listed is a cycle, and a second task with a listed task's path is a collision.
 */
module Scenario {
  import opened Wrappers
  import opened TaskGraph
  import opened Sets

  /** The state kept per output path: being expanded, or listed as a given task. */
  datatype Mark = InProgress | Done(task: TaskId)

  /** The walk so far: the mark of each path seen, and the tasks listed in order. */
  datatype Walk = Walk(marks: map<string, Mark>, order: seq<TaskId>)

  function Paths(g: Graph): set<string>
  {
    set t | 0 <= t < |g| :: g[t].path
  }

  /** The paths the walk has not marked yet: the walk's termination measure. */
  function Unmarked(g: Graph, w: Walk): nat
  {
    |Paths(g) - w.marks.Keys|
  }

  /** A task that is listed and descended into: dynamic and not frozen. */
  predicate Live(g: Graph, frozen: set<TaskId>, t: TaskId)
    requires t < |g|
  {
    !g[t].isStatic && t !in frozen
  }

  /**
   * `w'` extends `w`: no mark is lost, listed tasks keep their marks, the set of
   * paths being expanded is the same, and the listing only grows at its end.
   */
  ghost predicate Extends(w: Walk, w': Walk)
  {
    && w.marks.Keys <= w'.marks.Keys
    && (forall p :: p in w.marks && w.marks[p].Done? ==> w'.marks[p] == w.marks[p])
    && (forall p :: p in w'.marks && w'.marks[p] == InProgress ==> p in w.marks && w.marks[p] == InProgress)
    && (forall p :: p in w.marks && w.marks[p] == InProgress ==> w'.marks[p] == InProgress)
    && w.order <= w'.order
  }

  lemma UnmarkedShrinks(g: Graph, w: Walk, w': Walk)
    requires w.marks.Keys <= w'.marks.Keys
    ensures Unmarked(g, w') <= Unmarked(g, w)
  {
    assert Paths(g) - w'.marks.Keys <= Paths(g) - w.marks.Keys;
    SubsetCardinality(Paths(g) - w'.marks.Keys, Paths(g) - w.marks.Keys);
  }

  lemma ExpansionExtends(w: Walk, w2: Walk, p: string, t: TaskId)
    requires p !in w.marks && Extends(Walk(w.marks[p := InProgress], w.order), w2)
    ensures Extends(w, Walk(w2.marks[p := Done(t)], w2.order + [t]))
  {
  }

  lemma MarkingShrinks(g: Graph, w: Walk, t: TaskId)
    requires t < |g| && g[t].path !in w.marks
    ensures Unmarked(g, Walk(w.marks[g[t].path := InProgress], w.order)) < Unmarked(g, w)
  {
    var p := g[t].path;
    assert p in Paths(g);
    assert Paths(g) - w.marks.Keys == (Paths(g) - w.marks[p := InProgress].Keys) + {p};
  }

  /** The three ways `GenerateScenario` fails. */
  predicate ScenarioError(e: TaskError)
  {
    e.FrozenOutputMissing? || e.DependencyCycle? || e.PathCollision?
  }

  /** Every task of `s` is a task of the graph that is dynamic and not frozen. */
  predicate LiveListing(g: Graph, frozen: set<TaskId>, s: seq<TaskId>)
  {
    forall x :: x in s ==> x < |g| && Live(g, frozen, x)
  }

  /** Visiting one task. */
  function Visit(g: Graph, files: set<string>, frozen: set<TaskId>, t: TaskId, w: Walk): (r: Result<Walk, TaskError>)
    requires WellFormed(g) && t < |g|
    ensures r.Success? ==> w.marks.Keys <= r.value.marks.Keys
    ensures r.Failure? ==> ScenarioError(r.error)
    ensures r.Success? && LiveListing(g, frozen, w.order) ==> LiveListing(g, frozen, r.value.order)
    decreases Unmarked(g, w), 0
  {
    var task := g[t];
    if task.isStatic then Success(w)
    else if t in frozen then
      if task.path in files then Success(w) else Failure(FrozenOutputMissing(task.name))
    else if task.path in w.marks then
      match w.marks[task.path]
      case InProgress => Failure(DependencyCycle(task.name))
      case Done(other) => if other == t then Success(w) else Failure(PathCollision(task.name, task.path))
    else
      var w1 := Walk(w.marks[task.path := InProgress], w.order);
      MarkingShrinks(g, w, t);
      match VisitAll(g, files, frozen, task.dependencies, w1)
      case Failure(e) => Failure(e)
      case Success(w2) =>
        Success(Walk(w2.marks[task.path := Done(t)], w2.order + [t]))
  }

  /** Visiting a list of tasks in order, stopping at the first error. */
  function VisitAll(g: Graph, files: set<string>, frozen: set<TaskId>, ts: seq<TaskId>, w: Walk): (r: Result<Walk, TaskError>)
    requires WellFormed(g) && ValidIds(g, ts)
    ensures r.Success? ==> w.marks.Keys <= r.value.marks.Keys
    ensures r.Failure? ==> ScenarioError(r.error)
    ensures r.Success? && LiveListing(g, frozen, w.order) ==> LiveListing(g, frozen, r.value.order)
    decreases Unmarked(g, w), 1, |ts|
  {
    if ts == [] then Success(w)
    else
      assert ts[0] in ts && forall d :: d in ts[1..] ==> d in ts;
      match Visit(g, files, frozen, ts[0], w)
      case Failure(e) => Failure(e)
      case Success(w1) =>
        UnmarkedShrinks(g, w, w1);
        VisitAll(g, files, frozen, ts[1..], w1)
  }

  /** `GenerateScenario(final_tasks, frozen_tasks)`, given which output files exist. */
  function GenerateScenario(g: Graph, files: set<string>, frozen: set<TaskId>, goals: seq<TaskId>): (r: Result<seq<TaskId>, TaskError>)
    requires WellFormed(g) && ValidIds(g, goals)
    ensures r.Success? ==> LiveListing(g, frozen, r.value)
    ensures r.Failure? ==> ScenarioError(r.error)
  {
    match VisitAll(g, files, frozen, goals, Walk(map[], []))
    case Failure(e) => Failure(e)
    case Success(w) => Success(w.order)
  }

  /** A successful visit extends the walk. */
  lemma {:induction false} VisitExtends(g: Graph, files: set<string>, frozen: set<TaskId>, t: TaskId, w: Walk, w': Walk)
    requires WellFormed(g) && t < |g| && Visit(g, files, frozen, t, w) == Success(w')
    ensures Extends(w, w')
    decreases Unmarked(g, w), 0
  {
    var task := g[t];
    if task.isStatic || t in frozen || task.path in w.marks {
      assert w' == w;
    } else {
      var w1 := Walk(w.marks[task.path := InProgress], w.order);
      MarkingShrinks(g, w, t);
      var w2 := VisitAll(g, files, frozen, task.dependencies, w1).value;
      assert w' == Walk(w2.marks[task.path := Done(t)], w2.order + [t]);
      VisitAllExtends(g, files, frozen, task.dependencies, w1, w2);
      ExpansionExtends(w, w2, task.path, t);
    }
  }

  lemma {:induction false} VisitAllExtends(g: Graph, files: set<string>, frozen: set<TaskId>, ts: seq<TaskId>, w: Walk, w': Walk)
    requires WellFormed(g) && ValidIds(g, ts) && VisitAll(g, files, frozen, ts, w) == Success(w')
    ensures Extends(w, w')
    decreases Unmarked(g, w), 1, |ts|
  {
    if ts != [] {
      assert ts[0] in ts && forall d :: d in ts[1..] ==> d in ts;
      var w1 := Visit(g, files, frozen, ts[0], w).value;
      VisitExtends(g, files, frozen, ts[0], w, w1);
      UnmarkedShrinks(g, w, w1);
      VisitAllExtends(g, files, frozen, ts[1..], w1, w');
    }
  }
}
