/**
 * `ListResumingTasksToFreeze`: after a run that skipped some tasks of a
 * scenario, the tasks to freeze on the next run so that it lists exactly the
 * skipped tasks. The walk starts at the goals; a skipped scenario task is
 * walked through to its dependencies, any other dynamic task reached is frozen
 * and not walked through, and static tasks are ignored.
 */
module Resume {
  import opened TaskGraph
  import opened Sets

  /** The walk so far: the dynamic tasks reached, and the tasks to freeze in the order they were reached. */
  datatype Freeze = Freeze(walked: set<TaskId>, frozen: seq<TaskId>)

  function Range(n: nat): (r: seq<nat>)
    ensures |r| == n && forall i :: 0 <= i < n ==> r[i] == i
  {
    seq(n, i => i)
  }

  /** The indices of the arena. */
  function Ids(g: Graph): set<TaskId>
  {
    set t | t in Range(|g|)
  }

  function Unwalked(g: Graph, f: Freeze): nat
  {
    |Ids(g) - f.walked|
  }

  /** A task the walk goes through: in the scenario and skipped. */
  predicate WalksThrough(inScenario: set<TaskId>, skipped: set<TaskId>, t: TaskId)
  {
    t in inScenario && t in skipped
  }

  lemma WalkingShrinks(g: Graph, f: Freeze, t: TaskId)
    requires t < |g| && t !in f.walked
    ensures Unwalked(g, Freeze(f.walked + {t}, f.frozen)) < Unwalked(g, f)
  {
    assert Range(|g|)[t] == t;
    assert Ids(g) - f.walked == (Ids(g) - (f.walked + {t})) + {t};
  }

  /** Every task of `s` is a dynamic task of the graph that the walk does not go through. */
  predicate Freezable(g: Graph, inScenario: set<TaskId>, skipped: set<TaskId>, s: seq<TaskId>)
  {
    forall x :: x in s ==> x < |g| && !g[x].isStatic && !WalksThrough(inScenario, skipped, x)
  }

  function ResumeVisit(g: Graph, inScenario: set<TaskId>, skipped: set<TaskId>, t: TaskId, f: Freeze): (r: Freeze)
    requires WellFormed(g) && t < |g|
    ensures f.walked <= r.walked
    ensures Freezable(g, inScenario, skipped, f.frozen) ==> Freezable(g, inScenario, skipped, r.frozen)
    decreases Unwalked(g, f), 0
  {
    if g[t].isStatic || t in f.walked then f
    else
      WalkingShrinks(g, f, t);
      if WalksThrough(inScenario, skipped, t) then
        ResumeVisitAll(g, inScenario, skipped, g[t].dependencies, Freeze(f.walked + {t}, f.frozen))
      else
        Freeze(f.walked + {t}, f.frozen + [t])
  }

  function ResumeVisitAll(g: Graph, inScenario: set<TaskId>, skipped: set<TaskId>, ts: seq<TaskId>, f: Freeze): (r: Freeze)
    requires WellFormed(g) && ValidIds(g, ts)
    ensures f.walked <= r.walked
    ensures Freezable(g, inScenario, skipped, f.frozen) ==> Freezable(g, inScenario, skipped, r.frozen)
    decreases Unwalked(g, f), 1, |ts|
  {
    if ts == [] then f
    else
      assert ts[0] in ts && forall d :: d in ts[1..] ==> d in ts;
      var f1 := ResumeVisit(g, inScenario, skipped, ts[0], f);
      assert Ids(g) - f1.walked <= Ids(g) - f.walked;
      SubsetCardinality(Ids(g) - f1.walked, Ids(g) - f.walked);
      ResumeVisitAll(g, inScenario, skipped, ts[1..], f1)
  }

  /** `ListResumingTasksToFreeze(scenario, final_tasks, skipped_tasks)`: only dynamic tasks that are not skipped scenario tasks are frozen. */
  function ListResumingTasksToFreeze(g: Graph, scenario: seq<TaskId>, goals: seq<TaskId>, skipped: set<TaskId>): (r: seq<TaskId>)
    requires WellFormed(g) && ValidIds(g, goals)
    ensures forall x :: x in r ==> x < |g| && !g[x].isStatic && !(x in scenario && x in skipped)
  {
    ResumeVisitAll(g, Elems(scenario), skipped, goals, Freeze({}, [])).frozen
  }
}
