/**
 * What `ListResumingTasksToFreeze` promises: replaying the goals with its
 * result frozen lists exactly the skipped tasks, and every set of frozen tasks
 * that does so contains its result.
 */
module ResumeProperties {
  import opened Wrappers
  import opened TaskGraph
  import opened Scenario
  import opened ScenarioProperties
  import opened Resume
  import opened Sets

  /** The invariant of the walk: reached tasks are dynamic, and a reached task is frozen iff it is not walked through. */
  ghost predicate FreezeInv(g: Graph, inScenario: set<TaskId>, skipped: set<TaskId>, f: Freeze)
  {
    && (forall x :: x in f.walked ==> x < |g| && !g[x].isStatic)
    && Distinct(f.frozen)
    && (forall x :: x in f.frozen <==> x in f.walked && !WalksThrough(inScenario, skipped, x))
  }

  /** A reached task whose dynamic dependencies have all been reached, if it is walked through. */
  ghost predicate Finished(g: Graph, inScenario: set<TaskId>, skipped: set<TaskId>, x: TaskId, reached: set<TaskId>)
  {
    && x < |g|
    && (WalksThrough(inScenario, skipped, x) ==>
          forall d :: d in g[x].dependencies && d < |g| && !g[d].isStatic ==> d in reached)
  }

  lemma {:induction false} ResumeVisitSound(g: Graph, inScenario: set<TaskId>, skipped: set<TaskId>, t: TaskId, f: Freeze)
    requires WellFormed(g) && t < |g| && FreezeInv(g, inScenario, skipped, f)
    ensures var r := ResumeVisit(g, inScenario, skipped, t, f);
      && FreezeInv(g, inScenario, skipped, r)
      && (!g[t].isStatic ==> t in r.walked)
      && (forall x :: x in r.walked && x !in f.walked ==> Finished(g, inScenario, skipped, x, r.walked))
    decreases Unwalked(g, f), 0
  {
    if !g[t].isStatic && t !in f.walked {
      WalkingShrinks(g, f, t);
      var f1 := Freeze(f.walked + {t}, f.frozen);
      if WalksThrough(inScenario, skipped, t) {
        ResumeVisitAllSound(g, inScenario, skipped, g[t].dependencies, f1);
      } else {
        assert t !in f.frozen;
      }
    }
  }

  lemma {:induction false} ResumeVisitAllSound(g: Graph, inScenario: set<TaskId>, skipped: set<TaskId>, ts: seq<TaskId>, f: Freeze)
    requires WellFormed(g) && ValidIds(g, ts) && FreezeInv(g, inScenario, skipped, f)
    ensures var r := ResumeVisitAll(g, inScenario, skipped, ts, f);
      && FreezeInv(g, inScenario, skipped, r)
      && (forall d :: d in ts && !g[d].isStatic ==> d in r.walked)
      && (forall x :: x in r.walked && x !in f.walked ==> Finished(g, inScenario, skipped, x, r.walked))
    decreases Unwalked(g, f), 1, |ts|
  {
    if ts != [] {
      assert ts[0] in ts && forall d :: d in ts[1..] ==> d in ts;
      var f1 := ResumeVisit(g, inScenario, skipped, ts[0], f);
      ResumeVisitSound(g, inScenario, skipped, ts[0], f);
      assert Ids(g) - f1.walked <= Ids(g) - f.walked;
      SubsetCardinality(Ids(g) - f1.walked, Ids(g) - f.walked);
      ResumeVisitAllSound(g, inScenario, skipped, ts[1..], f1);
      var r := ResumeVisitAll(g, inScenario, skipped, ts[1..], f1);
      assert r == ResumeVisitAll(g, inScenario, skipped, ts, f);
      forall x | x in r.walked && x !in f.walked
        ensures Finished(g, inScenario, skipped, x, r.walked)
      {
        if x in f1.walked {
          assert Finished(g, inScenario, skipped, x, f1.walked);
        }
      }
    }
  }

  /** `S` holds every dynamic dependency of its walked-through members. */
  ghost predicate ResumeClosed(g: Graph, inScenario: set<TaskId>, skipped: set<TaskId>, S: set<TaskId>)
  {
    forall x, d :: x in S && x < |g| && WalksThrough(inScenario, skipped, x) && d in g[x].dependencies && d < |g| && !g[d].isStatic ==> d in S
  }

  lemma {:induction false} ResumeVisitLeast(g: Graph, inScenario: set<TaskId>, skipped: set<TaskId>, S: set<TaskId>, t: TaskId, f: Freeze)
    requires WellFormed(g) && t < |g| && ResumeClosed(g, inScenario, skipped, S)
    requires f.walked <= S && (!g[t].isStatic ==> t in S)
    ensures ResumeVisit(g, inScenario, skipped, t, f).walked <= S
    decreases Unwalked(g, f), 0
  {
    if !g[t].isStatic && t !in f.walked {
      WalkingShrinks(g, f, t);
      if WalksThrough(inScenario, skipped, t) {
        ResumeVisitAllLeast(g, inScenario, skipped, S, g[t].dependencies, Freeze(f.walked + {t}, f.frozen));
      }
    }
  }

  lemma {:induction false} ResumeVisitAllLeast(g: Graph, inScenario: set<TaskId>, skipped: set<TaskId>, S: set<TaskId>, ts: seq<TaskId>, f: Freeze)
    requires WellFormed(g) && ValidIds(g, ts) && ResumeClosed(g, inScenario, skipped, S)
    requires f.walked <= S && forall d :: d in ts && !g[d].isStatic ==> d in S
    ensures ResumeVisitAll(g, inScenario, skipped, ts, f).walked <= S
    decreases Unwalked(g, f), 1, |ts|
  {
    if ts != [] {
      assert ts[0] in ts && forall d :: d in ts[1..] ==> d in ts;
      var f1 := ResumeVisit(g, inScenario, skipped, ts[0], f);
      ResumeVisitLeast(g, inScenario, skipped, S, ts[0], f);
      assert Ids(g) - f1.walked <= Ids(g) - f.walked;
      SubsetCardinality(Ids(g) - f1.walked, Ids(g) - f.walked);
      ResumeVisitAllLeast(g, inScenario, skipped, S, ts[1..], f1);
    }
  }

  /** The dynamic tasks the walk of `ListResumingTasksToFreeze` reaches. */
  ghost function Reached(g: Graph, scenario: seq<TaskId>, goals: seq<TaskId>, skipped: set<TaskId>): set<TaskId>
    requires WellFormed(g) && ValidIds(g, goals)
  {
    ResumeVisitAll(g, Elems(scenario), skipped, goals, Freeze({}, [])).walked
  }

  lemma ReachedFacts(g: Graph, scenario: seq<TaskId>, goals: seq<TaskId>, skipped: set<TaskId>)
    requires WellFormed(g) && ValidIds(g, goals)
    ensures FreezeInv(g, Elems(scenario), skipped,
                      Freeze(Reached(g, scenario, goals, skipped), ListResumingTasksToFreeze(g, scenario, goals, skipped)))
    ensures forall t :: t in goals && !g[t].isStatic ==> t in Reached(g, scenario, goals, skipped)
    ensures forall x :: x in Reached(g, scenario, goals, skipped) ==>
      Finished(g, Elems(scenario), skipped, x, Reached(g, scenario, goals, skipped))
  {
    ResumeVisitAllSound(g, Elems(scenario), skipped, goals, Freeze({}, []));
  }

  lemma ReachedLeast(g: Graph, scenario: seq<TaskId>, goals: seq<TaskId>, skipped: set<TaskId>, S: set<TaskId>)
    requires WellFormed(g) && ValidIds(g, goals)
    requires ResumeClosed(g, Elems(scenario), skipped, S)
    requires forall t :: t in goals && !g[t].isStatic ==> t in S
    ensures Reached(g, scenario, goals, skipped) <= S
  {
    ResumeVisitAllLeast(g, Elems(scenario), skipped, S, goals, Freeze({}, []));
  }

  /** Every scenario task that depends on a skipped task is skipped too. */
  ghost predicate SkipClosed(g: Graph, scenario: seq<TaskId>, skipped: set<TaskId>)
  {
    forall t, d :: t in scenario && t < |g| && d in g[t].dependencies && d in skipped ==> t in skipped
  }

  /** The walk reaches every skipped task. */
  lemma SkippedReached(g: Graph, files: set<string>, frozen: set<TaskId>, goals: seq<TaskId>, skipped: set<TaskId>, sc: seq<TaskId>)
    requires WellFormed(g) && ValidIds(g, goals) && GenerateScenario(g, files, frozen, goals) == Success(sc)
    requires skipped <= Elems(sc) && SkipClosed(g, sc, skipped)
    ensures skipped <= Reached(g, sc, goals, skipped)
  {
    var inSc := Elems(sc);
    var V := Reached(g, sc, goals, skipped);
    ScenarioSound(g, files, frozen, goals);
    ReachedFacts(g, sc, goals, skipped);
    var S := set t | t in inSc && (t !in skipped || t in V);
    forall t | t in goals && t < |g| && Live(g, frozen, t)
      ensures t in S
    {
      assert Available(g, files, frozen, sc, t);
    }
    forall t, d | t in S && t < |g| && d in g[t].dependencies && d < |g| && Live(g, frozen, d)
      ensures d in S
    {
      var i := IndexOf(sc, t);
      assert DependenciesAvailable(g, files, frozen, sc[..i], t);
      assert d in sc[..i];
      assert d in sc;
      if d in skipped {
        assert t in skipped && t in V;
        assert Finished(g, inSc, skipped, t, V);
      }
    }
    assert Closed(g, frozen, goals, S);
    ScenarioLeast(g, files, frozen, goals, S);
  }

  /** With the result frozen, the skipped tasks hold the live goals, are closed under live dependencies, and are all live. */
  lemma ReplayClosed(g: Graph, files: set<string>, frozen: set<TaskId>, goals: seq<TaskId>, skipped: set<TaskId>, sc: seq<TaskId>)
    requires WellFormed(g) && ValidIds(g, goals) && IsScenario(g, files, frozen, goals, sc)
    requires skipped <= Elems(sc) && skipped <= Reached(g, sc, goals, skipped)
    ensures Closed(g, Elems(ListResumingTasksToFreeze(g, sc, goals, skipped)), goals, skipped)
    ensures forall x :: x in skipped ==> x < |g| && Live(g, Elems(ListResumingTasksToFreeze(g, sc, goals, skipped)), x)
  {
    var inSc := Elems(sc);
    var V := Reached(g, sc, goals, skipped);
    var W := Elems(ListResumingTasksToFreeze(g, sc, goals, skipped));
    ReachedFacts(g, sc, goals, skipped);
    forall x | x in skipped
      ensures x < |g| && Live(g, W, x)
    {
      var i := IndexOf(sc, x);
      assert Live(g, frozen, sc[i]);
    }
    forall t, d | t in skipped && t < |g| && d in g[t].dependencies && d < |g| && Live(g, W, d)
      ensures d in skipped
    {
      assert Finished(g, inSc, skipped, t, V);
    }
  }

  /** With the result frozen, the skipped tasks can be listed: distinct paths, ranked by their scenario position. */
  lemma ReplayFeasible(g: Graph, files: set<string>, frozen: set<TaskId>, goals: seq<TaskId>, skipped: set<TaskId>, sc: seq<TaskId>)
    requires WellFormed(g) && ValidIds(g, goals) && IsScenario(g, files, frozen, goals, sc)
    requires skipped <= Elems(sc)
    requires Closed(g, Elems(ListResumingTasksToFreeze(g, sc, goals, skipped)), goals, skipped)
    requires forall x :: x in skipped ==> x < |g| && Live(g, Elems(ListResumingTasksToFreeze(g, sc, goals, skipped)), x)
    requires forall t :: t in ListResumingTasksToFreeze(g, sc, goals, skipped) && t < |g| ==> g[t].path in files
    ensures Feasible(g, files, Elems(ListResumingTasksToFreeze(g, sc, goals, skipped)), skipped, t => IndexOf(sc, t))
  {
    var W := Elems(ListResumingTasksToFreeze(g, sc, goals, skipped));
    forall x, y | x in skipped && y in skipped && x < |g| && y < |g| && g[x].path == g[y].path
      ensures x == y
    {
      var i, j := IndexOf(sc, x), IndexOf(sc, y);
      assert g[sc[i]].path == g[sc[j]].path;
    }
    forall x, d | x in skipped && x < |g| && d in g[x].dependencies && d < |g| && Live(g, W, d)
      ensures IndexOf(sc, d) < IndexOf(sc, x)
    {
      var i := IndexOf(sc, x);
      assert d in skipped;
      assert Live(g, frozen, sc[IndexOf(sc, d)]);
      assert DependenciesAvailable(g, files, frozen, sc[..i], x);
      assert d in sc[..i];
      var j :| 0 <= j < i && sc[..i][j] == d;
      IndexOfDistinct(sc, j);
    }
  }

  /** Replaying with the result frozen lists every skipped task. */
  lemma ReplayCovers(g: Graph, files: set<string>, goals: seq<TaskId>, skipped: set<TaskId>, sc: seq<TaskId>, replay: seq<TaskId>)
    requires WellFormed(g) && ValidIds(g, goals)
    requires skipped <= Elems(sc) && skipped <= Reached(g, sc, goals, skipped)
    requires IsScenario(g, files, Elems(ListResumingTasksToFreeze(g, sc, goals, skipped)), goals, replay)
    ensures skipped <= Elems(replay)
  {
    var inSc := Elems(sc);
    var V := Reached(g, sc, goals, skipped);
    var W := Elems(ListResumingTasksToFreeze(g, sc, goals, skipped));
    ReachedFacts(g, sc, goals, skipped);
    var V' := set x | x in V && (WalksThrough(inSc, skipped, x) ==> x in replay);
    forall t | t in goals && !g[t].isStatic
      ensures t in V'
    {
      assert Available(g, files, W, replay, t);
    }
    forall x, d | x in V' && x < |g| && WalksThrough(inSc, skipped, x) && d in g[x].dependencies && d < |g| && !g[d].isStatic
      ensures d in V'
    {
      assert Finished(g, inSc, skipped, x, V);
      var i := IndexOf(replay, x);
      assert DependenciesAvailable(g, files, W, replay[..i], x);
      if WalksThrough(inSc, skipped, d) {
        assert d in replay[..i];
      }
    }
    ReachedLeast(g, sc, goals, skipped, V');
  }

  /**
   * Round trip: when the skipped tasks of a scenario include every task that
   * depends on a skipped one, and the outputs of the tasks to freeze exist,
   * replaying the goals with those tasks frozen lists exactly the skipped tasks.
   */
  lemma ResumeRoundTrip(g: Graph, files: set<string>, frozen: set<TaskId>, goals: seq<TaskId>, skipped: set<TaskId>, sc: seq<TaskId>)
    requires WellFormed(g) && ValidIds(g, goals) && GenerateScenario(g, files, frozen, goals) == Success(sc)
    requires skipped <= Elems(sc) && SkipClosed(g, sc, skipped)
    requires forall t :: t in ListResumingTasksToFreeze(g, sc, goals, skipped) && t < |g| ==> g[t].path in files
    ensures GenerateScenario(g, files, Elems(ListResumingTasksToFreeze(g, sc, goals, skipped)), goals).Success?
    ensures Elems(GenerateScenario(g, files, Elems(ListResumingTasksToFreeze(g, sc, goals, skipped)), goals).value) == skipped
  {
    var W := Elems(ListResumingTasksToFreeze(g, sc, goals, skipped));
    ScenarioSound(g, files, frozen, goals);
    SkippedReached(g, files, frozen, goals, skipped, sc);
    ReplayClosed(g, files, frozen, goals, skipped, sc);
    ReplayFeasible(g, files, frozen, goals, skipped, sc);
    ScenarioComplete(g, files, W, goals, skipped, t => IndexOf(sc, t));
    var replay := GenerateScenario(g, files, W, goals).value;
    ScenarioLeast(g, files, W, goals, skipped);
    ScenarioSound(g, files, W, goals);
    ReplayCovers(g, files, goals, skipped, sc, replay);
  }

  /**
   * Minimality: every set of frozen tasks whose replay lists exactly the
   * skipped tasks contains the result.
   */
  lemma ResumeMinimal(g: Graph, files: set<string>, goals: seq<TaskId>, skipped: set<TaskId>, sc: seq<TaskId>, other: set<TaskId>)
    requires WellFormed(g) && ValidIds(g, goals) && skipped <= Elems(sc)
    requires GenerateScenario(g, files, other, goals).Success?
    requires Elems(GenerateScenario(g, files, other, goals).value) == skipped
    ensures forall t :: t in ListResumingTasksToFreeze(g, sc, goals, skipped) ==> t in other
  {
    var inSc := Elems(sc);
    var V := Reached(g, sc, goals, skipped);
    var Wl := ListResumingTasksToFreeze(g, sc, goals, skipped);
    var replay := GenerateScenario(g, files, other, goals).value;
    ReachedFacts(g, sc, goals, skipped);
    ScenarioSound(g, files, other, goals);
    var S := set x | x in V && (x in Wl ==> x in other);
    forall t | t in goals && !g[t].isStatic
      ensures t in S
    {
      assert Available(g, files, other, replay, t);
    }
    forall x, d | x in S && x < |g| && WalksThrough(inSc, skipped, x) && d in g[x].dependencies && d < |g| && !g[d].isStatic
      ensures d in S
    {
      assert Finished(g, inSc, skipped, x, V);
      var i := IndexOf(replay, x);
      assert DependenciesAvailable(g, files, other, replay[..i], x);
    }
    ReachedLeast(g, sc, goals, skipped, S);
  }
}
