/**
 * What `GenerateScenario` promises: every listed task is dynamic and not frozen,
 * listed once, after everything it depends on, no two listed tasks share an
 * output path, and each goal is listed or needs no work (static, or frozen with
 * its output present). The listing is the least such set, and the walk succeeds
 * whenever the required tasks have distinct paths, no dependency cycle and every
 * reached frozen output present.
 */
module ScenarioProperties {
  import opened Wrappers
  import opened TaskGraph
  import opened Scenario
  import opened Sets

  /** A task needs no (more) work before `listed` runs on: it is static, frozen with its output present, or listed. */
  predicate Available(g: Graph, files: set<string>, frozen: set<TaskId>, listed: seq<TaskId>, d: TaskId)
    requires d < |g|
  {
    g[d].isStatic || (d in frozen && g[d].path in files) || d in listed
  }

  predicate DependenciesAvailable(g: Graph, files: set<string>, frozen: set<TaskId>, listed: seq<TaskId>, t: TaskId)
    requires WellFormed(g) && t < |g|
  {
    forall d :: d in g[t].dependencies ==> Available(g, files, frozen, listed, d)
  }

  /** The invariant of the walk. */
  ghost predicate WalkInv(g: Graph, files: set<string>, frozen: set<TaskId>, w: Walk)
    requires WellFormed(g)
  {
    && ValidIds(g, w.order)
    && Distinct(w.order)
    && (forall i :: 0 <= i < |w.order| ==>
          && w.order[i] < |g|
          && Live(g, frozen, w.order[i])
          && g[w.order[i]].path in w.marks
          && w.marks[g[w.order[i]].path] == Done(w.order[i])
          && DependenciesAvailable(g, files, frozen, w.order[..i], w.order[i]))
    && (forall p :: p in w.marks && w.marks[p].Done? ==> w.marks[p].task in w.order && g[w.marks[p].task].path == p)
  }

  /** The tasks listed between `w` and `w'` have paths that `w` had not marked. */
  ghost predicate NewPathsFresh(g: Graph, w: Walk, w': Walk)
  {
    forall i :: |w.order| <= i < |w'.order| && w'.order[i] < |g| ==> g[w'.order[i]].path !in w.marks
  }

  lemma {:induction false} VisitSound(g: Graph, files: set<string>, frozen: set<TaskId>, t: TaskId, w: Walk, w': Walk)
    requires WellFormed(g) && t < |g| && WalkInv(g, files, frozen, w)
    requires Visit(g, files, frozen, t, w) == Success(w')
    ensures WalkInv(g, files, frozen, w')
    ensures Available(g, files, frozen, w'.order, t)
    ensures NewPathsFresh(g, w, w')
    decreases Unmarked(g, w), 0
  {
    var task := g[t];
    if task.isStatic || t in frozen {
      assert w' == w;
    } else if task.path in w.marks {
      assert w' == w && w.marks[task.path] == Done(t);
    } else {
      var w1 := Walk(w.marks[task.path := InProgress], w.order);
      MarkingShrinks(g, w, t);
      MarkingKeepsInv(g, files, frozen, w, task.path);
      var w2 := VisitAll(g, files, frozen, task.dependencies, w1).value;
      assert w' == Walk(w2.marks[task.path := Done(t)], w2.order + [t]);
      VisitAllSound(g, files, frozen, task.dependencies, w1, w2);
      VisitAllExtends(g, files, frozen, task.dependencies, w1, w2);
      ExpansionSound(g, files, frozen, t, w, w2);
    }
  }

  /** Marking a fresh path as being expanded keeps the invariant. */
  lemma MarkingKeepsInv(g: Graph, files: set<string>, frozen: set<TaskId>, w: Walk, p: string)
    requires WellFormed(g) && WalkInv(g, files, frozen, w) && p !in w.marks
    ensures WalkInv(g, files, frozen, Walk(w.marks[p := InProgress], w.order))
  {
  }

  /** Listing `t` after its dependencies keeps the invariant. */
  lemma ExpansionSound(g: Graph, files: set<string>, frozen: set<TaskId>, t: TaskId, w: Walk, w2: Walk)
    requires WellFormed(g) && t < |g| && Live(g, frozen, t) && g[t].path !in w.marks
    requires WalkInv(g, files, frozen, w) && WalkInv(g, files, frozen, w2)
    requires Extends(Walk(w.marks[g[t].path := InProgress], w.order), w2)
    requires NewPathsFresh(g, Walk(w.marks[g[t].path := InProgress], w.order), w2)
    requires DependenciesAvailable(g, files, frozen, w2.order, t)
    ensures WalkInv(g, files, frozen, Walk(w2.marks[g[t].path := Done(t)], w2.order + [t]))
    ensures NewPathsFresh(g, w, Walk(w2.marks[g[t].path := Done(t)], w2.order + [t]))
  {
    var p := g[t].path;
    var w3 := Walk(w2.marks[p := Done(t)], w2.order + [t]);
    assert w2.marks[p] == InProgress;
    forall i | 0 <= i < |w2.order|
      ensures g[w2.order[i]].path != p
    {
    }
    assert t !in w2.order;
    assert Distinct(w3.order);
    forall i | 0 <= i < |w3.order|
      ensures w3.order[i] < |g| && Live(g, frozen, w3.order[i])
      ensures g[w3.order[i]].path in w3.marks && w3.marks[g[w3.order[i]].path] == Done(w3.order[i])
      ensures DependenciesAvailable(g, files, frozen, w3.order[..i], w3.order[i])
    {
      if i < |w2.order| {
        assert w3.order[..i] == w2.order[..i];
      } else {
        assert w3.order[..i] == w2.order;
      }
    }
  }

  lemma {:induction false} VisitAllSound(g: Graph, files: set<string>, frozen: set<TaskId>, ts: seq<TaskId>, w: Walk, w': Walk)
    requires WellFormed(g) && ValidIds(g, ts) && WalkInv(g, files, frozen, w)
    requires VisitAll(g, files, frozen, ts, w) == Success(w')
    ensures WalkInv(g, files, frozen, w')
    ensures forall d :: d in ts ==> Available(g, files, frozen, w'.order, d)
    ensures NewPathsFresh(g, w, w')
    decreases Unmarked(g, w), 1, |ts|
  {
    if ts != [] {
      assert ts[0] in ts && forall d :: d in ts[1..] ==> d in ts;
      var w1 := Visit(g, files, frozen, ts[0], w).value;
      VisitSound(g, files, frozen, ts[0], w, w1);
      UnmarkedShrinks(g, w, w1);
      VisitAllSound(g, files, frozen, ts[1..], w1, w');
      VisitExtends(g, files, frozen, ts[0], w, w1);
      VisitAllExtends(g, files, frozen, ts[1..], w1, w');
      FreshComposes(g, w, w1, w');
      forall d | d in ts
        ensures Available(g, files, frozen, w'.order, d)
      {
        if d !in ts[1..] {
          assert d == ts[0];
          assert d in w1.order ==> d in w'.order;
        }
      }
    }
  }

  lemma FreshComposes(g: Graph, w: Walk, w1: Walk, w2: Walk)
    requires Extends(w, w1) && Extends(w1, w2)
    requires NewPathsFresh(g, w, w1) && NewPathsFresh(g, w1, w2)
    ensures NewPathsFresh(g, w, w2)
  {
    forall i | |w.order| <= i < |w2.order| && w2.order[i] < |g|
      ensures g[w2.order[i]].path !in w.marks
    {
      if i < |w1.order| {
        assert w2.order[i] == w1.order[i];
      }
    }
  }

  /**
   * The facts a scenario satisfies: distinct live tasks, each listed after every
   * dependency that is not static or frozen-and-present, each goal listed or
   * needing no work, and no two listed tasks with the same output path.
   */
  ghost predicate IsScenario(g: Graph, files: set<string>, frozen: set<TaskId>, goals: seq<TaskId>, s: seq<TaskId>)
    requires WellFormed(g)
  {
    && ValidIds(g, s)
    && Distinct(s)
    && (forall i :: 0 <= i < |s| ==>
          s[i] < |g| && Live(g, frozen, s[i]) && DependenciesAvailable(g, files, frozen, s[..i], s[i]))
    && (forall t :: t in goals && t < |g| ==> Available(g, files, frozen, s, t))
    && (forall i, j :: 0 <= i < |s| && 0 <= j < |s| && s[i] < |g| && s[j] < |g| && g[s[i]].path == g[s[j]].path ==> i == j)
  }

  /** Soundness: a successful `GenerateScenario` lists a scenario. */
  lemma ScenarioSound(g: Graph, files: set<string>, frozen: set<TaskId>, goals: seq<TaskId>)
    requires WellFormed(g) && ValidIds(g, goals)
    requires GenerateScenario(g, files, frozen, goals).Success?
    ensures IsScenario(g, files, frozen, goals, GenerateScenario(g, files, frozen, goals).value)
  {
    var w0 := Walk(map[], []);
    var w := VisitAll(g, files, frozen, goals, w0).value;
    VisitAllSound(g, files, frozen, goals, w0, w);
    var s := w.order;
    forall i, j | 0 <= i < |s| && 0 <= j < |s| && s[i] < |g| && s[j] < |g| && g[s[i]].path == g[s[j]].path
      ensures i == j
    {
      assert w.marks[g[s[i]].path] == Done(s[i]);
    }
  }

  /** Every live dependency of a member of `S` is in `S`. */
  ghost predicate DependencyClosed(g: Graph, frozen: set<TaskId>, S: set<TaskId>)
  {
    forall t, d :: t in S && t < |g| && d in g[t].dependencies && d < |g| && Live(g, frozen, d) ==> d in S
  }

  /** `S` holds every live goal and is closed under live dependencies. */
  ghost predicate Closed(g: Graph, frozen: set<TaskId>, goals: seq<TaskId>, S: set<TaskId>)
  {
    && (forall t :: t in goals && t < |g| && Live(g, frozen, t) ==> t in S)
    && DependencyClosed(g, frozen, S)
  }

  lemma {:induction false} VisitLeast(g: Graph, files: set<string>, frozen: set<TaskId>, S: set<TaskId>, t: TaskId, w: Walk, w': Walk)
    requires WellFormed(g) && t < |g| && Visit(g, files, frozen, t, w) == Success(w')
    requires DependencyClosed(g, frozen, S) && (Live(g, frozen, t) ==> t in S)
    requires forall x :: x in w.order ==> x in S
    ensures forall x :: x in w'.order ==> x in S
    decreases Unmarked(g, w), 0
  {
    var task := g[t];
    if task.isStatic || t in frozen || task.path in w.marks {
      assert w' == w;
    } else {
      var w1 := Walk(w.marks[task.path := InProgress], w.order);
      MarkingShrinks(g, w, t);
      var w2 := VisitAll(g, files, frozen, task.dependencies, w1).value;
      assert w' == Walk(w2.marks[task.path := Done(t)], w2.order + [t]);
      assert forall d :: d in task.dependencies && d < |g| && Live(g, frozen, d) ==> d in S;
      VisitAllLeast(g, files, frozen, S, task.dependencies, w1, w2);
      AppendMember(w2.order, t);
    }
  }

  lemma AppendMember<T>(s: seq<T>, t: T)
    ensures forall x :: x in s + [t] ==> x == t || x in s
  {
  }

  lemma {:induction false} VisitAllLeast(g: Graph, files: set<string>, frozen: set<TaskId>, S: set<TaskId>, ts: seq<TaskId>, w: Walk, w': Walk)
    requires WellFormed(g) && ValidIds(g, ts) && VisitAll(g, files, frozen, ts, w) == Success(w')
    requires DependencyClosed(g, frozen, S) && forall d :: d in ts && d < |g| && Live(g, frozen, d) ==> d in S
    requires forall x :: x in w.order ==> x in S
    ensures forall x :: x in w'.order ==> x in S
    decreases Unmarked(g, w), 1, |ts|
  {
    if ts != [] {
      assert ts[0] in ts && forall d :: d in ts[1..] ==> d in ts;
      var w1 := Visit(g, files, frozen, ts[0], w).value;
      VisitLeast(g, files, frozen, S, ts[0], w, w1);
      UnmarkedShrinks(g, w, w1);
      VisitAllLeast(g, files, frozen, S, ts[1..], w1, w');
    }
  }

  /** Leastness: the scenario lies inside every set that is closed for the goals. */
  lemma ScenarioLeast(g: Graph, files: set<string>, frozen: set<TaskId>, goals: seq<TaskId>, S: set<TaskId>)
    requires WellFormed(g) && ValidIds(g, goals)
    requires GenerateScenario(g, files, frozen, goals).Success?
    requires Closed(g, frozen, goals, S)
    ensures forall t :: t in GenerateScenario(g, files, frozen, goals).value ==> t in S
  {
    var w0 := Walk(map[], []);
    VisitAllLeast(g, files, frozen, S, goals, w0, VisitAll(g, files, frozen, goals, w0).value);
  }

  /**
   * Conditions under which the walk over the tasks `L` cannot fail: they are
   * live, closed under live dependencies, have pairwise distinct paths, a rank
   * that strictly decreases along dependencies (so no cycle), and every frozen
   * dependency they reach has its output present.
   */
  ghost predicate Feasible(g: Graph, files: set<string>, frozen: set<TaskId>, L: set<TaskId>, rank: TaskId -> nat)
  {
    && (forall x :: x in L ==> x < |g| && Live(g, frozen, x))
    && DependencyClosed(g, frozen, L)
    && (forall x, y :: x in L && y in L && x < |g| && y < |g| && g[x].path == g[y].path ==> x == y)
    && (forall x, d :: x in L && x < |g| && d in g[x].dependencies && d < |g| && Live(g, frozen, d) ==> rank(d) < rank(x))
    && (forall x, d :: x in L && x < |g| && d in g[x].dependencies && d < |g| && d in frozen && !g[d].isStatic ==> g[d].path in files)
  }

  /** Every task of `L` whose path is being expanded ranks above `bound`. */
  ghost predicate StackAbove(g: Graph, L: set<TaskId>, rank: TaskId -> nat, w: Walk, bound: nat)
  {
    forall x :: x in L && x < |g| && g[x].path in w.marks && w.marks[g[x].path] == InProgress ==> rank(x) > bound
  }

  /** What a task to visit must satisfy for the visit to succeed. */
  ghost predicate Visitable(g: Graph, files: set<string>, frozen: set<TaskId>, L: set<TaskId>, rank: TaskId -> nat, w: Walk, t: TaskId)
    requires t < |g|
  {
    && (Live(g, frozen, t) ==> t in L && StackAbove(g, L, rank, w, rank(t)))
    && (t in frozen && !g[t].isStatic ==> g[t].path in files)
  }

  lemma StackAboveKept(g: Graph, L: set<TaskId>, rank: TaskId -> nat, w: Walk, w': Walk, bound: nat)
    requires Extends(w, w') && StackAbove(g, L, rank, w, bound)
    ensures StackAbove(g, L, rank, w', bound)
  {
  }

  lemma {:induction false} VisitComplete(g: Graph, files: set<string>, frozen: set<TaskId>, L: set<TaskId>, rank: TaskId -> nat, t: TaskId, w: Walk)
    requires WellFormed(g) && t < |g| && WalkInv(g, files, frozen, w)
    requires Feasible(g, files, frozen, L, rank) && Visitable(g, files, frozen, L, rank, w, t)
    requires forall x :: x in w.order ==> x in L
    ensures Visit(g, files, frozen, t, w).Success?
    decreases Unmarked(g, w), 0
  {
    var task := g[t];
    if !task.isStatic && t !in frozen {
      if task.path in w.marks {
        assert w.marks[task.path].Done?;
        var other := w.marks[task.path].task;
        assert other in L && g[other].path == task.path;
      } else {
        var w1 := Walk(w.marks[task.path := InProgress], w.order);
        MarkingShrinks(g, w, t);
        MarkingKeepsInv(g, files, frozen, w, task.path);
        DependenciesVisitable(g, files, frozen, L, rank, t, w);
        VisitAllComplete(g, files, frozen, L, rank, task.dependencies, w1);
      }
    }
  }

  /** Once a live, unmarked task is marked in progress, its dependencies are still visitable. */
  lemma DependenciesVisitable(g: Graph, files: set<string>, frozen: set<TaskId>, L: set<TaskId>, rank: TaskId -> nat, t: TaskId, w: Walk)
    requires WellFormed(g) && t < |g| && Live(g, frozen, t) && g[t].path !in w.marks
    requires Feasible(g, files, frozen, L, rank) && Visitable(g, files, frozen, L, rank, w, t)
    ensures forall d :: d in g[t].dependencies ==>
      Visitable(g, files, frozen, L, rank, Walk(w.marks[g[t].path := InProgress], w.order), d)
  {
    var w1 := Walk(w.marks[g[t].path := InProgress], w.order);
    forall d | d in g[t].dependencies
      ensures Visitable(g, files, frozen, L, rank, w1, d)
    {
      if Live(g, frozen, d) {
        forall x | x in L && x < |g| && g[x].path in w1.marks && w1.marks[g[x].path] == InProgress
          ensures rank(x) > rank(d)
        {
          if g[x].path == g[t].path {
            assert x == t;
          }
        }
      }
    }
  }

  lemma {:induction false} VisitAllComplete(g: Graph, files: set<string>, frozen: set<TaskId>, L: set<TaskId>, rank: TaskId -> nat, ts: seq<TaskId>, w: Walk)
    requires WellFormed(g) && ValidIds(g, ts) && WalkInv(g, files, frozen, w)
    requires Feasible(g, files, frozen, L, rank)
    requires forall d :: d in ts ==> d < |g| && Visitable(g, files, frozen, L, rank, w, d)
    requires forall x :: x in w.order ==> x in L
    ensures VisitAll(g, files, frozen, ts, w).Success?
    decreases Unmarked(g, w), 1, |ts|
  {
    if ts != [] {
      assert ts[0] in ts && forall d :: d in ts[1..] ==> d in ts;
      VisitComplete(g, files, frozen, L, rank, ts[0], w);
      var w1 := Visit(g, files, frozen, ts[0], w).value;
      VisitSound(g, files, frozen, ts[0], w, w1);
      VisitLeast(g, files, frozen, L, ts[0], w, w1);
      VisitExtends(g, files, frozen, ts[0], w, w1);
      UnmarkedShrinks(g, w, w1);
      forall d | d in ts[1..]
        ensures Visitable(g, files, frozen, L, rank, w1, d)
      {
        if Live(g, frozen, d) {
          StackAboveKept(g, L, rank, w, w1, rank(d));
        }
      }
      VisitAllComplete(g, files, frozen, L, rank, ts[1..], w1);
    }
  }

  /**
   * Completeness: when the live goals lie in a feasible set `L` and every frozen
   * goal has its output, `GenerateScenario` does not fail.
   */
  lemma ScenarioComplete(g: Graph, files: set<string>, frozen: set<TaskId>, goals: seq<TaskId>, L: set<TaskId>, rank: TaskId -> nat)
    requires WellFormed(g) && ValidIds(g, goals)
    requires Feasible(g, files, frozen, L, rank)
    requires forall t :: t in goals && Live(g, frozen, t) ==> t in L
    requires forall t :: t in goals && t in frozen && !g[t].isStatic ==> g[t].path in files
    ensures GenerateScenario(g, files, frozen, goals).Success?
  {
    VisitAllComplete(g, files, frozen, L, rank, goals, Walk(map[], []));
  }

  /**
   * `chain` follows dependencies from a goal: it starts at a goal, names tasks of
   * the graph, and each task but the last is live and depends on the next.
   */
  ghost predicate Reaches(g: Graph, frozen: set<TaskId>, goals: seq<TaskId>, chain: seq<TaskId>)
  {
    && chain != []
    && chain[0] in goals
    && (forall k :: 0 <= k < |chain| ==> chain[k] < |g|)
    && (forall k :: 0 <= k < |chain| - 1 ==> Live(g, frozen, chain[k]) && chain[k + 1] in g[chain[k]].dependencies)
  }

  /** A live task reached from a goal is listed in every scenario for those goals. */
  lemma {:induction false} ReachedListed(g: Graph, files: set<string>, frozen: set<TaskId>, goals: seq<TaskId>, s: seq<TaskId>, chain: seq<TaskId>, k: nat)
    requires WellFormed(g) && IsScenario(g, files, frozen, goals, s) && Reaches(g, frozen, goals, chain)
    requires k < |chain| && Live(g, frozen, chain[k])
    ensures chain[k] in s
    ensures k > 0 ==> IndexOf(s, chain[k]) < IndexOf(s, chain[k - 1])
  {
    if k == 0 {
      assert Available(g, files, frozen, s, chain[0]);
    } else {
      ReachedListed(g, files, frozen, goals, s, chain, k - 1);
      var i := IndexOf(s, chain[k - 1]);
      assert DependenciesAvailable(g, files, frozen, s[..i], s[i]);
      assert Available(g, files, frozen, s[..i], chain[k]);
      IndexOfPrefix(s, chain[k], i);
    }
  }

  /** Along a reached chain of live tasks, later tasks are listed strictly earlier. */
  lemma {:induction false} ReachedOrder(g: Graph, files: set<string>, frozen: set<TaskId>, goals: seq<TaskId>, s: seq<TaskId>, chain: seq<TaskId>, i: nat, j: nat)
    requires WellFormed(g) && IsScenario(g, files, frozen, goals, s) && Reaches(g, frozen, goals, chain)
    requires i < j < |chain| && Live(g, frozen, chain[|chain| - 1])
    ensures IndexOf(s, chain[j]) < IndexOf(s, chain[i])
    decreases j - i
  {
    ReachedListed(g, files, frozen, goals, s, chain, j);
    if i + 1 < j {
      ReachedOrder(g, files, frozen, goals, s, chain, i, j - 1);
    }
  }

  /** A scenario lists no live task reached from the goals twice along one chain: no dependency cycle. */
  lemma ScenarioAcyclic(g: Graph, files: set<string>, frozen: set<TaskId>, goals: seq<TaskId>, s: seq<TaskId>, chain: seq<TaskId>)
    requires WellFormed(g) && IsScenario(g, files, frozen, goals, s) && Reaches(g, frozen, goals, chain)
    requires Live(g, frozen, chain[|chain| - 1])
    ensures forall i :: 0 <= i < |chain| - 1 ==> chain[i] != chain[|chain| - 1]
  {
    forall i | 0 <= i < |chain| - 1
      ensures chain[i] != chain[|chain| - 1]
    {
      ReachedOrder(g, files, frozen, goals, s, chain, i, |chain| - 1);
    }
  }

  /** Two live tasks reached from the goals of a scenario with the same output path are the same task. */
  lemma ScenarioPathsDistinct(g: Graph, files: set<string>, frozen: set<TaskId>, goals: seq<TaskId>, s: seq<TaskId>, c1: seq<TaskId>, c2: seq<TaskId>)
    requires WellFormed(g) && IsScenario(g, files, frozen, goals, s) && Reaches(g, frozen, goals, c1) && Reaches(g, frozen, goals, c2)
    requires Live(g, frozen, c1[|c1| - 1]) && Live(g, frozen, c2[|c2| - 1])
    ensures g[c1[|c1| - 1]].path == g[c2[|c2| - 1]].path ==> c1[|c1| - 1] == c2[|c2| - 1]
  {
    ReachedListed(g, files, frozen, goals, s, c1, |c1| - 1);
    ReachedListed(g, files, frozen, goals, s, c2, |c2| - 1);
    var i, j := IndexOf(s, c1[|c1| - 1]), IndexOf(s, c2[|c2| - 1]);
    assert s[i] == c1[|c1| - 1] && s[j] == c2[|c2| - 1];
  }

  /** Every frozen dynamic task reached from the goals of a scenario has its output present. */
  lemma ScenarioFrozenPresent(g: Graph, files: set<string>, frozen: set<TaskId>, goals: seq<TaskId>, s: seq<TaskId>, chain: seq<TaskId>)
    requires WellFormed(g) && IsScenario(g, files, frozen, goals, s) && Reaches(g, frozen, goals, chain)
    requires chain[|chain| - 1] in frozen && !g[chain[|chain| - 1]].isStatic
    ensures g[chain[|chain| - 1]].path in files
  {
    var x := chain[|chain| - 1];
    if |chain| == 1 {
      assert Available(g, files, frozen, s, x);
    } else {
      var n := |chain| - 2;
      ReachedListed(g, files, frozen, goals, s, chain, n);
      var i := IndexOf(s, chain[n]);
      assert DependenciesAvailable(g, files, frozen, s[..i], s[i]);
      assert Available(g, files, frozen, s[..i], x);
      if x in s[..i] {
        IndexOfPrefix(s, x, i);
      }
    }
  }

  /** A dependency cycle among the live tasks reached from the goals makes `GenerateScenario` fail. */
  lemma CycleFails(g: Graph, files: set<string>, frozen: set<TaskId>, goals: seq<TaskId>, chain: seq<TaskId>, i: nat)
    requires WellFormed(g) && ValidIds(g, goals) && Reaches(g, frozen, goals, chain)
    requires Live(g, frozen, chain[|chain| - 1])
    requires i < |chain| - 1 && chain[i] == chain[|chain| - 1]
    ensures GenerateScenario(g, files, frozen, goals).Failure?
  {
    if GenerateScenario(g, files, frozen, goals).Success? {
      ScenarioSound(g, files, frozen, goals);
      ScenarioAcyclic(g, files, frozen, goals, GenerateScenario(g, files, frozen, goals).value, chain);
      assert false;
    }
  }

  /** Two distinct live tasks reached from the goals with the same output path make `GenerateScenario` fail. */
  lemma CollisionFails(g: Graph, files: set<string>, frozen: set<TaskId>, goals: seq<TaskId>, c1: seq<TaskId>, c2: seq<TaskId>)
    requires WellFormed(g) && ValidIds(g, goals) && Reaches(g, frozen, goals, c1) && Reaches(g, frozen, goals, c2)
    requires Live(g, frozen, c1[|c1| - 1]) && Live(g, frozen, c2[|c2| - 1])
    requires c1[|c1| - 1] != c2[|c2| - 1] && g[c1[|c1| - 1]].path == g[c2[|c2| - 1]].path
    ensures GenerateScenario(g, files, frozen, goals).Failure?
  {
    if GenerateScenario(g, files, frozen, goals).Success? {
      ScenarioSound(g, files, frozen, goals);
      ScenarioPathsDistinct(g, files, frozen, goals, GenerateScenario(g, files, frozen, goals).value, c1, c2);
      assert false;
    }
  }

  /** A frozen task reached from the goals whose output is missing makes `GenerateScenario` fail. */
  lemma FrozenMissingFails(g: Graph, files: set<string>, frozen: set<TaskId>, goals: seq<TaskId>, chain: seq<TaskId>)
    requires WellFormed(g) && ValidIds(g, goals) && Reaches(g, frozen, goals, chain)
    requires chain[|chain| - 1] in frozen && !g[chain[|chain| - 1]].isStatic && g[chain[|chain| - 1]].path !in files
    ensures GenerateScenario(g, files, frozen, goals).Failure?
  {
    if GenerateScenario(g, files, frozen, goals).Success? {
      ScenarioSound(g, files, frozen, goals);
      ScenarioFrozenPresent(g, files, frozen, goals, GenerateScenario(g, files, frozen, goals).value, chain);
      assert false;
    }
  }

  /** The cycle test: `a` depends on `c`, `b` on `a`, `c` on `b`, and the goal `d` on `c`. */
  lemma CycleErrorExample(g: Graph, files: set<string>)
    requires |g| == 4 && forall t :: 0 <= t < 4 ==> !g[t].isStatic
    requires g[0].dependencies == [2] && g[1].dependencies == [0] && g[2].dependencies == [1] && g[3].dependencies == [2]
    ensures GenerateScenario(g, files, {}, [3]).Failure?
  {
    var chain := [3, 2, 1, 0, 2];
    assert chain[1] in g[chain[0]].dependencies;
    assert chain[4] in g[chain[3]].dependencies;
    CycleFails(g, files, {}, [3], chain, 1);
  }

  /** The collision test: two builders register a task under the same name, so the same output path. */
  lemma CollisionErrorExample(g: Graph, files: set<string>)
    requires |g| == 2 && !g[0].isStatic && !g[1].isStatic
    requires g[0].dependencies == [] && g[1].dependencies == [] && g[0].path == g[1].path
    ensures GenerateScenario(g, files, {}, [0, 1]).Failure?
  {
    CollisionFails(g, files, {}, [0, 1], [0], [1]);
  }

  /** The freezing test: `d` depends on `b` and `c`, `b` on `a`; freezing `a` before its output exists fails. */
  lemma FrozenMissingExample(g: Graph, files: set<string>)
    requires |g| == 4 && forall t :: 0 <= t < 4 ==> !g[t].isStatic
    requires g[0].dependencies == [] && g[1].dependencies == [0] && g[2].dependencies == [] && g[3].dependencies == [1, 2]
    requires g[0].path !in files
    ensures GenerateScenario(g, files, {0}, [3]).Failure?
  {
    var chain := [3, 1, 0];
    assert chain[1] in g[chain[0]].dependencies;
    FrozenMissingFails(g, files, {0}, [3], chain);
  }
}
