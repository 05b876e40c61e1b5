/**
 * Tasks of the loading task manager and the builder that registers them.
 * Tasks live in an arena: a task's identity is its index, and a task's
 * dependencies are indices of earlier-or-later tasks in the same arena.
 */
module TaskGraph {
  import opened Wrappers
  import opened Strings

  type TaskId = nat

  /**
   * A task: its name (the registration key), the path of the file it
   * produces, the tasks whose outputs it needs, and whether it is static
   * (an existing file, no recipe).
   */
  datatype Task = Task(name: string, path: string, dependencies: seq<TaskId>, isStatic: bool)

  type Graph = seq<Task>

  /** The errors the task manager raises as `TaskError`. */
  datatype TaskError =
    | StaticFileMissing(path: string)
    | DuplicateTask(key: string)
    | MergeOntoStaticTask(key: string)
    | StaticTaskExecuted(name: string)
    | FrozenOutputMissing(name: string)
    | DependencyCycle(name: string)
    | PathCollision(name: string, path: string)

  /** What a recipe does when called; an exception is an ordinary one, a keyboard interrupt or an out-of-memory. */
  datatype Exception = Ordinary | KeyboardInterrupt | OutOfMemory
  datatype RecipeOutcome = Returns | Raises(exception: Exception)

  /** What `Task.Execute` does. */
  datatype Execution = Executed(recipeRan: bool) | RecipeRaised(exception: Exception) | NotExecutable(error: TaskError)

  predicate ValidIds(g: Graph, ids: seq<TaskId>)
  {
    forall t :: t in ids ==> t < |g|
  }

  /** Every dependency of every task names a task of the arena. */
  predicate WellFormed(g: Graph)
  {
    forall t :: 0 <= t < |g| ==> ValidIds(g, g[t].dependencies)
  }

  /** The arena of tasks, with the mutable done flag of each task and the number of times its recipe has run. */
  class TaskArena {
    var tasks: seq<Task>
    var isDone: seq<bool>
    var recipeRuns: seq<nat>

    ghost predicate Valid()
      reads this
    {
      && |isDone| == |tasks|
      && |recipeRuns| == |tasks|
      && WellFormed(tasks)
      && (forall t :: 0 <= t < |tasks| && tasks[t].isStatic ==> isDone[t] && recipeRuns[t] == 0)
      && (forall t :: 0 <= t < |tasks| && isDone[t] && !tasks[t].isStatic ==> recipeRuns[t] >= 1)
    }

    constructor()
      ensures Valid() && tasks == []
    {
      tasks := [];
      isDone := [];
      recipeRuns := [];
    }

    /** `Task(name, path, dependencies, recipe)`: a task without recipe is static and done from creation. */
    method NewTask(name: string, path: string, dependencies: seq<TaskId>, isStatic: bool) returns (id: TaskId)
      requires Valid() && ValidIds(tasks, dependencies)
      modifies this
      ensures Valid()
      ensures id == |old(tasks)|
      ensures tasks == old(tasks) + [Task(name, path, dependencies, isStatic)]
      ensures isDone == old(isDone) + [isStatic]
      ensures recipeRuns == old(recipeRuns) + [0]
    {
      id := |tasks|;
      tasks := tasks + [Task(name, path, dependencies, isStatic)];
      isDone := isDone + [isStatic];
      recipeRuns := recipeRuns + [0];
    }

    /** Appending to a task's dependency list after creation. */
    method AddDependency(id: TaskId, dependency: TaskId)
      requires Valid() && id < |tasks| && dependency < |tasks|
      modifies this
      ensures Valid()
      ensures tasks == old(tasks)[id := old(tasks)[id].(dependencies := old(tasks)[id].dependencies + [dependency])]
      ensures isDone == old(isDone) && recipeRuns == old(recipeRuns)
    {
      tasks := tasks[id := tasks[id].(dependencies := tasks[id].dependencies + [dependency])];
    }

    /**
     * `Task.Execute`: a static task refuses; a done task does nothing; otherwise the
     * recipe runs once and the task is done when the recipe returns. The dependencies
     * are never executed. Nothing but this task's flag and counter changes.
     */
    method Execute(id: TaskId, recipe: RecipeOutcome) returns (r: Execution)
      requires Valid() && id < |tasks|
      modifies this
      ensures Valid() && tasks == old(tasks)
      ensures old(tasks[id].isStatic) ==>
        (r == NotExecutable(StaticTaskExecuted(tasks[id].name)) && isDone == old(isDone) && recipeRuns == old(recipeRuns))
      ensures !old(tasks[id].isStatic) && old(isDone[id]) ==>
        (r == Executed(false) && isDone == old(isDone) && recipeRuns == old(recipeRuns))
      ensures !old(tasks[id].isStatic) && !old(isDone[id]) ==>
        && recipeRuns == old(recipeRuns)[id := old(recipeRuns[id]) + 1]
        && isDone == old(isDone)[id := recipe.Returns?]
        && r == (if recipe.Returns? then Executed(true) else RecipeRaised(recipe.exception))
    {
      if tasks[id].isStatic {
        return NotExecutable(StaticTaskExecuted(tasks[id].name));
      }
      if isDone[id] {
        return Executed(false);
      }
      recipeRuns := recipeRuns[id := recipeRuns[id] + 1];
      if recipe.Returns? {
        isDone := isDone[id := true];
        r := Executed(true);
      } else {
        r := RecipeRaised(recipe.exception);
      }
    }
  }

  /**
   * A builder registers tasks into an arena under keys made of the optional
   * output sub-directory and the task name. A dynamic task's output lives at
   * the output directory joined with its key.
   */
  class Builder {
    const arena: TaskArena
    const outputDirectory: string
    const outputSubdirectory: Option<string>
    var registered: map<string, TaskId>

    ghost predicate Valid()
      reads this, arena
    {
      && arena.Valid()
      && forall key :: key in registered ==> Registered(arena.tasks, key, registered[key])
    }

    /** The task at `id` is the one registered under `key`. */
    ghost predicate Registered(g: Graph, key: string, id: TaskId)
      reads this
    {
      && id < |g|
      && g[id].name == key
      && (!g[id].isStatic ==> g[id].path == PathJoin(outputDirectory, key))
    }

    /** The registration key of a task name: the name inside the output sub-directory, if any. */
    function Key(name: string): (key: string)
      reads this
      ensures outputSubdirectory.None? ==> key == name
      ensures outputSubdirectory.Some? ==> EndsWith(key, name)
      ensures outputSubdirectory.Some? && outputSubdirectory.value != [] && outputSubdirectory.value[|outputSubdirectory.value| - 1] != '/' ==>
        (name == [] || name[0] != '/') ==> key == outputSubdirectory.value + "/" + name
    {
      match outputSubdirectory
      case None => name
      case Some(sub) => PathJoin(sub, name)
    }

    /**
     * Inside a relative output sub-directory a name is registered as `sub/name`, never
     * as the bare name, and a name that already starts with `sub/` is nested
     * once more: `hello.py` becomes `subdir/hello.py` and `subdir/hello.py`
     * becomes `subdir/subdir/hello.py`.
     */
    lemma SubdirectoryKeys(sub: string, name: string)
      requires outputSubdirectory == Some(sub) && sub != [] && sub[0] != '/' && sub[|sub| - 1] != '/'
      requires name == [] || name[0] != '/'
      ensures Key(name) == sub + "/" + name && Key(name) != name
      ensures Key(sub + "/" + name) == sub + "/" + sub + "/" + name
    {
      var nested := sub + "/" + name;
      assert nested[0] == sub[0];
      assert Key(nested) == sub + "/" + nested;
      assert sub + "/" + nested == sub + "/" + sub + "/" + name;
    }

    constructor(arena: TaskArena, outputDirectory: string, outputSubdirectory: Option<string>)
      requires arena.Valid()
      ensures Valid() && registered == map[]
      ensures this.arena == arena && this.outputDirectory == outputDirectory
      ensures this.outputSubdirectory == outputSubdirectory
    {
      this.arena := arena;
      this.outputDirectory := outputDirectory;
      this.outputSubdirectory := outputSubdirectory;
      registered := map[];
    }

    /**
     * `Builder.CreateStaticTask`: a static task over an existing file, registered
     * under the key of `name`. The file must exist and the key must be free.
     */
    method CreateStaticTask(name: string, existingPath: string, files: set<string>) returns (r: Result<TaskId, TaskError>)
      requires Valid()
      modifies this, arena
      ensures Valid()
      ensures existingPath !in files ==> r == Failure(StaticFileMissing(existingPath))
      ensures existingPath in files && Key(name) in old(registered) ==> r == Failure(DuplicateTask(Key(name)))
      ensures r.Failure? ==> registered == old(registered) && unchanged(arena)
      ensures existingPath in files && Key(name) !in old(registered) ==>
        && r == Success(|old(arena.tasks)|)
        && arena.tasks == old(arena.tasks) + [Task(Key(name), existingPath, [], true)]
        && arena.isDone == old(arena.isDone) + [true]
        && arena.recipeRuns == old(arena.recipeRuns) + [0]
        && registered == old(registered)[Key(name) := r.value]
    {
      var key := Key(name);
      if existingPath !in files {
        return Failure(StaticFileMissing(existingPath));
      }
      if key in registered {
        return Failure(DuplicateTask(key));
      }
      var id := arena.NewTask(key, existingPath, [], true);
      registered := registered[key := id];
      r := Success(id);
    }

    /**
     * `Builder.RegisterTask`: a dynamic task producing the output directory joined
     * with the key of `name`. A taken key is an error, except that with `merge`
     * the existing dynamic task is returned as is; merging onto a static task is
     * an error.
     */
    method RegisterTask(name: string, dependencies: seq<TaskId>, merge: bool) returns (r: Result<TaskId, TaskError>)
      requires Valid() && ValidIds(arena.tasks, dependencies)
      modifies this, arena
      ensures Valid()
      ensures Key(name) in old(registered) ==>
        && registered == old(registered) && unchanged(arena)
        && r == (if !merge then Failure(DuplicateTask(Key(name)))
                 else if arena.tasks[old(registered)[Key(name)]].isStatic then Failure(MergeOntoStaticTask(Key(name)))
                 else Success(old(registered)[Key(name)]))
      ensures Key(name) !in old(registered) ==>
        && r == Success(|old(arena.tasks)|)
        && arena.tasks == old(arena.tasks) + [Task(Key(name), PathJoin(outputDirectory, Key(name)), dependencies, false)]
        && arena.isDone == old(arena.isDone) + [false]
        && arena.recipeRuns == old(arena.recipeRuns) + [0]
        && registered == old(registered)[Key(name) := r.value]
    {
      var key := Key(name);
      if key in registered {
        var existing := registered[key];
        if !merge {
          return Failure(DuplicateTask(key));
        }
        if arena.tasks[existing].isStatic {
          return Failure(MergeOntoStaticTask(key));
        }
        return Success(existing);
      }
      var id := arena.NewTask(key, PathJoin(outputDirectory, key), dependencies, false);
      registered := registered[key := id];
      r := Success(id);
    }
  }
}
