/**
 * gulpfile.js, lines 56-435: the gulp task registry. `gulp.task(name, fn)` registers a
 * task under a name (a later registration replaces an earlier one); `gulp.series(...)`
 * looks its names up when it is built, fails with "Task never defined" on a missing
 * one, and runs the tasks it captured one after the other. `build`, `dist` and `test`
 * are such series; what they run comes out as their list of leaf tasks.
 */
module Series {
  import opened Wrappers
  import opened Js

  /** A registered task: a task function, or a series of the tasks it captured. */
  datatype Task = Leaf(name: string) | Sequential(steps: seq<Task>)

  datatype SeriesError = TaskNeverDefined(name: string)

  type Registry = map<string, Task>

  /** The task functions a task runs, in order. */
  function Leaves(t: Task): seq<string>
    decreases t
  {
    match t
    case Leaf(name) => [name]
    case Sequential(steps) => LeavesAll(steps)
  }

  function LeavesAll(ts: seq<Task>): seq<string>
    decreases ts
  {
    if ts == [] then [] else Leaves(ts[0]) + LeavesAll(ts[1..])
  }

  /** Running `a` and then `b` in one series runs what `a` runs and then what `b` runs. */
  lemma {:induction false} LeavesAllAppend(a: seq<Task>, b: seq<Task>)
    ensures LeavesAll(a + b) == LeavesAll(a) + LeavesAll(b)
    decreases |a|
  {
    if a == [] {
      assert a + b == b;
    } else {
      assert (a + b)[0] == a[0] && (a + b)[1..] == a[1..] + b;
      LeavesAllAppend(a[1..], b);
    }
  }

  /** A series nested inside a series runs the same leaves as its steps spliced in place. */
  lemma SeriesFlattens(before: seq<Task>, inner: seq<Task>, after: seq<Task>)
    ensures Leaves(Sequential(before + [Sequential(inner)] + after)) == LeavesAll(before + inner + after)
  {
    LeavesAllAppend(before + [Sequential(inner)], after);
    LeavesAllAppend(before, [Sequential(inner)]);
    LeavesAllAppend(before + inner, after);
    LeavesAllAppend(before, inner);
    assert LeavesAll([Sequential(inner)]) == Leaves(Sequential(inner)) + LeavesAll([]);
  }

  /** The leaves of the tasks registered under `names`, one after the other. */
  function LeavesOfNames(registry: Registry, names: seq<string>): seq<string>
    requires forall n :: n in names ==> n in registry
    decreases |names|
  {
    if names == [] then [] else Leaves(registry[names[0]]) + LeavesOfNames(registry, names[1..])
  }

  /** The lookup `gulp.series(...names)` does: the registered tasks, or the first missing name. */
  function LookupAll(registry: Registry, names: seq<string>): (r: Result<seq<Task>, SeriesError>)
    ensures r.Ok? <==> forall n :: n in names ==> n in registry
    ensures r.Ok? ==> |r.value| == |names| && LeavesAll(r.value) == LeavesOfNames(registry, names)
    ensures r.Err? ==> r.error.name in names && r.error.name !in registry
    decreases |names|
  {
    if names == [] then Ok([])
    else if names[0] !in registry then Err(TaskNeverDefined(names[0]))
    else
      match LookupAll(registry, names[1..])
      case Err(e) => Err(e)
      case Ok(rest) =>
        assert ([registry[names[0]]] + rest)[1..] == rest;
        Ok([registry[names[0]]] + rest)
  }

  /** `gulp.task(name, gulp.series(...names))`. gulp itself also rejects an empty
      series; the gulpfile never builds one, and that check is not modelled. */
  function DefineSeries(registry: Registry, name: string, names: seq<string>): (r: Result<Registry, SeriesError>)
    ensures r.Ok? <==> forall n :: n in names ==> n in registry
    ensures r.Ok? ==> r.value.Keys == registry.Keys + {name}
    ensures r.Ok? ==> forall n :: n in registry && n != name ==> r.value[n] == registry[n]
    ensures r.Ok? ==> Leaves(r.value[name]) == LeavesOfNames(registry, names)
  {
    match LookupAll(registry, names)
    case Err(e) => Err(e)
    case Ok(steps) => Ok(registry[name := Sequential(steps)])
  }

  /** The task functions the gulpfile registers, in the order it registers them. */
  const TaskFunctions: seq<string> := [
    "run", "clean:nwjs", "default", "nwjs", "nsis", "deb", "compress", "portable",
    "clean:mediainfo", "npm:clean_modules", "build:prune", "jshint"
  ]

  const BuildSteps: seq<string> := ["npm:clean_modules", "nwjs", "clean:mediainfo", "clean:nwjs", "build:prune"]
  const DistSteps: seq<string> := ["build", "compress", "deb", "nsis", "portable"]
  const TestSteps: seq<string> := ["jshint", "build"]

  /** The registry once the whole gulpfile has run (lines 56-435). */
  function GulpfileTasks(): (r: Result<Registry, SeriesError>)
    ensures r.Ok? ==> r.value.Keys == (set n | n in TaskFunctions) + {"build", "dist", "test"}
  {
    var functions := map n | n in TaskFunctions :: Leaf(n);
    match DefineSeries(functions, "build", BuildSteps)
    case Err(e) => Err(e)
    case Ok(withBuild) =>
      match DefineSeries(withBuild, "dist", DistSteps)
      case Err(e) => Err(e)
      case Ok(withDist) => DefineSeries(withDist, "test", TestSteps)
  }

  /** Every series in the gulpfile names tasks registered before it, so the registry is
      built without error, and `build`, `dist` and `test` run these task functions, in
      this order. */
  lemma GulpfileSeries()
    ensures GulpfileTasks().Ok?
    ensures Leaves(GulpfileTasks().value["build"]) == BuildSteps
    ensures Leaves(GulpfileTasks().value["dist"]) == BuildSteps + Packagers
    ensures Leaves(GulpfileTasks().value["test"]) == ["jshint"] + BuildSteps
  {
    var functions := map n | n in TaskFunctions :: Leaf(n);
    var withBuild := RegisterBuild(functions);
    var withDist := RegisterDist(withBuild);
    RegisterTest(withDist);
  }

  /** The task functions `dist` and `test` name besides `build`. */
  const Packagers: seq<string> := ["compress", "deb", "nsis", "portable"]

  /** `n` is registered as the task function of that name. */
  predicate HoldsLeaf(registry: Registry, n: string) {
    n in registry && registry[n] == Leaf(n)
  }

  /** The registry of task functions is a parameter fixed by `requires`, so that the
      verifier does not expand the map comprehension wherever it is mentioned. */
  lemma RegisterBuild(functions: Registry) returns (withBuild: Registry)
    requires functions == map n | n in TaskFunctions :: Leaf(n)
    ensures DefineSeries(functions, "build", BuildSteps) == Ok(withBuild)
    ensures "build" in withBuild && Leaves(withBuild["build"]) == BuildSteps
    ensures forall n :: n in Packagers ==> HoldsLeaf(withBuild, n)
    ensures HoldsLeaf(withBuild, "jshint")
  {
    withBuild := BuildLeaves(functions);
    BuildKeepsFunctions(functions, withBuild, "compress");
    BuildKeepsFunctions(functions, withBuild, "deb");
    BuildKeepsFunctions(functions, withBuild, "nsis");
    BuildKeepsFunctions(functions, withBuild, "portable");
    BuildKeepsFunctions(functions, withBuild, "jshint");
  }

  lemma BuildLeaves(functions: Registry) returns (withBuild: Registry)
    requires functions == map n | n in TaskFunctions :: Leaf(n)
    ensures DefineSeries(functions, "build", BuildSteps) == Ok(withBuild)
    ensures "build" in withBuild && Leaves(withBuild["build"]) == BuildSteps
  {
    assert forall n :: n in BuildSteps ==> n in TaskFunctions;
    withBuild := DefineSeries(functions, "build", BuildSteps).value;
    LeavesOfLeafNames(functions, BuildSteps);
  }

  /** Defining `build` leaves each other task function registered. */
  lemma BuildKeepsFunctions(functions: Registry, withBuild: Registry, n: string)
    requires functions == map n | n in TaskFunctions :: Leaf(n)
    requires DefineSeries(functions, "build", BuildSteps) == Ok(withBuild)
    requires n in TaskFunctions && n != "build"
    ensures HoldsLeaf(withBuild, n)
  {
  }

  lemma RegisterDist(withBuild: Registry) returns (withDist: Registry)
    requires "build" in withBuild && Leaves(withBuild["build"]) == BuildSteps
    requires forall n :: n in Packagers ==> HoldsLeaf(withBuild, n)
    requires HoldsLeaf(withBuild, "jshint")
    ensures DefineSeries(withBuild, "dist", DistSteps) == Ok(withDist)
    ensures Leaves(withDist["dist"]) == BuildSteps + Packagers
    ensures "build" in withDist && withDist["build"] == withBuild["build"]
    ensures HoldsLeaf(withDist, "jshint")
  {
    withDist := DistLeaves(withBuild);
    DistKeepsTasks(withBuild, withDist);
  }

  lemma DistKeepsTasks(withBuild: Registry, withDist: Registry)
    requires "build" in withBuild && HoldsLeaf(withBuild, "jshint")
    requires DefineSeries(withBuild, "dist", DistSteps) == Ok(withDist)
    ensures "build" in withDist && withDist["build"] == withBuild["build"]
    ensures HoldsLeaf(withDist, "jshint")
  {
  }

  lemma DistLeaves(withBuild: Registry) returns (withDist: Registry)
    requires "build" in withBuild && Leaves(withBuild["build"]) == BuildSteps
    requires forall n :: n in Packagers ==> HoldsLeaf(withBuild, n)
    ensures DefineSeries(withBuild, "dist", DistSteps) == Ok(withDist)
    ensures Leaves(withDist["dist"]) == BuildSteps + Packagers
  {
    assert DistSteps == ["build"] + Packagers;
    withDist := DefineSeries(withBuild, "dist", DistSteps).value;
    LeavesOfLeafNames(withBuild, Packagers);
    assert LeavesOfNames(withBuild, DistSteps) == Leaves(withBuild["build"]) + LeavesOfNames(withBuild, Packagers);
  }

  lemma RegisterTest(withDist: Registry)
    requires "build" in withDist && Leaves(withDist["build"]) == BuildSteps
    requires HoldsLeaf(withDist, "jshint")
    ensures DefineSeries(withDist, "test", TestSteps).Ok?
    ensures Leaves(DefineSeries(withDist, "test", TestSteps).value["test"]) == ["jshint"] + BuildSteps
  {
    assert TestSteps[1..] == ["build"] && TestSteps[1..][1..] == [];
    assert LeavesOfNames(withDist, TestSteps) == ["jshint"] + BuildSteps + [];
  }

  /** None of `dist` and `test` runs a task function twice. */
  lemma GulpfileSeriesRunEachOnce()
    ensures GulpfileTasks().Ok?
    ensures NoDuplicates(Leaves(GulpfileTasks().value["dist"]))
    ensures NoDuplicates(Leaves(GulpfileTasks().value["test"]))
  {
    GulpfileSeries();
    DistinctLeaves(Leaves(GulpfileTasks().value["dist"]));
    DistinctLeaves(Leaves(GulpfileTasks().value["test"]));
  }

  lemma DistinctLeaves(leaves: seq<string>)
    requires leaves == BuildSteps + Packagers || leaves == ["jshint"] + BuildSteps
    ensures NoDuplicates(leaves)
  {
  }

  /** Names registered as task functions run just themselves. */
  lemma {:induction false} LeavesOfLeafNames(registry: Registry, names: seq<string>)
    requires forall n :: n in names ==> n in registry && registry[n] == Leaf(n)
    ensures LeavesOfNames(registry, names) == names
    decreases |names|
  {
    if names != [] {
      LeavesOfLeafNames(registry, names[1..]);
      assert names == [names[0]] + names[1..];
    }
  }
}
