/** Task-name resolution of the dashboard (ui/app.py): the three benchmark tasks it can launch,
    and the legacy aliases it accepts for them. */
module Tasks {
  import opened Wrappers
  import PyValue

  /** Canonical task name to the task's entry file, relative to the source root. */
  const TaskFiles: map<string, string> := map[
    "telemath" := "benchmarks/telemath/telemath.py",
    "teleqna" := "benchmarks/teleqna/teleqna.py",
    "telelogs" := "benchmarks/telelogs/telelogs.py"
  ]

  /** Legacy name to canonical name. */
  const TaskAliases: map<string, string> := map[
    "telecom_bench" := "telemath",
    "teleqna_bench" := "teleqna",
    "telelogs_bench" := "telelogs"
  ]

  function UnsupportedTask(name: string): string {
    "Unsupported task: " + name
  }

  /** `_resolve_task_name`: an alias resolves to its canonical name, a canonical name to itself,
      and any other name is rejected with a message naming it. */
  function Resolve(name: string): (r: Result<string, string>)
    ensures r.Success? <==> name in TaskFiles || name in TaskAliases
    ensures r.Success? ==> r.value in TaskFiles
    ensures name in TaskFiles ==> r == Success(name)
    ensures name in TaskAliases ==> r == Success(TaskAliases[name])
    ensures r.Failure? ==> r.error == UnsupportedTask(name)
  {
    var resolved := if name in TaskAliases then TaskAliases[name] else name;
    if resolved in TaskFiles then Success(resolved) else Failure(UnsupportedTask(name))
  }

  /** `_resolve_task_name` applied to whatever JSON value a request carries: only a string can equal
      a key of the alias and task tables, so every other value is rejected, named by its `str`. */
  function ResolveValue(v: PyValue.Value): (r: Result<string, string>)
    ensures r.Success? <==> v.Str? && (v.s in TaskFiles || v.s in TaskAliases)
    ensures r.Success? ==> r.value in TaskFiles && r == Resolve(v.s)
    ensures r.Failure? ==> r.error == UnsupportedTask(PyValue.Render(v))
  {
    if v.Str? then Resolve(v.s) else Failure(UnsupportedTask(PyValue.Render(v)))
  }

  /** Resolving is idempotent: a resolved name resolves to itself. */
  lemma ResolveIdempotent(name: string)
    requires Resolve(name).Success?
    ensures Resolve(Resolve(name).value) == Resolve(name)
  {
  }

  /** The aliases named in the source map to these canonical tasks. */
  lemma AliasTargets()
    ensures Resolve("telecom_bench") == Success("telemath")
    ensures Resolve("teleqna_bench") == Success("teleqna")
    ensures Resolve("telelogs_bench") == Success("telelogs")
  {
  }
}
