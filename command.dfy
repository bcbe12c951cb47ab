/** The command-line builder of the dashboard (`_build_command` in ui/app.py): the argument list
    that launches one evaluation of one model on one task. */
module Command {
  import opened Wrappers
  import opened PyValue
  import Tasks
  import Text

  /** The option bag of a run; every entry is the request body's value, `Null` when absent. */
  datatype Options = Options(
    difficulty: Value,
    limit: Value,
    maxConnections: Value,
    maxTokens: Value,
    temperature: Value)

  /** The arguments that every command starts with; `inspect` is the evaluator executable. */
  function BaseArgs(inspect: string, taskFile: string, model: string): (r: seq<string>)
    ensures |r| == BaseLength
  {
    [inspect, "eval", taskFile,
     "--display", "log",
     "--log-level", "info",
     "--log-level-transcript", "info",
     "--log-format", "json",
     "--model", model]
  }

  const BaseLength: nat := 13

  /** A difficulty is passed only to the math task, only when truthy, and never the sentinel "full". */
  predicate DifficultyApplies(task: string, d: Value) {
    Truthy(d) && task == "telemath" && d != Str("full")
  }

  /** The temperature is passed whenever it is neither `None` nor `""`, so a zero temperature is passed. */
  predicate TemperatureGiven(t: Value) {
    t != Null && t != Str("")
  }

  /** A flag with its value when `v` is truthy, nothing otherwise. */
  function FlagIfTruthy(name: string, v: Value): (r: seq<string>)
    ensures |r| % 2 == 0
  {
    if Truthy(v) then [name, Render(v)] else []
  }

  /** The conditional tail of the command, built piece by piece as the source extends its list. */
  function OptionalArgs(task: string, o: Options): (r: seq<string>)
    ensures |r| % 2 == 0 && |r| <= 10
  {
    var temperature := if TemperatureGiven(o.temperature) then ["--temperature", Render(o.temperature)] else [];
    var tokens := FlagIfTruthy("--max-tokens", o.maxTokens) + temperature;
    var connections := FlagIfTruthy("--max-connections", o.maxConnections) + tokens;
    var limit := FlagIfTruthy("--limit", o.limit) + connections;
    (if DifficultyApplies(task, o.difficulty) then ["-T", "difficulty=" + Render(o.difficulty)] else []) + limit
  }

  /** `_build_command`: resolve the task (failing as resolution fails), then the fixed prefix,
      then the optional flags. */
  function Build(inspect: string, taskName: string, model: string, o: Options): (r: Result<seq<string>, string>)
    ensures r.Failure? <==> Tasks.Resolve(taskName).Failure?
    ensures r.Failure? ==> r.error == Tasks.UnsupportedTask(taskName)
    ensures r.Success? ==>
      && |r.value| >= BaseLength
      && r.value[..BaseLength] == BaseArgs(inspect, Tasks.TaskFiles[Tasks.Resolve(taskName).value], model)
  {
    match Tasks.Resolve(taskName)
    case Failure(e) => Failure(e)
    case Success(task) =>
      var base := BaseArgs(inspect, Tasks.TaskFiles[task], model);
      var r := base + OptionalArgs(task, o);
      assert r[..BaseLength] == base;
      Success(r)
  }

  // ---------------------------------------------------------------------------------------------
  // Reading a command back: the flag/value pairs of its tail.

  /** The value following the first occurrence of `flag` among the pairs of `args`. */
  function Lookup(args: seq<string>, flag: string): Option<string>
    decreases |args|
  {
    if |args| < 2 then None
    else if args[0] == flag then Some(args[1])
    else Lookup(args[2..], flag)
  }

  /** The flag names of the pairs of `args`, in order. */
  function Flags(args: seq<string>): seq<string>
    decreases |args|
  {
    if |args| < 2 then [] else [args[0]] + Flags(args[2..])
  }

  /** The five optional flags. */
  datatype Flag = Difficulty | Limit | MaxConnections | MaxTokens | Temperature

  function Name(f: Flag): (r: string)
    ensures |r| >= 2
  {
    match f
    case Difficulty => "-T"
    case Limit => "--limit"
    case MaxConnections => "--max-connections"
    case MaxTokens => "--max-tokens"
    case Temperature => "--temperature"
  }

  /** The flags in the order the builder considers them. */
  const FlagOrder: seq<Flag> := [Difficulty, Limit, MaxConnections, MaxTokens, Temperature]

  /** What the command must carry for `f`, given the resolved task and the options. */
  function Expected(task: string, o: Options, f: Flag): Option<string> {
    match f
    case Difficulty => if DifficultyApplies(task, o.difficulty) then Some("difficulty=" + Render(o.difficulty)) else None
    case Limit => if Truthy(o.limit) then Some(Render(o.limit)) else None
    case MaxConnections => if Truthy(o.maxConnections) then Some(Render(o.maxConnections)) else None
    case MaxTokens => if Truthy(o.maxTokens) then Some(Render(o.maxTokens)) else None
    case Temperature => if TemperatureGiven(o.temperature) then Some(Render(o.temperature)) else None
  }

  /** The names of the flags of `fs` that the command must carry, keeping their order. */
  function Emitted(task: string, o: Options, fs: seq<Flag>): seq<string> {
    if fs == [] then []
    else (if Expected(task, o, fs[0]).Some? then [Name(fs[0])] else []) + Emitted(task, o, fs[1..])
  }

  lemma NameInjective(f: Flag, g: Flag)
    ensures Name(f) == Name(g) ==> f == g
  {
  }

  lemma {:induction false} LookupConcat(a: seq<string>, b: seq<string>, flag: string)
    requires |a| % 2 == 0
    ensures Lookup(a + b, flag) == if Lookup(a, flag).Some? then Lookup(a, flag) else Lookup(b, flag)
    decreases |a|
  {
    if |a| >= 2 {
      assert (a + b)[2..] == a[2..] + b;
      if a[0] != flag {
        LookupConcat(a[2..], b, flag);
      }
    } else {
      assert a + b == b;
    }
  }

  lemma {:induction false} FlagsConcat(a: seq<string>, b: seq<string>)
    requires |a| % 2 == 0
    ensures Flags(a + b) == Flags(a) + Flags(b)
    decreases |a|
  {
    if |a| >= 2 {
      assert (a + b)[2..] == a[2..] + b;
      FlagsConcat(a[2..], b);
    } else {
      assert a + b == b;
    }
  }

  /** The piece of the tail for flag `f`. */
  function Piece(task: string, o: Options, f: Flag): (r: seq<string>)
    ensures |r| % 2 == 0
  {
    var v := Expected(task, o, f);
    if v.Some? then [Name(f), v.value] else []
  }

  lemma PieceMeaning(task: string, o: Options, f: Flag, g: Flag)
    ensures Lookup(Piece(task, o, f), Name(g)) == if f == g then Expected(task, o, f) else None
    ensures Flags(Piece(task, o, f)) == if Expected(task, o, f).Some? then [Name(f)] else []
  {
    NameInjective(f, g);
    if Expected(task, o, f).Some? {
      assert Piece(task, o, f)[2..] == [];
    }
  }

  /** The source's conditional pieces are exactly the expected ones. */
  lemma OptionalArgsArePieces(task: string, o: Options)
    ensures OptionalArgs(task, o) == Pieces(task, o)
  {
    assert Piece(task, o, Difficulty)
      == if DifficultyApplies(task, o.difficulty) then ["-T", "difficulty=" + Render(o.difficulty)] else [];
    assert Piece(task, o, Limit) == FlagIfTruthy("--limit", o.limit);
    assert Piece(task, o, MaxConnections) == FlagIfTruthy("--max-connections", o.maxConnections);
    assert Piece(task, o, MaxTokens) == FlagIfTruthy("--max-tokens", o.maxTokens);
    assert Piece(task, o, Temperature)
      == if TemperatureGiven(o.temperature) then ["--temperature", Render(o.temperature)] else [];
  }

  /** All five pieces, in the builder's order. */
  function Pieces(task: string, o: Options): seq<string> {
    Piece(task, o, Difficulty) + (Piece(task, o, Limit) + (Piece(task, o, MaxConnections)
    + (Piece(task, o, MaxTokens) + Piece(task, o, Temperature))))
  }

  /** The flag names one flag contributes. */
  function EmittedOne(task: string, o: Options, f: Flag): seq<string> {
    if Expected(task, o, f).Some? then [Name(f)] else []
  }

  lemma EmittedInOrder(task: string, o: Options)
    ensures Emitted(task, o, FlagOrder)
      == EmittedOne(task, o, Difficulty) + (EmittedOne(task, o, Limit) + (EmittedOne(task, o, MaxConnections)
         + (EmittedOne(task, o, MaxTokens) + EmittedOne(task, o, Temperature))))
  {
    var fo := FlagOrder;
    assert fo[4..][1..] == [] && fo[3..][1..] == fo[4..] && fo[2..][1..] == fo[3..] && fo[1..][1..] == fo[2..];
    assert Emitted(task, o, fo[4..]) == EmittedOne(task, o, Temperature);
    assert Emitted(task, o, fo[3..]) == EmittedOne(task, o, MaxTokens) + Emitted(task, o, fo[4..]);
    assert Emitted(task, o, fo[2..]) == EmittedOne(task, o, MaxConnections) + Emitted(task, o, fo[3..]);
    assert Emitted(task, o, fo[1..]) == EmittedOne(task, o, Limit) + Emitted(task, o, fo[2..]);
    assert Emitted(task, o, fo) == EmittedOne(task, o, Difficulty) + Emitted(task, o, fo[1..]);
  }

  lemma FlagsOfPieces(task: string, o: Options)
    ensures Flags(Pieces(task, o))
      == Flags(Piece(task, o, Difficulty)) + (Flags(Piece(task, o, Limit)) + (Flags(Piece(task, o, MaxConnections))
         + (Flags(Piece(task, o, MaxTokens)) + Flags(Piece(task, o, Temperature)))))
  {
    var p1, p2, p3, p4, p5 := Piece(task, o, Difficulty), Piece(task, o, Limit),
      Piece(task, o, MaxConnections), Piece(task, o, MaxTokens), Piece(task, o, Temperature);
    FlagsConcat(p4, p5);
    FlagsConcat(p3, p4 + p5);
    FlagsConcat(p2, p3 + (p4 + p5));
    FlagsConcat(p1, p2 + (p3 + (p4 + p5)));
  }

  lemma PiecesFlags(task: string, o: Options)
    ensures Flags(Pieces(task, o)) == Emitted(task, o, FlagOrder)
  {
    FlagsOfPieces(task, o);
    EmittedInOrder(task, o);
    PieceMeaning(task, o, Difficulty, Difficulty);
    PieceMeaning(task, o, Limit, Limit);
    PieceMeaning(task, o, MaxConnections, MaxConnections);
    PieceMeaning(task, o, MaxTokens, MaxTokens);
    PieceMeaning(task, o, Temperature, Temperature);
  }

  lemma PiecesLookup(task: string, o: Options, g: Flag)
    ensures Lookup(Pieces(task, o), Name(g)) == Expected(task, o, g)
  {
    var p1, p2, p3, p4, p5 := Piece(task, o, Difficulty), Piece(task, o, Limit),
      Piece(task, o, MaxConnections), Piece(task, o, MaxTokens), Piece(task, o, Temperature);
    PieceMeaning(task, o, Difficulty, g);
    PieceMeaning(task, o, Limit, g);
    PieceMeaning(task, o, MaxConnections, g);
    PieceMeaning(task, o, MaxTokens, g);
    PieceMeaning(task, o, Temperature, g);
    LookupConcat(p4, p5, Name(g));
    LookupConcat(p3, p4 + p5, Name(g));
    LookupConcat(p2, p3 + (p4 + p5), Name(g));
    LookupConcat(p1, p2 + (p3 + (p4 + p5)), Name(g));
  }

  /** The optional tail of a built command carries exactly the expected flags, in the builder's
      fixed order, each followed by its expected value. */
  lemma OptionalArgsMeaning(task: string, o: Options)
    ensures Flags(OptionalArgs(task, o)) == Emitted(task, o, FlagOrder)
    ensures forall f :: Lookup(OptionalArgs(task, o), Name(f)) == Expected(task, o, f)
  {
    OptionalArgsArePieces(task, o);
    PiecesFlags(task, o);
    forall g
      ensures Lookup(OptionalArgs(task, o), Name(g)) == Expected(task, o, g)
    {
      PiecesLookup(task, o, g);
    }
  }

  /** What a successful build means, read back from the argument list: the fixed prefix, then
      flag-value pairs, exactly the expected flags in the fixed order, each with its expected
      value. */
  lemma BuildMeaning(inspect: string, taskName: string, model: string, o: Options)
    requires Tasks.Resolve(taskName).Success?
    ensures var task := Tasks.Resolve(taskName).value;
      var cmd := Build(inspect, taskName, model, o).value;
      var tail := cmd[BaseLength..];
      && cmd[..BaseLength] == BaseArgs(inspect, Tasks.TaskFiles[task], model)
      && |tail| % 2 == 0
      && Flags(tail) == Emitted(task, o, FlagOrder)
      && (forall f :: Lookup(tail, Name(f)) == Expected(task, o, f))
  {
    var task := Tasks.Resolve(taskName).value;
    assert Build(inspect, taskName, model, o).value[BaseLength..] == OptionalArgs(task, o);
    OptionalArgsMeaning(task, o);
  }

  /** A zero temperature is passed, a zero limit is not, and "full" difficulty is never passed. */
  lemma ZeroTemperatureExample()
    ensures Build("inspect", "telecom_bench", "openai/gpt-4o", Options(Str("full"), Int(0), Null, Null, Int(0)))
      == Success(["inspect", "eval", "benchmarks/telemath/telemath.py",
                  "--display", "log", "--log-level", "info", "--log-level-transcript", "info",
                  "--log-format", "json", "--model", "openai/gpt-4o", "--temperature", "0"])
  {
    var o := Options(Str("full"), Int(0), Null, Null, Int(0));
    assert Tasks.Resolve("telecom_bench") == Success("telemath");
    assert Text.DigitChar(0) == '0';
    assert Render(Int(0)) == "0";
    assert !DifficultyApplies("telemath", o.difficulty) && !Truthy(o.limit) && TemperatureGiven(o.temperature);
    assert OptionalArgs("telemath", o) == ["--temperature", "0"];
    assert Tasks.TaskFiles["telemath"] == "benchmarks/telemath/telemath.py";
    assert Build("inspect", "telecom_bench", "openai/gpt-4o", o)
      == Success(BaseArgs("inspect", "benchmarks/telemath/telemath.py", "openai/gpt-4o") + ["--temperature", "0"]);
    assert BaseArgs("inspect", "benchmarks/telemath/telemath.py", "openai/gpt-4o") + ["--temperature", "0"]
      == ["inspect", "eval", "benchmarks/telemath/telemath.py",
          "--display", "log", "--log-level", "info", "--log-level-transcript", "info",
          "--log-format", "json", "--model", "openai/gpt-4o", "--temperature", "0"];
  }
}
