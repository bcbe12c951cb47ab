/** `load_env` and the token guard of src/telecom_bench/scripts/utils.py. The process environment
    is a map from names to values; a `.env` file is the sequence of its lines, and a candidate path
    that does not exist is `None`. */
module DotEnv {
  import opened Wrappers
  import Text

  /** One line of a `.env` file, read as `key=value`: the line is stripped; empty lines, comment
      lines and lines without `=` give nothing; otherwise the line splits at its first `=` and both
      halves are stripped. */
  function ParseLine(line: string): (r: Option<(string, string)>)
    ensures r.Some? ==> '=' !in r.value.0
  {
    var s := Text.Strip(line);
    if s == [] || s[0] == '#' || '=' !in s then None
    else
      var i := Text.IndexOf(s, '=');
      Text.StripChars(s[..i]);
      Some((Text.Strip(s[..i]), Text.Strip(s[i + 1..])))
  }

  /** Blank lines, comment lines and lines without `=` are ignored, and only those. */
  lemma ParseLineMeaning(line: string)
    ensures var s := Text.Strip(line);
      ParseLine(line).None? <==> s == [] || s[0] == '#' || '=' !in s
  {
  }

  /** A stripped line that splits as `p=q` with no `=` in `p` (and is no comment) gives the
      stripped halves: the split happens at the first `=`, so every later `=` stays in the value. */
  lemma ParseLineSplit(line: string, p: string, q: string)
    requires Text.Strip(line) == p + "=" + q && '=' !in p && (p == [] || p[0] != '#')
    ensures ParseLine(line) == Some((Text.Strip(p), Text.Strip(q)))
  {
    var s := Text.Strip(line);
    FirstEquals(p, q);
    assert s[..|p|] == p && s[|p| + 1..] == q;
  }

  /** The outcome of reading lines into an environment as the loop of `load_env` does, with
      `setdefault`: a name that is already set is left alone, and only an absent one is assigned.
      `os.environ` refuses to assign the empty name by raising, so a line with an empty key ends
      loading (`false`), keeping what was set before it, unless the empty name is already set;
      loading itself never sets it. */
  function Load(env: map<string, string>, lines: seq<string>): (r: (map<string, string>, bool))
    ensures "" in r.0 ==> "" in env
    decreases |lines|
  {
    if lines == [] then (env, true)
    else match ParseLine(lines[0])
      case None => Load(env, lines[1..])
      case Some((k, v)) =>
        if k == "" && k !in env then (env, false)
        else Load(if k in env then env else env[k := v], lines[1..])
  }

  /** The value of the first line that sets `k`. */
  function FirstValue(lines: seq<string>, k: string): Option<string>
    decreases |lines|
  {
    if lines == [] then None
    else match ParseLine(lines[0])
      case Some((k', v)) => if k' == k then Some(v) else FirstValue(lines[1..], k)
      case None => FirstValue(lines[1..], k)
  }

  /** Whether some line parses to an empty key. */
  predicate HasEmptyKey(lines: seq<string>)
    decreases |lines|
  {
    lines != [] && ((ParseLine(lines[0]).Some? && ParseLine(lines[0]).value.0 == "") || HasEmptyKey(lines[1..]))
  }

  /** Loading never overwrites a variable that is already set, and it succeeds exactly when the
      empty name is already set or no line has an empty key. */
  lemma {:induction false} LoadKeepsExisting(env: map<string, string>, lines: seq<string>)
    ensures forall k :: k in env ==> k in Load(env, lines).0 && Load(env, lines).0[k] == env[k]
    ensures Load(env, lines).1 <==> "" in env || !HasEmptyKey(lines)
    decreases |lines|
  {
    if lines != [] {
      match ParseLine(lines[0])
      case None => LoadKeepsExisting(env, lines[1..]);
      case Some((k, v)) =>
        if k != "" || k in env {
          LoadKeepsExisting(if k in env then env else env[k := v], lines[1..]);
        }
    }
  }

  /** After a successful load, a variable that was not set has the value of the first line naming
      it, and a variable no line names stays unset: within one file the first occurrence wins. */
  lemma {:induction false} LoadFirstWins(env: map<string, string>, lines: seq<string>, k: string)
    requires ("" in env || !HasEmptyKey(lines)) && k !in env
    ensures k in Load(env, lines).0 <==> FirstValue(lines, k).Some?
    ensures k in Load(env, lines).0 ==> Load(env, lines).0[k] == FirstValue(lines, k).value
    decreases |lines|
  {
    if lines != [] {
      match ParseLine(lines[0])
      case None => LoadFirstWins(env, lines[1..], k);
      case Some((k', v)) =>
        if k' == "" && k' !in env {
          assert false;
        } else {
          var env' := if k' in env then env else env[k' := v];
          if k' == k {
            LoadKeepsExisting(env', lines[1..]);
          } else {
            LoadFirstWins(env', lines[1..], k);
          }
        }
    }
  }

  /** A line written as `key=value` with clean halves reads back as that pair, whatever `=` or
      quotes the value holds. */
  lemma ParseCleanLine(key: string, value: string)
    requires key != [] && key[0] != '#' && '=' !in key
    requires !Text.IsSpace(key[0]) && !Text.IsSpace(key[|key| - 1])
    requires value == [] || (!Text.IsSpace(value[0]) && !Text.IsSpace(value[|value| - 1]))
    ensures ParseLine(key + "=" + value) == Some((key, value))
  {
    CleanJoin(key, value);
    Text.StripClean(key + "=" + value);
    ParseLineSplit(key + "=" + value, key, value);
    Text.StripClean(key);
    Text.StripClean(value);
  }

  lemma CleanJoin(key: string, value: string)
    requires key != [] && !Text.IsSpace(key[0])
    requires value == [] || !Text.IsSpace(value[|value| - 1])
    ensures var s := key + "=" + value; s != [] && s[0] == key[0] && !Text.IsSpace(s[0]) && !Text.IsSpace(s[|s| - 1])
  {
    var s := key + "=" + value;
    assert s[|s| - 1] == (if value == [] then '=' else value[|value| - 1]);
  }

  lemma FirstEquals(key: string, value: string)
    requires '=' !in key
    ensures '=' in key + "=" + value && Text.IndexOf(key + "=" + value, '=') == |key|
  {
    var s := key + "=" + value;
    assert s[|key|] == '=';
    assert forall j :: 0 <= j < |key| ==> s[j] == key[j];
  }

  /** `HF_TOKEN environment variable not set`, followed by the dataset's name. */
  const TokenHint := "HF_TOKEN environment variable not set. Please set it to access the gated "

  function MissingTokenMessage(dataset: string): string {
    TokenHint + dataset + " dataset. Get your token from: https://huggingface.co/settings/tokens"
  }

  /** The guard of `load_huggingface_dataset`: the token when `HF_TOKEN` is set and non-empty,
      otherwise the error, whose message names the dataset. */
  function RequireToken(env: map<string, string>, dataset: string): (r: Result<string, string>)
    ensures r.Failure? <==> "HF_TOKEN" !in env || env["HF_TOKEN"] == ""
    ensures r.Success? ==> r.value == env["HF_TOKEN"] && r.value != ""
    ensures r.Failure? ==> |r.error| > |TokenHint| + |dataset| && r.error[|TokenHint|..|TokenHint| + |dataset|] == dataset
  {
    if "HF_TOKEN" !in env || env["HF_TOKEN"] == "" then Failure(MissingTokenMessage(dataset))
    else Success(env["HF_TOKEN"])
  }

  /** The first candidate file that exists. */
  function FirstExisting(candidates: seq<Option<seq<string>>>): (r: Option<seq<string>>)
    ensures r.None? <==> forall i :: 0 <= i < |candidates| ==> candidates[i].None?
    ensures r.Some? ==> exists i :: (0 <= i < |candidates| && candidates[i] == r
      && forall j :: 0 <= j < i ==> candidates[j].None?)
  {
    if candidates == [] then None
    else if candidates[0].Some? then candidates[0]
    else
      var r := FirstExisting(candidates[1..]);
      assert forall i :: 1 <= i < |candidates| ==> candidates[i] == candidates[1..][i - 1];
      if r.Some? then
        var i :| 0 <= i < |candidates[1..]| && candidates[1..][i] == r
          && forall j :: 0 <= j < i ==> candidates[1..][j].None?;
        assert candidates[i + 1] == r;
        r
      else r
  }

  /** The process environment. */
  class Environment {
    var vars: map<string, string>

    constructor (vars: map<string, string>)
      ensures this.vars == vars
    {
      this.vars := vars;
    }

    /** The line loop of `load_env` over one file; `false` when a line with an empty key made the
        assignment of an absent name raise. */
    method LoadLines(lines: seq<string>) returns (ok: bool)
      modifies this
      ensures (vars, ok) == Load(old(vars), lines)
    {
      var i := 0;
      while i < |lines|
        invariant 0 <= i <= |lines|
        invariant Load(vars, lines[i..]) == Load(old(vars), lines)
      {
        assert lines[i..][1..] == lines[i + 1..];
        var entry := ParseLine(lines[i]);
        if entry.Some? {
          var (key, value) := entry.value;
          if key !in vars {
            if key == "" {
              return false;
            }
            vars := vars[key := value];
          }
        }
        i := i + 1;
      }
      return true;
    }

    /** `load_env`: only the first candidate that exists is read (the source passes two, the
        package's `.env` and then the repository's); when none exists nothing changes. */
    method LoadEnv(candidates: seq<Option<seq<string>>>) returns (ok: bool)
      modifies this
      ensures FirstExisting(candidates).None? ==> vars == old(vars) && ok
      ensures FirstExisting(candidates).Some? ==> (vars, ok) == Load(old(vars), FirstExisting(candidates).value)
    {
      var i := 0;
      while i < |candidates|
        invariant 0 <= i <= |candidates|
        invariant vars == old(vars)
        invariant FirstExisting(candidates) == FirstExisting(candidates[i..])
      {
        assert candidates[i..][1..] == candidates[i + 1..];
        if candidates[i].None? {
          i := i + 1;
          continue;
        }
        ok := LoadLines(candidates[i].value);
        return;
      }
      assert candidates[i..] == [];
      return true;
    }
  }
}
