/**
 * The interpreter of run.py: it seeds an environment map from the prefix, the
 * process environment and the `--env KEY=VALUE` arguments, then walks the
 * commands of the Dockerfile and acts on `ENV`, `RUN mkdir`, `COPY`, `WORKDIR`
 * and `ENTRYPOINT`. The effects on the outside world (the `mkdir` shell, the
 * tree copy, the build process) are recorded as actions instead of performed.
 * `Path.absolute()` depends on the process's working directory and is a
 * parameter of the model, `Context.absolute`.
 */
module Runner {
  import opened Wrappers
  import opened Text
  import opened Seqs
  import opened Dockerfile

  type Env = map<string, string>

  /** What the interpreter takes from outside: `str(Path(p).absolute())`, the
      `--prefix` argument and `os.environ`. */
  datatype Context = Context(absolute: string -> string, prefix: string, osEnv: Env)

  /** What the interpreter asks the operating system to do. */
  datatype Action =
    | Shell(command: string, env: Env)             // `RUN mkdir ...` in a shell
    | Copy(source: string, target: string)         // `rmtree(target)` then `copytree(source, target)`
    | Start(command: string, cwd: string, env: Env) // the `ENTRYPOINT` build process

  /** How `main` can fail: a `--env` argument that does not split into two
      parts (ValueError), a command with no field (ValueError on unpacking), an
      instruction missing the operand it reads (IndexError). */
  datatype Fault =
    | BadEnvArg(arg: string)
    | EmptyCommand(command: string)
    | MissingValue(command: string)

  /** `env`, `workdir` and the actions issued so far. */
  datatype State = State(env: Env, workdir: string, actions: seq<Action>)

  /** Where `main` stops: after the last command, or at a fault, with the state
      reached just before it. */
  datatype Outcome = Finished(state: State) | Crashed(fault: Fault, state: State)

  /** `with_prefix`: the prefix and the path are joined as strings, not as path
      components. */
  function WithPrefix(ctx: Context, path: string): string {
    ctx.absolute(ctx.prefix + path)
  }

  // ----- seeding the environment -----

  /** `env` before the `--env` arguments. */
  function Seed(ctx: Context): (env: Env)
    ensures env.Keys == {"PREFIX", "HOME"}
    ensures env["PREFIX"] == WithPrefix(ctx, "")
    ensures "HOME" in ctx.osEnv ==> env["HOME"] == ctx.osEnv["HOME"]
    ensures "HOME" !in ctx.osEnv ==> env["HOME"] == "/"
  {
    assert ctx.prefix + "" == ctx.prefix;
    map["PREFIX" := ctx.absolute(ctx.prefix)]["HOME" := if "HOME" in ctx.osEnv then ctx.osEnv["HOME"] else "/"]
  }

  datatype EnvPair = EnvPair(key: string, value: string)

  /** `key, value = env_var.split("=")`. */
  function EnvArg(arg: string): Option<EnvPair> {
    var parts := Split(arg, '=');
    if |parts| == 2 then Some(EnvPair(parts[0], parts[1])) else None
  }

  /** The `--env` loop: later arguments overwrite earlier ones and the seeded
      keys; the first malformed one stops `main`. */
  function AddEnvArgs(env: Env, args: seq<string>): (r: Result<Env, Fault>)
    ensures r.Failure? ==> r.error.BadEnvArg? && r.error.arg in args
  {
    if args == [] then Success(env)
    else
      match AddEnvArgs(env, args[..|args| - 1])
      case Failure(f) => Failure(f)
      case Success(e) =>
        var arg := args[|args| - 1];
        match EnvArg(arg)
        case None => Failure(BadEnvArg(arg))
        case Some(p) => Success(e[p.key := p.value])
  }

  /** An argument is accepted exactly when it holds one `=`. */
  lemma EnvArgCount(arg: string)
    ensures EnvArg(arg).Some? <==> Count(arg, '=') == 1
  {
    SplitCount(arg, '=');
  }

  /** `KEY=VALUE` gives back the key and the value when neither holds `=`. */
  lemma EnvArgJoin(key: string, value: string)
    requires '=' !in key && '=' !in value
    ensures EnvArg(key + "=" + value) == Some(EnvPair(key, value))
  {
    var ts := [key, value];
    assert ts[1..] == [value];
    assert Join(ts, '=') == key + "=" + value;
    SplitJoin(ts, '=');
  }

  /** An accepted argument is its key, `=`, and its value. */
  lemma EnvArgSplit(arg: string)
    requires EnvArg(arg).Some?
    ensures var p := EnvArg(arg).value; arg == p.key + "=" + p.value && '=' !in p.key && '=' !in p.value
  {
    var parts := Split(arg, '=');
    JoinSplit(arg, '=');
    assert parts[1..] == [parts[1]];
  }

  /** `main` gets past the `--env` loop exactly when every argument holds one
      `=`. */
  lemma {:induction false} AddEnvArgsOk(env: Env, args: seq<string>)
    ensures AddEnvArgs(env, args).Success? <==> forall i :: 0 <= i < |args| ==> Count(args[i], '=') == 1
  {
    if args != [] {
      var front, last := args[..|args| - 1], args[|args| - 1];
      AddEnvArgsOk(env, front);
      EnvArgCount(last);
      assert forall i :: 0 <= i < |front| ==> front[i] == args[i];
    }
  }

  lemma {:induction false} AddEnvArgsStops(env: Env, args: seq<string>, i: nat)
    requires i <= |args| && AddEnvArgs(env, args[..i]).Failure?
    ensures AddEnvArgs(env, args) == AddEnvArgs(env, args[..i])
    decreases |args|
  {
    if i == |args| {
      WholePrefix(args);
    } else {
      var front := args[..|args| - 1];
      assert front[..i] == args[..i];
      AddEnvArgsStops(env, front, i);
    }
  }

  /** The last `--env` argument for a key gives that key its value. */
  lemma {:induction false} LastArgWins(env: Env, args: seq<string>, i: nat)
    requires AddEnvArgs(env, args).Success?
    requires i < |args| && EnvArg(args[i]).Some?
    requires forall j :: i < j < |args| && EnvArg(args[j]).Some? ==> EnvArg(args[j]).value.key != EnvArg(args[i]).value.key
    ensures var p := EnvArg(args[i]).value; p.key in AddEnvArgs(env, args).value && AddEnvArgs(env, args).value[p.key] == p.value
  {
    var front, last := args[..|args| - 1], args[|args| - 1];
    if i < |args| - 1 {
      assert front[i] == args[i];
      assert forall j :: i < j < |front| ==> front[j] == args[j];
      LastArgWins(env, front, i);
    }
  }

  /** A seeded key that no argument names keeps its seeded value. */
  lemma {:induction false} SeedKept(env: Env, args: seq<string>, key: string)
    requires AddEnvArgs(env, args).Success? && key in env
    requires forall j :: 0 <= j < |args| && EnvArg(args[j]).Some? ==> EnvArg(args[j]).value.key != key
    ensures key in AddEnvArgs(env, args).value && AddEnvArgs(env, args).value[key] == env[key]
  {
    if args != [] {
      var front := args[..|args| - 1];
      assert forall j :: 0 <= j < |front| ==> front[j] == args[j];
      SeedKept(env, front, key);
    }
  }

  // ----- one command -----

  predicate IsQuote(c: char) { c == '"' || c == '\'' }

  predicate IsDollar(c: char) { c == '$' }

  /** The value an `ENV key raw` line stores: `raw` without surrounding quotes,
      made absolute under the prefix when the key names a directory. */
  function EnvValue(ctx: Context, key: string, raw: string): (v: string)
    ensures EndsWith(key, "_DIR") ==> v == WithPrefix(ctx, StripBy(raw, IsQuote))
    ensures !EndsWith(key, "_DIR") ==> StrippedFrom(raw, v, IsQuote)
    ensures !EndsWith(key, "_DIR") ==> (v == [] <==> All(raw, IsQuote))
    ensures !EndsWith(key, "_DIR") && v != [] ==> !IsQuote(v[0]) && !IsQuote(v[|v| - 1])
  {
    var value := StripBy(raw, IsQuote);
    if EndsWith(key, "_DIR") then WithPrefix(ctx, value) else value
  }

  /** A value written with any quotes around it is stored without them;
      `_DIR` values are then made absolute under the prefix. */
  lemma QuotedValue(ctx: Context, key: string, open: string, x: string, close: string)
    requires All(open, IsQuote) && All(close, IsQuote)
    requires x == [] || (!IsQuote(x[0]) && !IsQuote(x[|x| - 1]))
    ensures EnvValue(ctx, key, open + x + close) == if EndsWith(key, "_DIR") then WithPrefix(ctx, x) else x
  {
    StripAround(open, x, close, IsQuote);
  }

  /** The working directory a `WORKDIR arg` line selects. */
  function Workdir(env: Env, arg: string): string {
    var key := TrimStart(arg, IsDollar);
    if key in env then env[key] else arg
  }

  /** `WORKDIR KEY`, `WORKDIR $KEY` (or with more `$`s) resolves a key of the
      environment. */
  lemma WorkdirReference(env: Env, dollars: string, key: string)
    requires All(dollars, IsDollar) && key in env && (key == [] || key[0] != '$')
    ensures Workdir(env, dollars + key) == env[key]
  {
    SpanOfConcat(dollars, key, IsDollar);
    assert (dollars + key)[|dollars|..] == key;
  }

  /** A path whose name, `$`s dropped, is no key is taken literally, `$`s
      included. */
  lemma WorkdirLiteral(env: Env, dollars: string, path: string)
    requires All(dollars, IsDollar) && path !in env && (path == [] || path[0] != '$')
    ensures Workdir(env, dollars + path) == dollars + path
  {
    SpanOfConcat(dollars, path, IsDollar);
    assert (dollars + path)[|dollars|..] == path;
  }

  /** One turn of the dispatch loop of `main` (run.py lines 105-134). */
  function Step(ctx: Context, s: State, line: string): Result<State, Fault> {
    var fields := SplitWhitespace(line, 2);
    if fields == [] then Failure(EmptyCommand(line))
    else
      var cmd, values := fields[0], fields[1..];
      if cmd == "ENV" && values == [] then Failure(MissingValue(line))
      else if cmd == "ENV" && values[0] !in s.env then
        if |values| < 2 then Failure(MissingValue(line))
        else Success(s.(env := s.env[values[0] := EnvValue(ctx, values[0], values[1])]))
      else if cmd == "RUN" && values == [] then Failure(MissingValue(line))
      else if cmd == "RUN" && values[0] == "mkdir" then
        Success(s.(actions := s.actions + [Shell(Join(values, ' '), s.env)]))
      else if cmd == "COPY" then
        if |values| < 2 then Failure(MissingValue(line))
        else Success(s.(actions := s.actions + [Copy(values[0], WithPrefix(ctx, values[1]))]))
      else if cmd == "WORKDIR" then
        if values == [] then Failure(MissingValue(line))
        else Success(s.(workdir := Workdir(s.env, values[0])))
      else if cmd == "ENTRYPOINT" then
        if values == [] then Failure(MissingValue(line))
        else Success(s.(actions := s.actions + [Start(WithPrefix(ctx, values[0]), s.workdir, ctx.osEnv + s.env)]))
      else Success(s)
  }

  /** An `ENV` line splits into the command, the key and the rest. */
  lemma EnvFields(key: string, raw: string)
    requires Word(key) && Field(raw)
    ensures SplitWhitespace("ENV " + key + " " + raw, 2) == ["ENV", key, raw]
  {
    assert "ENV " + key + " " + raw == [] + "ENV" + " " + key + " " + raw;
    SplitThreeFields([], "ENV", " ", key, " ", raw);
  }

  /** `ENV KEY VALUE` sets a key not set before to the stored form of the
      whole rest of the line. */
  lemma EnvLine(ctx: Context, s: State, key: string, raw: string)
    requires Word(key) && Field(raw) && key !in s.env
    ensures Step(ctx, s, "ENV " + key + " " + raw) == Success(s.(env := s.env[key := EnvValue(ctx, key, raw)]))
  {
    EnvFields(key, raw);
  }

  /** A `WORKDIR` line splits into the command and its argument. */
  lemma WorkdirFields(arg: string)
    requires Word(arg)
    ensures SplitWhitespace("WORKDIR " + arg, 2) == ["WORKDIR", arg]
  {
    assert "WORKDIR " + arg == [] + "WORKDIR" + " " + arg + [];
    SplitTwoWords([], "WORKDIR", " ", arg, []);
  }

  /** `WORKDIR ARG` sets the working directory to what `ARG` selects. */
  lemma WorkdirLine(ctx: Context, s: State, arg: string)
    requires Word(arg)
    ensures Step(ctx, s, "WORKDIR " + arg) == Success(s.(workdir := Workdir(s.env, arg)))
  {
    WorkdirFields(arg);
    var values := SplitWhitespace("WORKDIR " + arg, 2)[1..];
    assert values == [arg];
    assert "WORKDIR" != "ENV" && "WORKDIR" != "RUN" && "WORKDIR" != "COPY";
  }

  /** `e2` holds every key of `e1` with the same value. */
  predicate Extends(e1: Env, e2: Env) {
    forall k :: k in e1 ==> k in e2 && e2[k] == e1[k]
  }

  /** A command never drops or changes a key already set, never takes back an
      action and issues at most one. */
  lemma StepExtends(ctx: Context, s: State, line: string)
    requires Step(ctx, s, line).Success?
    ensures var t := Step(ctx, s, line).value;
      Extends(s.env, t.env) && s.actions <= t.actions && |t.actions| <= |s.actions| + 1
  {
  }

  lemma StepEnvFrame(ctx: Context, s: State, line: string)
    requires Step(ctx, s, line).Success? && SplitWhitespace(line, 2)[0] != "ENV"
    ensures Step(ctx, s, line).value.env == s.env
  {
  }

  lemma StepWorkdirFrame(ctx: Context, s: State, line: string)
    requires Step(ctx, s, line).Success? && SplitWhitespace(line, 2)[0] != "WORKDIR"
    ensures Step(ctx, s, line).value.workdir == s.workdir
  {
  }

  lemma StepActionsFrame(ctx: Context, s: State, line: string)
    requires Step(ctx, s, line).Success?
    requires var cmd := SplitWhitespace(line, 2)[0]; cmd != "RUN" && cmd != "COPY" && cmd != "ENTRYPOINT"
    ensures Step(ctx, s, line).value.actions == s.actions
  {
  }

  /** Only `ENV` and `WORKDIR` touch the environment and the working directory,
      and only `RUN mkdir`, `COPY` and `ENTRYPOINT` issue actions. */
  lemma StepFrame(ctx: Context, s: State, line: string)
    requires Step(ctx, s, line).Success?
    ensures var cmd := SplitWhitespace(line, 2)[0]; var t := Step(ctx, s, line).value;
      && (cmd != "ENV" ==> t.env == s.env)
      && (cmd != "WORKDIR" ==> t.workdir == s.workdir)
      && (cmd != "RUN" && cmd != "COPY" && cmd != "ENTRYPOINT" ==> t.actions == s.actions)
  {
    var cmd := SplitWhitespace(line, 2)[0];
    if cmd != "ENV" { StepEnvFrame(ctx, s, line); }
    if cmd != "WORKDIR" { StepWorkdirFrame(ctx, s, line); }
    if cmd != "RUN" && cmd != "COPY" && cmd != "ENTRYPOINT" { StepActionsFrame(ctx, s, line); }
  }

  /** An `ENV` line has no effect the second time: its key is set by then. */
  lemma EnvOnce(ctx: Context, s: State, line: string)
    requires Step(ctx, s, line).Success? && SplitWhitespace(line, 2)[0] == "ENV"
    ensures Step(ctx, Step(ctx, s, line).value, line) == Step(ctx, s, line)
  {
    var t := Step(ctx, s, line).value;
    var values := SplitWhitespace(line, 2)[1..];
    assert values != [] && values[0] in t.env;
  }

  // ----- the dispatch loop -----

  /** `main`'s loop over the commands `cmds`, from the state `s`. */
  function Exec(ctx: Context, s: State, cmds: seq<string>): Outcome {
    if cmds == [] then Finished(s)
    else
      match Exec(ctx, s, cmds[..|cmds| - 1])
      case Crashed(f, t) => Crashed(f, t)
      case Finished(t) =>
        match Step(ctx, t, cmds[|cmds| - 1])
        case Failure(f) => Crashed(f, t)
        case Success(u) => Finished(u)
  }

  lemma {:induction false} ExecStops(ctx: Context, s: State, cmds: seq<string>, i: nat)
    requires i <= |cmds| && Exec(ctx, s, cmds[..i]).Crashed?
    ensures Exec(ctx, s, cmds) == Exec(ctx, s, cmds[..i])
    decreases |cmds|
  {
    if i == |cmds| {
      WholePrefix(cmds);
    } else {
      var front := cmds[..|cmds| - 1];
      assert front[..i] == cmds[..i];
      ExecStops(ctx, s, front, i);
    }
  }

  /** Over the whole loop the environment only gains keys, and actions are only
      appended, at most one per command. */
  lemma {:induction false} ExecExtends(ctx: Context, s: State, cmds: seq<string>)
    ensures var t := Exec(ctx, s, cmds).state;
      Extends(s.env, t.env) && s.actions <= t.actions && |t.actions| <= |s.actions| + |cmds|
  {
    if cmds != [] {
      var front := cmds[..|cmds| - 1];
      ExecExtends(ctx, s, front);
      match Exec(ctx, s, front)
      case Crashed(_, _) =>
      case Finished(t) =>
        if Step(ctx, t, cmds[|cmds| - 1]).Success? {
          StepExtends(ctx, t, cmds[|cmds| - 1]);
        }
    }
  }

  lemma StepNoEmptyCommand(ctx: Context, s: State, line: string)
    requires SplitWhitespace(line, 2) != []
    ensures Step(ctx, s, line).Failure? ==> !Step(ctx, s, line).error.EmptyCommand?
  {
  }

  /** Commands that all have a first field never stop the loop with
      `EmptyCommand`. */
  lemma {:induction false} ExecNoEmptyCommand(ctx: Context, s: State, cmds: seq<string>)
    requires forall i :: 0 <= i < |cmds| ==> SplitWhitespace(cmds[i], 2) != []
    ensures Exec(ctx, s, cmds).Crashed? ==> !Exec(ctx, s, cmds).fault.EmptyCommand?
  {
    if cmds != [] {
      var front := cmds[..|cmds| - 1];
      assert forall i :: 0 <= i < |front| ==> front[i] == cmds[i];
      ExecNoEmptyCommand(ctx, s, front);
      if Exec(ctx, s, front).Finished? {
        StepNoEmptyCommand(ctx, Exec(ctx, s, front).state, cmds[|cmds| - 1]);
      }
    }
  }

  /** What the Dockerfile reader yields always has a first field. */
  lemma CommandsHaveFields(lines: seq<string>)
    ensures forall i :: 0 <= i < |Commands(lines)| ==> SplitWhitespace(Commands(lines)[i], 2) != []
  {
    CommandsTrimmed(lines);
    forall i | 0 <= i < |Commands(lines)| ensures SplitWhitespace(Commands(lines)[i], 2) != [] {
      var c := Commands(lines)[i];
      assert Trimmed(c);
      assert !IsSpace(c[0]);
      SplitWhitespaceBlank(c, 2);
    }
  }

  // ----- the whole run -----

  /** `main` for the arguments `envArgs` and the Dockerfile contents `text`. */
  function Run(ctx: Context, envArgs: seq<string>, text: string): Outcome {
    match AddEnvArgs(Seed(ctx), envArgs)
    case Failure(f) => Crashed(f, State(Seed(ctx), "/", []))
    case Success(env) => Exec(ctx, State(env, "/", []), Commands(FileLines(text)))
  }

  /** `main` never fails on a command without fields: the reader only yields
      non-blank commands. */
  lemma RunNoEmptyCommand(ctx: Context, envArgs: seq<string>, text: string)
    ensures Run(ctx, envArgs, text).Crashed? ==> !Run(ctx, envArgs, text).fault.EmptyCommand?
  {
    if AddEnvArgs(Seed(ctx), envArgs).Success? {
      var lines := FileLines(text);
      CommandsHaveFields(lines);
      ExecNoEmptyCommand(ctx, State(AddEnvArgs(Seed(ctx), envArgs).value, "/", []), Commands(lines));
    }
  }

  /** `--env` values, `PREFIX` and `HOME` win over the Dockerfile's `ENV` lines:
      every key set before the loop keeps its value to the end. */
  lemma RunKeepsArgs(ctx: Context, envArgs: seq<string>, text: string)
    requires AddEnvArgs(Seed(ctx), envArgs).Success?
    ensures Extends(AddEnvArgs(Seed(ctx), envArgs).value, Run(ctx, envArgs, text).state.env)
  {
    ExecExtends(ctx, State(AddEnvArgs(Seed(ctx), envArgs).value, "/", []), Commands(FileLines(text)));
  }

  /** `key` is set to `value` in the environment, and in the environment of
      every process started so far. */
  predicate Carries(s: State, key: string, value: string) {
    && key in s.env && s.env[key] == value
    && forall a :: a in s.actions && !a.Copy? ==> key in a.env && a.env[key] == value
  }

  /** A command that succeeds keeps a key carried: it never overwrites a set
      key, and a process it starts gets the current environment. */
  lemma StepCarries(ctx: Context, s: State, line: string, key: string, value: string)
    requires Carries(s, key, value) && Step(ctx, s, line).Success?
    ensures Carries(Step(ctx, s, line).value, key, value)
  {
    var t := Step(ctx, s, line).value;
    StepExtends(ctx, s, line);
    forall a | a in t.actions && !a.Copy? ensures key in a.env && a.env[key] == value {
      if a !in s.actions {
        assert t.actions == s.actions + [a];
        assert (ctx.osEnv + s.env)[key] == value;
      }
    }
  }

  /** The dispatch loop keeps a key carried to its end. */
  lemma {:induction false} ExecCarries(ctx: Context, s: State, cmds: seq<string>, key: string, value: string)
    requires Carries(s, key, value)
    ensures Carries(Exec(ctx, s, cmds).state, key, value)
  {
    if cmds != [] {
      var front := cmds[..|cmds| - 1];
      ExecCarries(ctx, s, front, key, value);
      match Exec(ctx, s, front)
      case Crashed(_, _) =>
      case Finished(t) =>
        if Step(ctx, t, cmds[|cmds| - 1]).Success? {
          StepCarries(ctx, t, cmds[|cmds| - 1], key, value);
        }
    }
  }

  /** The last `--env KEY=VALUE` for a key is the value in the final
      environment, and in the environment of every `RUN mkdir` shell and
      `ENTRYPOINT` build process started. */
  lemma ArgValueFinal(ctx: Context, envArgs: seq<string>, text: string, i: nat)
    requires AddEnvArgs(Seed(ctx), envArgs).Success?
    requires i < |envArgs| && EnvArg(envArgs[i]).Some?
    requires forall j :: i < j < |envArgs| && EnvArg(envArgs[j]).Some? ==> EnvArg(envArgs[j]).value.key != EnvArg(envArgs[i]).value.key
    ensures var p := EnvArg(envArgs[i]).value; var t := Run(ctx, envArgs, text).state;
      && p.key in t.env && t.env[p.key] == p.value
      && forall a :: a in t.actions && (a.Shell? || a.Start?) ==> p.key in a.env && a.env[p.key] == p.value
  {
    var p := EnvArg(envArgs[i]).value;
    LastArgWins(Seed(ctx), envArgs, i);
    ExecCarries(ctx, State(AddEnvArgs(Seed(ctx), envArgs).value, "/", []), Commands(FileLines(text)), p.key, p.value);
  }

  /** The interpreter: `main` from the `--env` loop on, with the effects it
      would have recorded as actions. */
  method Interpret(ctx: Context, envArgs: seq<string>, text: string) returns (o: Outcome)
    ensures o == Run(ctx, envArgs, text)
  {
    var env: Env := map[];
    env := env["PREFIX" := ctx.absolute(ctx.prefix)];
    env := env["HOME" := if "HOME" in ctx.osEnv then ctx.osEnv["HOME"] else "/"];
    assert env == Seed(ctx);
    for i := 0 to |envArgs|
      invariant AddEnvArgs(Seed(ctx), envArgs[..i]) == Success(env)
    {
      PrefixStep(envArgs, i);
      var parts := Split(envArgs[i], '=');
      if |parts| != 2 {
        AddEnvArgsStops(Seed(ctx), envArgs, i + 1);
        return Crashed(BadEnvArg(envArgs[i]), State(Seed(ctx), "/", []));
      }
      env := env[parts[0] := parts[1]];
    }
    WholePrefix(envArgs);
    ghost var start := State(env, "/", []);

    var workdir := "/";
    var actions: seq<Action> := [];
    var cmds := DockerCommands(text);
    for j := 0 to |cmds|
      invariant Exec(ctx, start, cmds[..j]) == Finished(State(env, workdir, actions))
    {
      PrefixStep(cmds, j);
      var line := cmds[j];
      var fields := SplitWhitespace(line, 2);
      var fault: Option<Fault> := None;
      if fields == [] {
        fault := Some(EmptyCommand(line));
      } else {
        var cmd, values := fields[0], fields[1..];
        if cmd == "ENV" && values == [] {
          fault := Some(MissingValue(line));
        } else if cmd == "ENV" && values[0] !in env {
          if |values| < 2 {
            fault := Some(MissingValue(line));
          } else {
            var value := StripBy(values[1], IsQuote);
            if EndsWith(values[0], "_DIR") {
              value := WithPrefix(ctx, value);
            }
            env := env[values[0] := value];
          }
        } else if cmd == "RUN" && values == [] {
          fault := Some(MissingValue(line));
        } else if cmd == "RUN" && values[0] == "mkdir" {
          actions := actions + [Shell(Join(values, ' '), env)];
        } else if cmd == "COPY" {
          if |values| < 2 {
            fault := Some(MissingValue(line));
          } else {
            actions := actions + [Copy(values[0], WithPrefix(ctx, values[1]))];
          }
        } else if cmd == "WORKDIR" {
          if values == [] {
            fault := Some(MissingValue(line));
          } else {
            var key := TrimStart(values[0], IsDollar);
            workdir := if key in env then env[key] else values[0];
          }
        } else if cmd == "ENTRYPOINT" {
          if values == [] {
            fault := Some(MissingValue(line));
          } else {
            actions := actions + [Start(WithPrefix(ctx, values[0]), workdir, ctx.osEnv + env)];
          }
        }
      }
      if fault.Some? {
        ExecStops(ctx, start, cmds, j + 1);
        return Crashed(fault.value, State(env, workdir, actions));
      }
    }
    WholePrefix(cmds);
    o := Finished(State(env, workdir, actions));
  }
}
