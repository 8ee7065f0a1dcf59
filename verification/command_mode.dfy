/** The name-to-creator registry of the command-object interpreter. The registry is
    a process-wide singleton in the source; here it is a value that registration
    returns updated. */
module CommandFactory {
  import opened Wrappers

  /** The registered creators, each turning an argument list into a command. */
  datatype Factory<C> = Factory(registry: map<string, seq<string> -> C>)

  /** `registerCommand`: installs `creator` under `name`, replacing any earlier one. */
  function RegisterCommand<C>(f: Factory<C>, name: string, creator: seq<string> -> C): (g: Factory<C>)
    ensures g.registry.Keys == f.registry.Keys + {name}
    ensures forall n :: n in f.registry && n != name ==> g.registry[n] == f.registry[n]
    ensures g.registry[name] == creator
  {
    Factory(f.registry[name := creator])
  }

  /** `create`: the command the creator registered under `name` builds from `args`,
      or null when nothing is registered under it. */
  function Create<C>(f: Factory<C>, name: string, args: seq<string>): (r: Option<C>)
    ensures r.None? <==> name !in f.registry
    ensures r.Some? ==> r.value == f.registry[name](args)
  {
    if name in f.registry then Some(f.registry[name](args)) else None
  }

  /** The last registration under a name is the one `create` uses. */
  lemma LastRegistrationWins<C>(f: Factory<C>, name: string, first: seq<string> -> C,
                                second: seq<string> -> C, args: seq<string>)
    ensures Create(RegisterCommand(RegisterCommand(f, name, first), name, second), name, args) == Some(second(args))
  {
  }

  /** Registering one name changes what `create` does for no other name. */
  lemma RegisterLeavesOthers<C>(f: Factory<C>, name: string, creator: seq<string> -> C,
                                other: string, args: seq<string>)
    requires other != name
    ensures Create(RegisterCommand(f, name, creator), other, args) == Create(f, other, args)
  {
  }

  /** Registering the creator a name already has changes nothing. */
  lemma RegisterSameIsNoOp<C>(f: Factory<C>, name: string)
    requires name in f.registry
    ensures RegisterCommand(f, name, f.registry[name]) == f
  {
    assert f.registry[name := f.registry[name]] == f.registry;
  }
}

/** The command-object interpreter (`safeShell/commandMode-MultipleFile`): three
    command classes built through the factory, each with a dry-run `execute`
    (`TRY_RUN` is a file-local `true` that nothing assigns), and a script loop that,
    like the first single-file interpreter, only logs failing lines. */
module CommandMode {
  import opened Wrappers
  import opened Text
  import opened CommandFactory
  import SafeShellV1

  /** The three command objects, holding the fields their constructors set. */
  datatype Command =
    | Rm(target: string)
    | Mkdir(path: string, owner: string, perm: string)
    | Cp(src: string, dst: string)

  /** `RmCommand(args)`: the target is the first argument, or empty without one. */
  function NewRm(args: seq<string>): (c: Command)
    ensures c.Rm?
    ensures args != [] ==> c.target == args[0]
    ensures args == [] ==> c.target == ""
  {
    Rm(if args != [] then args[0] else "")
  }

  /** `MkdirCommand(args)`: path, owner and permissions from the first three
      arguments, each empty when missing. */
  function NewMkdir(args: seq<string>): (c: Command)
    ensures c.Mkdir?
    ensures c.path == (if |args| > 0 then args[0] else "")
    ensures c.owner == (if |args| > 1 then args[1] else "")
    ensures c.perm == (if |args| > 2 then args[2] else "")
  {
    Mkdir(if args != [] then args[0] else "",
          if |args| > 1 then args[1] else "",
          if |args| > 2 then args[2] else "")
  }

  /** `CpCommand(args)`: source and destination are set together, and only when
      there are at least two arguments. */
  function NewCp(args: seq<string>): (c: Command)
    ensures c.Cp?
    ensures |args| >= 2 ==> c.src == args[0] && c.dst == args[1]
    ensures |args| < 2 ==> c.src == "" && c.dst == ""
  {
    if |args| >= 2 then Cp(args[0], args[1]) else Cp("", "")
  }

  /** The constructors read only the leading arguments: extra ones are ignored. */
  lemma ExtraArgumentsIgnored(args: seq<string>, extra: seq<string>)
    ensures |args| >= 1 ==> NewRm(args + extra) == NewRm(args)
    ensures |args| >= 3 ==> NewMkdir(args + extra) == NewMkdir(args)
    ensures |args| >= 2 ==> NewCp(args + extra) == NewCp(args)
  {
  }

  /** `execute(commandMap)` in dry-run mode: the verdict and the map afterwards. */
  datatype Executed = Executed(ok: bool, commandMap: map<string, string>)

  /** `execute`: a command with an empty required field fails; otherwise the dry run
      succeeds with no effect. Owner and permissions are never checked, and the map
      is handed back untouched. */
  function Execute(c: Command, commandMap: map<string, string>): (r: Executed)
    ensures r.commandMap == commandMap
    ensures c.Rm? ==> (r.ok <==> c.target != "")
    ensures c.Mkdir? ==> (r.ok <==> c.path != "")
    ensures c.Cp? ==> (r.ok <==> c.src != "" && c.dst != "")
  {
    match c
    case Rm(target) => Executed(target != "", commandMap)
    case Mkdir(path, _, _) => Executed(path != "", commandMap)
    case Cp(src, dst) => Executed(src != "" && dst != "", commandMap)
  }

  /** What each built command does with the arguments it was built from. */
  lemma ExecuteBuilt(args: seq<string>, commandMap: map<string, string>)
    ensures Execute(NewRm(args), commandMap).ok <==> args != [] && args[0] != ""
    ensures Execute(NewMkdir(args), commandMap).ok <==> args != [] && args[0] != ""
    ensures Execute(NewCp(args), commandMap).ok <==> |args| >= 2 && args[0] != "" && args[1] != ""
  {
  }

  /** The three registrations `executeScript` makes on every call. */
  function RegisterBuiltins(f: Factory<Command>): (g: Factory<Command>)
    ensures g.registry.Keys == f.registry.Keys + {"rm", "mkdir", "cp"}
  {
    RegisterCommand(RegisterCommand(RegisterCommand(f, "rm", NewRm), "mkdir", NewMkdir), "cp", NewCp)
  }

  /** Registering the built-in commands a second time leaves the registry as it was. */
  lemma RegisterBuiltinsIdempotent(f: Factory<Command>)
    ensures RegisterBuiltins(RegisterBuiltins(f)) == RegisterBuiltins(f)
  {
    var g := RegisterBuiltins(f);
    assert RegisterBuiltins(g).registry == g.registry;
  }

  /** The line outcome and the map after it. */
  function ParseLine(line: string, f: Factory<Command>, commandMap: map<string, string>): (r: Executed)
    ensures r.commandMap == commandMap
    ensures CharAt(line, 0) == ' ' ==> r.ok
  {
    if CharAt(line, 0) == ' ' then Executed(true, commandMap)
    else
      var ts := Tokens(line);
      var cmd := if ts == [] then "" else ts[0];
      var args := if ts == [] then [] else ts[1..];
      match Create(f, cmd, args)
      case None => Executed(false, commandMap)
      case Some(c) => Execute(c, commandMap)
  }

  /** With the built-ins registered (and nothing under the empty name), a line not
      led by a space succeeds exactly when its first token is `rm` or `mkdir` with
      an argument, or `cp` with two; other names are looked up in the registry. */
  lemma ParseLineBuiltins(line: string, f: Factory<Command>, commandMap: map<string, string>)
    requires "" !in f.registry
    requires CharAt(line, 0) != ' '
    ensures var ts := Tokens(line);
      var r := ParseLine(line, RegisterBuiltins(f), commandMap);
      && (ts == [] ==> !r.ok)
      && (ts != [] && ts[0] in {"rm", "mkdir"} ==> (r.ok <==> |ts| >= 2))
      && (ts != [] && ts[0] == "cp" ==> (r.ok <==> |ts| >= 3))
      && (ts != [] && ts[0] !in {"rm", "mkdir", "cp"} && ts[0] !in f.registry ==> !r.ok)
  {
    var ts := Tokens(line);
    if |ts| >= 2 { assert ts[1] in ts; }
    if |ts| >= 3 { assert ts[2] in ts; }
  }

  datatype Report = Report(ok: bool, results: seq<bool>, factory: Factory<Command>)

  /** The `while (std::getline(...))` loop after registration. */
  function ExecuteLines(lines: seq<string>, firstLine: bool, f: Factory<Command>,
                        commandMap: map<string, string>): (r: Report)
    ensures r.factory == f
    ensures !firstLine ==> r.ok
  {
    if lines == [] then Report(true, [], f)
    else if lines[0] == [] then ExecuteLines(lines[1..], firstLine, f, commandMap)
    else if firstLine then
      if lines[0] != SafeShellV1.Shebang then Report(false, [], f)
      else ExecuteLines(lines[1..], false, f, commandMap)
    else
      var e := ParseLine(lines[0], f, commandMap);
      var rest := ExecuteLines(lines[1..], false, f, e.commandMap);
      Report(rest.ok, [e.ok] + rest.results, f)
  }

  /** `executeScript` on the lines of an opened file: register the built-ins into
      the shared factory, then run the lines with a fresh, empty map. */
  function ExecuteScript(lines: seq<string>, f: Factory<Command>): (r: Report)
    ensures r.factory == RegisterBuiltins(f)
  {
    ExecuteLines(lines, true, RegisterBuiltins(f), map[])
  }

  /** Each line's own outcome. */
  function ParseEach(lines: seq<string>, f: Factory<Command>): (r: seq<bool>)
    ensures |r| == |lines|
    ensures forall k :: 0 <= k < |lines| ==> r[k] == ParseLine(lines[k], f, map[]).ok
  {
    if lines == [] then [] else [ParseLine(lines[0], f, map[]).ok] + ParseEach(lines[1..], f)
  }

  lemma {:induction false} AfterHeader(lines: seq<string>, f: Factory<Command>)
    ensures ExecuteLines(lines, false, f, map[]) == Report(true, ParseEach(SafeShellV1.NonEmpty(lines), f), f)
  {
    if lines != [] {
      AfterHeader(lines[1..], f);
      if lines[0] != [] {
        assert SafeShellV1.NonEmpty(lines) == [lines[0]] + SafeShellV1.NonEmpty(lines[1..]);
        assert ParseEach(SafeShellV1.NonEmpty(lines), f)
            == [ParseLine(lines[0], f, map[]).ok] + ParseEach(SafeShellV1.NonEmpty(lines[1..]), f);
      }
    }
  }

  lemma {:induction false} ExecuteLinesSpec(lines: seq<string>, f: Factory<Command>)
    ensures var r := ExecuteLines(lines, true, f, map[]);
      var ne := SafeShellV1.NonEmpty(lines);
      && (r.ok <==> ne == [] || ne[0] == SafeShellV1.Shebang)
      && (r.ok ==> r.results == ParseEach(if ne == [] then [] else ne[1..], f))
  {
    if lines != [] {
      if lines[0] == [] {
        ExecuteLinesSpec(lines[1..], f);
      } else if lines[0] == SafeShellV1.Shebang {
        AfterHeader(lines[1..], f);
        assert SafeShellV1.NonEmpty(lines) == [lines[0]] + SafeShellV1.NonEmpty(lines[1..]);
      }
    }
  }

  /** A run succeeds exactly when the first non-empty line is the header (or there
      is none), whatever the later lines do; each later non-empty line runs on its
      own against the registry with the built-ins installed. Running a script again
      leaves the registry as the first run left it. */
  lemma ExecuteScriptSpec(lines: seq<string>, more: seq<string>, f: Factory<Command>)
    ensures var r := ExecuteScript(lines, f);
      var ne := SafeShellV1.NonEmpty(lines);
      && (r.ok <==> ne == [] || ne[0] == SafeShellV1.Shebang)
      && (r.ok ==> r.results == ParseEach(if ne == [] then [] else ne[1..], RegisterBuiltins(f)))
      && ExecuteScript(more, r.factory).factory == r.factory
  {
    ExecuteLinesSpec(lines, RegisterBuiltins(f));
    RegisterBuiltinsIdempotent(f);
  }
}
