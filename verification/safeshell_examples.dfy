/** Worked scripts run through the 2.0 interpreter, each proved from the general
    lemmas about splitting, tokenising, substitution and dispatch. */
module SafeShellExamples {
  import opened Wrappers
  import opened Text
  import opened Placeholders
  import opened SafeShell

  const AssignLine: string := "NAME=cache"
  const RmLine: string := "rm /tmp/${NAME}"

  /** The three lines of the first example are cut apart as written. */
  lemma ExampleLines()
    ensures GetlineSplit(Shebang + "\n" + AssignLine + "\n" + RmLine, '\n') == [Shebang, AssignLine, RmLine]
  {
    var ps := [Shebang, AssignLine, RmLine];
    assert Join(ps[2..], '\n') == RmLine;
    assert Join(ps[1..], '\n') == AssignLine + "\n" + RmLine;
    assert Join(ps, '\n') == Shebang + "\n" + AssignLine + "\n" + RmLine;
    GetlineSplitJoin(ps, '\n');
  }

  lemma AssignLineShape()
    ensures IsAssignmentAt(AssignLine, 4) && AssignLine[..4] == "NAME" && AssignLine[5..] == "cache"
  {
    assert AssignLine[..4] == "NAME";
    assert AssignLine[5..] == "cache";
    assert IsVarName("NAME");
  }

  lemma AssignTrimmed()
    ensures Trim(AssignLine) == AssignLine
  {
    TrimUntouched(AssignLine);
  }

  lemma AssignParses(env: map<string, string>)
    ensures ParseLine(AssignLine, 2, map[], env, "") == LineResult(None, map["NAME" := "cache"], "")
  {
    AssignLineShape();
    ParseLineAssignment(AssignLine, 4, 2, map[], env, "");
  }

  /** `NAME=cache` stores `cache` under `NAME`. */
  lemma ExampleAssign(env: map<string, string>)
    ensures Trim(AssignLine) == AssignLine
    ensures ParseLine(AssignLine, 2, map[], env, "") == LineResult(None, map["NAME" := "cache"], "")
  {
    AssignTrimmed();
    AssignParses(env);
  }

  lemma RmLineTokens()
    ensures Tokens(RmLine) == ["rm", "/tmp/${NAME}"]
  {
    var ts := ["rm", "/tmp/${NAME}"];
    assert IsWord(ts[0]) && IsWord(ts[1]);
    assert Unwords(ts) == RmLine;
    TokensOfUnwords(ts);
  }

  lemma RmLineExpands(resolve: string -> Option<string>)
    requires resolve("NAME") == Some("cache")
    ensures Expand("/tmp/${NAME}", resolve) == Success("/tmp/cache")
  {
    var ps := [Lit("/tmp/"), Ref("NAME")];
    assert WellFormed(ps[0]) && WellFormed(ps[1]);
    WellFormedParses(ps);
    assert Show(ps) == "/tmp/${NAME}";
    ExpandShow(ps, resolve);
    assert ps[1..] == [Ref("NAME")] && ps[1..][1..] == [];
    assert Render(ps[1..][1..], resolve) == Success([]);
    assert "cache" + [] == "cache";
    assert Render(ps[1..], resolve) == Success("cache");
    assert "/tmp/" + "cache" == "/tmp/cache";
  }

  lemma SubstituteSingle(a: string, vars: map<string, string>, env: map<string, string>)
    requires Expand(a, Lookup(vars, env)).Success?
    ensures SubstituteArgs([a], vars, env) == Success([Expand(a, Lookup(vars, env)).value])
  {
    var v := Expand(a, Lookup(vars, env)).value;
    assert [a][1..] == [];
    assert SubstituteArgs([a][1..], vars, env) == Success([]);
    assert [v] + [] == [v];
  }

  /** A line with no assignment shape whose tokens and substituted arguments are
      known parses to exactly that command. */
  lemma CommandLine(line: string, lineNum: nat, vars: map<string, string>, env: map<string, string>,
                    name: string, raw: seq<string>, args: seq<string>)
    requires '=' !in line
    requires Tokens(line) == [name] + raw
    requires SubstituteArgs(raw, vars, env) == Success(args)
    ensures ParseLine(line, lineNum, vars, env, "") == LineResult(Some(Command(lineNum, name, args)), vars, "")
  {
    assert IndexOf(line, '=') == None;
    assert Tokens(line)[1..] == raw;
  }

  /** One turn of the parse loop over a line that is not passed over. */
  lemma BodyStep(lines: seq<string>, lineNum: nat, vars: map<string, string>, env: map<string, string>)
    requires lines != [] && !Skipped(Trim(lines[0]))
    ensures ParseBody(lines, lineNum, vars, env, "")
         == AfterLine(ParseLine(Trim(lines[0]), lineNum + 1, vars, env, ""), lines[1..], lineNum, env)
  {
  }

  const RmCommand: Command := Command(3, "rm", ["/tmp/cache"])

  lemma RmTrimmed()
    ensures Trim(RmLine) == RmLine
  {
    TrimUntouched(RmLine);
  }

  lemma RmSubstitutes(env: map<string, string>)
    ensures SubstituteArgs(["/tmp/${NAME}"], map["NAME" := "cache"], env) == Success(["/tmp/cache"])
  {
    var vars := map["NAME" := "cache"];
    RmLineExpands(Lookup(vars, env));
    SubstituteSingle("/tmp/${NAME}", vars, env);
  }

  lemma RmHasNoEquals()
    ensures '=' !in RmLine
  {
  }

  lemma RmParses(env: map<string, string>)
    ensures ParseLine(RmLine, 3, map["NAME" := "cache"], env, "") == LineResult(Some(RmCommand), map["NAME" := "cache"], "")
  {
    RmHasNoEquals();
    RmLineTokens();
    RmSubstitutes(env);
    assert ["rm", "/tmp/${NAME}"] == ["rm"] + ["/tmp/${NAME}"];
    CommandLine(RmLine, 3, map["NAME" := "cache"], env, "rm", ["/tmp/${NAME}"], ["/tmp/cache"]);
  }

  /** `rm /tmp/${NAME}` becomes the command `rm` with the argument `/tmp/cache`. */
  lemma ExampleRm(env: map<string, string>)
    ensures Trim(RmLine) == RmLine
    ensures ParseLine(RmLine, 3, map["NAME" := "cache"], env, "") == LineResult(Some(RmCommand), map["NAME" := "cache"], "")
  {
    RmTrimmed();
    RmParses(env);
  }

  /** A body of one line that parses to one command, with the message left empty. */
  lemma BodyOfOneCommand(line: string, lineNum: nat, vars: map<string, string>, env: map<string, string>, c: Command)
    requires !Skipped(Trim(line))
    requires c.lineNum == lineNum + 1
    requires ParseLine(Trim(line), lineNum + 1, vars, env, "") == LineResult(Some(c), vars, "")
    ensures ParseBody([line], lineNum, vars, env, "") == ParseOutcome(Some([c]), "")
  {
    BodyStep([line], lineNum, vars, env);
    assert [line][1..] == [];
    LastCommand(c, vars, lineNum, env);
  }

  /** A command from the last line is kept, and the parse ends there. */
  lemma LastCommand(c: Command, vars: map<string, string>, lineNum: nat, env: map<string, string>)
    requires c.lineNum == lineNum + 1
    ensures AfterLine(LineResult(Some(c), vars, ""), [], lineNum, env) == ParseOutcome(Some([c]), "")
  {
    assert ParseBody([], lineNum + 1, vars, env, "") == ParseOutcome(Some([]), "");
    assert [c] + [] == [c];
  }

  lemma ExampleBodyFromRm(env: map<string, string>)
    ensures ParseBody([RmLine], 2, map["NAME" := "cache"], env, "") == ParseOutcome(Some([RmCommand]), "")
  {
    ExampleRm(env);
    assert !Skipped(RmLine);
    BodyOfOneCommand(RmLine, 2, map["NAME" := "cache"], env, RmCommand);
  }

  lemma ExampleBody(env: map<string, string>)
    ensures ParseBody([AssignLine, RmLine], 1, map[], env, "") == ParseOutcome(Some([RmCommand]), "")
  {
    ExampleAssign(env);
    assert !Skipped(AssignLine);
    BodyStep([AssignLine, RmLine], 1, map[], env);
    assert [AssignLine, RmLine][1..] == [RmLine];
    ExampleBodyFromRm(env);
  }

  lemma ExampleParse(env: map<string, string>)
    ensures ParseScript(Shebang + "\n" + AssignLine + "\n" + RmLine, map[], env, "") == ParseOutcome(Some([RmCommand]), "")
  {
    ExampleLines();
    assert StartsWith(Shebang, Shebang);
    FindZeroIffPrefix(Shebang, Shebang);
    assert [Shebang, AssignLine, RmLine][1..] == [AssignLine, RmLine];
    ExampleBody(env);
  }

  /** A variable assigned on one line is substituted on a later one: the first script
      removes `/tmp/cache`, and succeeds when the OS lets it. */
  lemma ExampleRemoveCache(host: Host)
    requires host.os([], RemoveAll("/tmp/cache")).Done?
    ensures Execute(Shebang + "\n" + AssignLine + "\n" + RmLine, host, "")
         == Outcome(true, "", [RemoveAll("/tmp/cache")])
  {
    ExampleParse(host.env);
    var e := RemoveAll("/tmp/cache");
    assert HandleRm(RmCommand.args, host, []) == Step(Pass, [e]);
    assert Dispatch(RmCommand, host, []) == Step(Pass, [e]);
    assert [RmCommand][1..] == [];
    assert ExecuteCommands([], host, [e], "") == Outcome(true, "", [e]);
  }

  /** Without the assignment, `NAME` is known neither to the script nor, here, to
      the environment, so the argument of the `rm` line does not expand. */
  lemma RmArgumentUnresolved(env: map<string, string>)
    requires "NAME" !in env
    ensures Expand("/tmp/${NAME}", Lookup(map[], env)) == Failure("NAME")
  {
    var ps := [Lit("/tmp/"), Ref("NAME")];
    assert WellFormed(ps[0]) && WellFormed(ps[1]);
    WellFormedParses(ps);
    assert Show(ps) == "/tmp/${NAME}";
    ExpandShow(ps, Lookup(map[], env));
    assert ps[1..] == [Ref("NAME")];
    assert Render(ps[1..], Lookup(map[], env)) == Failure("NAME");
  }

  /** The `rm` line read first, with `NAME` unset, is a line the parse stops at. */
  lemma RmLineUnknownName(env: map<string, string>)
    requires "NAME" !in env
    ensures UnknownNameAt([], RmLine, 1, map[], env, "NAME")
  {
    RmTrimmed();
    RmLineTokens();
    RmHasNoEquals();
    assert !Skipped(RmLine);
    forall i: nat ensures !IsAssignmentAt(RmLine, i) {
      if 0 < i < |RmLine| { assert RmLine[i] in RmLine; }
    }
    RmArgumentUnresolved(env);
    assert ["rm", "/tmp/${NAME}"][1..] == ["/tmp/${NAME}"];
    assert SubstituteArgs(["/tmp/${NAME}"], map[], env) == Failure("NAME");
  }

  /** The second script, the header and the `rm` line alone, fails at line 2 with
      the unknown-variable message, before any OS call. */
  lemma ExampleUnknownName(host: Host)
    requires "NAME" !in host.env
    ensures Execute(Shebang + "\n" + RmLine, host, "") == Outcome(false, UnresolvedMessage(2, "NAME"), [])
  {
    UnknownNameLines();
    StartsWithItself(Shebang);
    RmLineUnknownName(host.env);
    UnresolvedNameRunsNothing(Shebang + "\n" + RmLine, Shebang, [], RmLine, [], 1, host, "NAME");
  }

  lemma UnknownNameLines()
    ensures GetlineSplit(Shebang + "\n" + RmLine, '\n') == [Shebang] + ([] + ([RmLine] + []))
  {
    var ps := [Shebang, RmLine];
    assert Join(ps[1..], '\n') == RmLine;
    assert Join(ps, '\n') == Shebang + "\n" + RmLine;
    GetlineSplitJoin(ps, '\n');
    assert ps == [Shebang] + ([] + ([RmLine] + []));
  }

  lemma StartsWithItself(s: string)
    ensures StartsWith(s, s)
  {
  }
}
