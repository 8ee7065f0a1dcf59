/** The safe-shell interpreter, version 2.0: a header check, an all-or-nothing parse
    of the remaining lines into commands (with `${name}` substitution), then in-order
    dispatch through a fixed handler table that stops at the first failure.

    The environment is a map, and every OS call a handler makes is an `Effect`
    answered by an oracle that sees the calls made before it. The result of a run
    is the success flag, the error message and the trace of attempted OS calls. */
module SafeShell {
  import opened Wrappers
  import opened Text
  import opened Placeholders

  const Shebang: string := "#!safe_shell"

  /** A parsed command: where it came from, its name, its substituted arguments. */
  datatype Command = Command(lineNum: nat, name: string, args: seq<string>)

  /** The OS calls the handlers make. */
  datatype Effect =
    | RemoveAll(path: string)                              // fs::remove_all
    | CreateDirectories(path: string)                      // fs::create_directories
    | Chmod(path: string, mode: int)                       // chmod
    | GetUser(user: string)                                // getpwnam
    | GetGroup(group: string)                              // getgrnam
    | Chown(path: string, uid: int, gid: int)              // chown
    | System(command: string)                              // system("pkill ...")
    | JsonSet(file: string, pointer: string, value: string) // read, set at pointer, write back

  /** What the OS answers: success with a number (a uid, a gid, a return code), or a
      refusal with the reason the OS reports (an error code, a null entry). */
  datatype Reply = Done(value: int) | Refused(reason: string)

  /** Everything outside the interpreter: the process environment, the OS (answering
      each call given the calls made before it), and the octal parse of `std::stoi`. */
  datatype Host = Host(
    env: map<string, string>,
    os: (seq<Effect>, Effect) -> Reply,
    octal: string -> Option<int>)

  // ------------------------------------------------------------------
  // Parsing
  // ------------------------------------------------------------------

  /** Names are looked up in the script's variables first, then in the environment. */
  function Lookup(vars: map<string, string>, env: map<string, string>): string -> Option<string> {
    (n: string) => if n in vars then Some(vars[n]) else if n in env then Some(env[n]) else None
  }

  /** `substitute_variables`: every argument expanded in order; the first unresolved
      name aborts with that name. */
  function SubstituteArgs(args: seq<string>, vars: map<string, string>, env: map<string, string>)
    : (r: Result<seq<string>, string>)
    ensures r.Success? ==> |r.value| == |args|
    ensures r.Success? ==> forall k :: 0 <= k < |args| ==> Expand(args[k], Lookup(vars, env)) == Success(r.value[k])
    ensures r.Failure? ==> exists k :: 0 <= k < |args| && Expand(args[k], Lookup(vars, env)) == Failure(r.error)
                                 && forall j :: 0 <= j < k ==> Expand(args[j], Lookup(vars, env)).Success?
    ensures r.Failure? ==> r.error !in vars && r.error !in env
  {
    if args == [] then Success([])
    else match Expand(args[0], Lookup(vars, env))
      case Failure(n) => Failure(n)
      case Success(a) =>
        match SubstituteArgs(args[1..], vars, env)
        case Failure(n) =>
          var k :| 0 <= k < |args[1..]| && Expand(args[1..][k], Lookup(vars, env)) == Failure(n)
                   && forall j :: 0 <= j < k ==> Expand(args[1..][j], Lookup(vars, env)).Success?;
          assert forall j :: 0 <= j < k + 1 ==> Expand(args[j], Lookup(vars, env)).Success? by {
            forall j | 0 <= j < k + 1 ensures Expand(args[j], Lookup(vars, env)).Success? {
              if j > 0 { assert args[j] == args[1..][j - 1]; }
            }
          }
          Failure(n)
        case Success(rest) => Success([a] + rest)
  }

  /** A variable name as `parse_line` checks it: letters, digits and `_` only. */
  predicate IsVarName(s: string) {
    forall c <- s :: IsAlnum(c) || c == '_'
  }

  /** The assignment shape, stated on the line itself: the first `=` is at index
      `i > 0`, neither neighbour is a space, and the name before it is a variable
      name. The right neighbour may be the end of the line. */
  predicate IsAssignmentAt(line: string, i: nat) {
    && 0 < i < |line|
    && line[i] == '='
    && '=' !in line[..i]
    && line[i - 1] != ' '
    && (i + 1 == |line| || line[i + 1] != ' ')
    && IsVarName(line[..i])
  }

  /** What `parse_line` leaves behind: the command (if the line is one), the
      variables, and the shared error message. */
  datatype LineResult = LineResult(command: Option<Command>, vars: map<string, string>, message: string)

  function UnresolvedMessage(lineNum: nat, name: string): string {
    LinePrefix(lineNum) + "Variable '" + name + "' not found."
  }

  /** `parse_line`: an assignment stores the raw right-hand side; any other line is
      tokenised, and its arguments (never its name) are substituted. */
  function ParseLine(line: string, lineNum: nat, vars: map<string, string>, env: map<string, string>, message: string)
    : (r: LineResult)
    ensures r.command.Some? ==> r.message == message && r.command.value.lineNum == lineNum
    ensures r.message == message || (r.command.None? && r.vars == vars && r.message != [] && StartsWith(r.message, LinePrefix(lineNum)))
  {
    var eq := IndexOf(line, '=');
    if eq.Some? && eq.value > 0 && line[eq.value - 1] != ' ' && CharAt(line, eq.value + 1) != ' '
       && IsVarName(line[..eq.value])
    then
      LineResult(None, vars[line[..eq.value] := line[eq.value + 1..]], message)
    else
      var tokens := Tokens(line);
      if tokens == [] then LineResult(None, vars, message)
      else match SubstituteArgs(tokens[1..], vars, env)
        case Failure(name) => LineResult(None, vars, UnresolvedMessage(lineNum, name))
        case Success(args) => LineResult(Some(Command(lineNum, tokens[0], args)), vars, message)
  }

  /** An assignment line stores its raw, unsubstituted right-hand side and yields no command. */
  lemma ParseLineAssignment(line: string, i: nat, lineNum: nat, vars: map<string, string>,
                            env: map<string, string>, message: string)
    requires IsAssignmentAt(line, i)
    ensures ParseLine(line, lineNum, vars, env, message) == LineResult(None, vars[line[..i] := line[i + 1..]], message)
  {
    assert IndexOf(line, '=') == Some(i);
  }

  /** Any other line is a command: the first token is its name, untouched, and the
      others are its arguments, each substituted; the variables do not change. */
  lemma ParseLineCommand(line: string, lineNum: nat, vars: map<string, string>,
                         env: map<string, string>, message: string)
    requires forall i: nat :: !IsAssignmentAt(line, i)
    ensures var r := ParseLine(line, lineNum, vars, env, message);
      && r.vars == vars
      && (r.command.Some? <==> Tokens(line) != [] && SubstituteArgs(Tokens(line)[1..], vars, env).Success?)
      && (r.command.Some? ==>
            && r.command.value.name == Tokens(line)[0]
            && |r.command.value.args| == |Tokens(line)| - 1
            && forall k :: 0 <= k < |r.command.value.args| ==>
                 Expand(Tokens(line)[k + 1], Lookup(vars, env)) == Success(r.command.value.args[k]))
      && (r.message != message ==> exists name :: r.message == UnresolvedMessage(lineNum, name) && name !in vars && name !in env)
      && (Tokens(line) != [] && SubstituteArgs(Tokens(line)[1..], vars, env).Failure? ==>
            r.message == UnresolvedMessage(lineNum, SubstituteArgs(Tokens(line)[1..], vars, env).error))
  {
    match IndexOf(line, '=') {
      case None =>
      case Some(i) => assert !IsAssignmentAt(line, i);
    }
  }

  /** `X=` assigns the empty string: the character after the `=` is the terminating NUL. */
  lemma AssignEmptyValue(lineNum: nat, vars: map<string, string>, env: map<string, string>, message: string)
    ensures ParseLine("X=", lineNum, vars, env, message).vars == vars["X" := ""]
  {
    assert "X="[..1] == "X";
    assert IsAssignmentAt("X=", 1);
    ParseLineAssignment("X=", 1, lineNum, vars, env, message);
    assert "X="[2..] == "";
  }

  /** The lines `parse_script` passes over once trimmed: blank, comment, or led by
      a space or tab. */
  predicate Skipped(line: string) {
    line == [] || line[0] == '#' || line[0] == ' ' || line[0] == '\t'
  }

  /** After the trim, the leading-whitespace test can never fire: a line is passed
      over exactly when it is blank or a comment. */
  lemma LeadingWhitespaceUnreachable(raw: string)
    ensures Skipped(Trim(raw)) <==> Trim(raw) == [] || Trim(raw)[0] == '#'
  {
  }

  datatype ParseOutcome = ParseOutcome(commands: Option<seq<Command>>, message: string)

  predicate Ordered(cmds: seq<Command>) {
    forall i, j :: 0 <= i < j < |cmds| ==> cmds[i].lineNum < cmds[j].lineNum
  }

  /** Commands in strictly increasing line order, all from lines `lo + 1 .. hi`. */
  predicate InLines(cmds: seq<Command>, lo: nat, hi: nat) {
    && Ordered(cmds)
    && forall c <- cmds :: lo < c.lineNum <= hi
  }

  lemma ConsInLines(c: Command, cmds: seq<Command>, lo: nat, hi: nat)
    requires InLines(cmds, c.lineNum, hi) && lo < c.lineNum <= hi
    ensures InLines([c] + cmds, lo, hi)
  {
    var all := [c] + cmds;
    forall x | x in all ensures lo < x.lineNum <= hi {
      if x != c { assert x in cmds; }
    }
    forall i, j | 0 <= i < j < |all| ensures all[i].lineNum < all[j].lineNum {
      if i > 0 {
        assert all[i] == cmds[i - 1] && all[j] == cmds[j - 1];
      } else {
        assert all[j] in cmds;
      }
    }
  }

  /** The `while (getline(...))` loop of `parse_script` after the header. `lineNum`
      counts the lines read so far, so every line advances it, skipped or not. */
  function ParseBody(lines: seq<string>, lineNum: nat, vars: map<string, string>,
                     env: map<string, string>, message: string): (r: ParseOutcome)
    ensures r.commands.Some? ==> r.message == message
    ensures r.commands.Some? ==> InLines(r.commands.value, lineNum, lineNum + |lines|)
    decreases |lines|, 1
  {
    if lines == [] then ParseOutcome(Some([]), message)
    else
      var line := Trim(lines[0]);
      if Skipped(line) then ParseBody(lines[1..], lineNum + 1, vars, env, message)
      else AfterLine(ParseLine(line, lineNum + 1, vars, env, message), lines[1..], lineNum, env)
  }

  /** The rest of one loop turn once `parse_line` has returned for line `prev + 1`:
      a command is kept only while the shared message is empty, and a non-empty
      message ends the parse. */
  function AfterLine(lr: LineResult, rest: seq<string>, prev: nat, env: map<string, string>): (r: ParseOutcome)
    requires lr.command.Some? ==> lr.command.value.lineNum == prev + 1
    ensures r.commands.Some? ==> lr.message == [] && r.message == []
    ensures r.commands.Some? ==> InLines(r.commands.value, prev, prev + 1 + |rest|)
    decreases |rest| + 1, 0
  {
    if lr.message != [] then ParseOutcome(None, lr.message)
    else
      var tail := ParseBody(rest, prev + 1, lr.vars, env, lr.message);
      match lr.command
      case None => tail
      case Some(c) =>
        if tail.commands.Some? then
          ConsInLines(c, tail.commands.value, prev, prev + 1 + |rest|);
          ParseOutcome(Some([c] + tail.commands.value), tail.message)
        else tail
  }

  /** The script variables after the loop has read `lines`. */
  function BodyVars(lines: seq<string>, lineNum: nat, vars: map<string, string>,
                    env: map<string, string>, message: string): map<string, string>
    decreases |lines|
  {
    if lines == [] then vars
    else
      var line := Trim(lines[0]);
      if Skipped(line) then BodyVars(lines[1..], lineNum + 1, vars, env, message)
      else BodyVars(lines[1..], lineNum + 1, ParseLine(line, lineNum + 1, vars, env, message).vars, env, message)
  }

  /** How `a + b` parses, given how `a` and then `b` parse. */
  function Then(pa: ParseOutcome, pb: ParseOutcome, message: string): ParseOutcome {
    if pa.commands.None? then pa
    else if pb.commands.None? then pb
    else ParseOutcome(Some(pa.commands.value + pb.commands.value), message)
  }

  lemma TailOfAppend(a: seq<string>, b: seq<string>)
    requires a != []
    ensures (a + b)[0] == a[0] && (a + b)[1..] == a[1..] + b
  {
  }

  /** One turn of the loop over a skipped line: only the count advances. */
  lemma ParseBodySkip(lines: seq<string>, lineNum: nat, vars: map<string, string>,
                      env: map<string, string>, message: string)
    requires lines != [] && Skipped(Trim(lines[0]))
    ensures ParseBody(lines, lineNum, vars, env, message) == ParseBody(lines[1..], lineNum + 1, vars, env, message)
    ensures BodyVars(lines, lineNum, vars, env, message) == BodyVars(lines[1..], lineNum + 1, vars, env, message)
  {
    ParseBodySkipOutcome(lines, lineNum, vars, env, message);
    BodyVarsSkip(lines, lineNum, vars, env, message);
  }

  lemma ParseBodySkipOutcome(lines: seq<string>, lineNum: nat, vars: map<string, string>,
                             env: map<string, string>, message: string)
    requires lines != [] && Skipped(Trim(lines[0]))
    ensures ParseBody(lines, lineNum, vars, env, message) == ParseBody(lines[1..], lineNum + 1, vars, env, message)
  {
  }

  lemma BodyVarsSkip(lines: seq<string>, lineNum: nat, vars: map<string, string>,
                     env: map<string, string>, message: string)
    requires lines != [] && Skipped(Trim(lines[0]))
    ensures BodyVars(lines, lineNum, vars, env, message) == BodyVars(lines[1..], lineNum + 1, vars, env, message)
  {
  }

  /** One turn of the loop over a line that reaches `parse_line`. */
  lemma ParseBodyLine(lines: seq<string>, lineNum: nat, vars: map<string, string>,
                      env: map<string, string>, message: string, lr: LineResult)
    requires lines != [] && !Skipped(Trim(lines[0]))
    requires lr == ParseLine(Trim(lines[0]), lineNum + 1, vars, env, message)
    ensures ParseBody(lines, lineNum, vars, env, message) == AfterLine(lr, lines[1..], lineNum, env)
    ensures BodyVars(lines, lineNum, vars, env, message) == BodyVars(lines[1..], lineNum + 1, lr.vars, env, message)
    ensures lr.command.Some? ==> lr.command.value.lineNum == lineNum + 1
    ensures lr.message == [] ==> message == []
  {
    ParseBodyLineOutcome(lines, lineNum, vars, env, message, lr);
    BodyVarsLine(lines, lineNum, vars, env, message, lr);
  }

  lemma ParseBodyLineOutcome(lines: seq<string>, lineNum: nat, vars: map<string, string>,
                             env: map<string, string>, message: string, lr: LineResult)
    requires lines != [] && !Skipped(Trim(lines[0]))
    requires lr == ParseLine(Trim(lines[0]), lineNum + 1, vars, env, message)
    ensures lr.command.Some? ==> lr.command.value.lineNum == lineNum + 1
    ensures ParseBody(lines, lineNum, vars, env, message) == AfterLine(lr, lines[1..], lineNum, env)
    ensures lr.message == [] ==> message == []
  {
  }

  lemma BodyVarsLine(lines: seq<string>, lineNum: nat, vars: map<string, string>,
                     env: map<string, string>, message: string, lr: LineResult)
    requires lines != [] && !Skipped(Trim(lines[0]))
    requires lr == ParseLine(Trim(lines[0]), lineNum + 1, vars, env, message)
    ensures BodyVars(lines, lineNum, vars, env, message) == BodyVars(lines[1..], lineNum + 1, lr.vars, env, message)
  {
  }

  /** A command, if there is one, put in front of a successful parse. */
  function Cons(c: Option<Command>, t: ParseOutcome): ParseOutcome {
    if c.Some? && t.commands.Some? then ParseOutcome(Some([c.value] + t.commands.value), t.message) else t
  }

  lemma ConsThen(c: Option<Command>, pa: ParseOutcome, pb: ParseOutcome, message: string)
    ensures Cons(c, Then(pa, pb, message)) == Then(Cons(c, pa), pb, message)
  {
    if c.Some? && pa.commands.Some? && pb.commands.Some? {
      assert [c.value] + (pa.commands.value + pb.commands.value) == ([c.value] + pa.commands.value) + pb.commands.value;
    }
  }

  lemma AfterLineCons(lr: LineResult, rest: seq<string>, prev: nat, env: map<string, string>)
    requires lr.command.Some? ==> lr.command.value.lineNum == prev + 1
    ensures AfterLine(lr, rest, prev, env)
         == if lr.message != [] then ParseOutcome(None, lr.message)
            else Cons(lr.command, ParseBody(rest, prev + 1, lr.vars, env, lr.message))
  {
  }

  /** A command line in front keeps its place ahead of the commands `Then` joins;
      `mid` is the count of lines read before `b`. */
  lemma AfterLineThen(lr: LineResult, rest: seq<string>, b: seq<string>, prev: nat, mid: nat,
                      env: map<string, string>, message: string)
    requires lr.command.Some? ==> lr.command.value.lineNum == prev + 1
    requires lr.message == [] ==> message == []
    requires lr.message == [] ==>
      ParseBody(rest + b, prev + 1, lr.vars, env, message)
        == Then(ParseBody(rest, prev + 1, lr.vars, env, message),
                ParseBody(b, mid, BodyVars(rest, prev + 1, lr.vars, env, message), env, message), message)
    ensures AfterLine(lr, rest + b, prev, env)
         == Then(AfterLine(lr, rest, prev, env),
                 ParseBody(b, mid, BodyVars(rest, prev + 1, lr.vars, env, message), env, message), message)
  {
    AfterLineCons(lr, rest + b, prev, env);
    AfterLineCons(lr, rest, prev, env);
    if lr.message == [] {
      ConsThen(lr.command, ParseBody(rest, prev + 1, lr.vars, env, message),
               ParseBody(b, mid, BodyVars(rest, prev + 1, lr.vars, env, message), env, message), message);
    }
  }

  /** The loop over `a + b` is the loop over `a`, then, if that did not abort, the
      loop over `b` from the line count `mid` and the variables `a` left, its
      commands after those of `a`. So every line advances the count, skipped or
      not, each command line contributes its command in place, and an abort
      anywhere discards every command built before it. */
  lemma {:induction false} ParseBodyAppend(a: seq<string>, b: seq<string>, lineNum: nat, mid: nat,
                                         vars: map<string, string>, env: map<string, string>, message: string)
    requires mid == lineNum + |a|
    ensures ParseBody(a + b, lineNum, vars, env, message)
         == Then(ParseBody(a, lineNum, vars, env, message),
                 ParseBody(b, mid, BodyVars(a, lineNum, vars, env, message), env, message), message)
    decreases |a|
  {
    if a == [] {
      assert a + b == b;
      var pb := ParseBody(b, lineNum, vars, env, message);
      if pb.commands.Some? { assert [] + pb.commands.value == pb.commands.value; }
    } else {
      TailOfAppend(a, b);
      if Skipped(Trim(a[0])) {
        ParseBodySkip(a, lineNum, vars, env, message);
        ParseBodySkip(a + b, lineNum, vars, env, message);
        ParseBodyAppend(a[1..], b, lineNum + 1, mid, vars, env, message);
      } else {
        var lr := ParseLine(Trim(a[0]), lineNum + 1, vars, env, message);
        ParseBodyLine(a, lineNum, vars, env, message, lr);
        ParseBodyLine(a + b, lineNum, vars, env, message, lr);
        if lr.message == [] {
          ParseBodyAppend(a[1..], b, lineNum + 1, mid, lr.vars, env, message);
        }
        AfterLineThen(lr, a[1..], b, lineNum, mid, env, message);
      }
    }
  }

  /** One line on its own: skipped, an abort with its message, or its command if any. */
  lemma ParseBodyOneLine(line: string, lineNum: nat, vars: map<string, string>, env: map<string, string>)
    ensures var lr := ParseLine(Trim(line), lineNum + 1, vars, env, "");
      ParseBody([line], lineNum, vars, env, "")
        == if Skipped(Trim(line)) then ParseOutcome(Some([]), "")
           else if lr.message != [] then ParseOutcome(None, lr.message)
           else ParseOutcome(Some(if lr.command.Some? then [lr.command.value] else []), "")
  {
    assert [line][1..] == [];
    var lr := ParseLine(Trim(line), lineNum + 1, vars, env, "");
    if lr.command.Some? { assert [lr.command.value] + [] == [lr.command.value]; }
  }

  const ShebangMessage: string := "Error at line 1: Missing or incorrect shebang. Expected '" + Shebang + "'."
  const EmptyMessage: string := "Error: Script is empty."

  /** `parse_script`: the script is cut into lines as `std::getline` does; the first
      line must begin with the header (a `find(SHEBANG) == 0` test). */
  function ParseScript(script: string, vars: map<string, string>, env: map<string, string>, message: string)
    : (r: ParseOutcome)
    ensures GetlineSplit(script, '\n') == [] ==> r == ParseOutcome(None, EmptyMessage)
    ensures GetlineSplit(script, '\n') != [] && !StartsWith(GetlineSplit(script, '\n')[0], Shebang)
      ==> r == ParseOutcome(None, ShebangMessage)
    ensures GetlineSplit(script, '\n') != [] && StartsWith(GetlineSplit(script, '\n')[0], Shebang)
      ==> r == ParseBody(GetlineSplit(script, '\n')[1..], 1, vars, env, message)
  {
    var lines := GetlineSplit(script, '\n');
    if lines == [] then ParseOutcome(None, EmptyMessage)
    else if Find(lines[0], Shebang) != Some(0) then
      FindZeroIffPrefix(lines[0], Shebang);
      ParseOutcome(None, ShebangMessage)
    else
      FindZeroIffPrefix(lines[0], Shebang);
      ParseBody(lines[1..], 1, vars, env, message)
  }

  // ------------------------------------------------------------------
  // Handlers
  // ------------------------------------------------------------------

  datatype Verdict = Pass | Fail(reason: string)

  /** A handler's verdict and the trace after the OS calls it made. */
  datatype Step = Step(verdict: Verdict, trace: seq<Effect>)

  /** `rm <path>`: exactly one argument, then `fs::remove_all`. */
  function HandleRm(args: seq<string>, host: Host, trace: seq<Effect>): (s: Step)
    ensures trace <= s.trace
    ensures |args| != 1 ==> s.verdict.Fail? && s.trace == trace
    ensures |args| == 1 ==> s.trace == trace + [RemoveAll(args[0])]
    ensures |args| == 1 ==> (s.verdict.Pass? <==> host.os(trace, RemoveAll(args[0])).Done?)
  {
    if |args| != 1 then
      Step(Fail("rm command expects 1 argument (path), but got " + NatToString(|args|) + "."), trace)
    else
      var path := args[0];
      match host.os(trace, RemoveAll(path))
      case Refused(why) => Step(Fail("Failed to remove '" + path + "': " + why), trace + [RemoveAll(path)])
      case Done(_) => Step(Pass, trace + [RemoveAll(path)])
  }

  /** `owner_group.find(':')` and the two `substr` calls around it. */
  function SplitOwnerGroup(s: string): (r: Option<(string, string)>)
    ensures r.None? <==> ':' !in s
    ensures r.Some? ==> s == r.value.0 + ":" + r.value.1 && ':' !in r.value.0
  {
    match IndexOf(s, ':')
    case None => None
    case Some(i) =>
      assert s == s[..i] + ":" + s[i + 1..];
      Some((s[..i], s[i + 1..]))
  }

  /** Splitting `user:group` recovers both halves whenever the user holds no `:`;
      the group may. */
  lemma SplitOwnerGroupJoin(user: string, group: string)
    requires ':' !in user
    ensures SplitOwnerGroup(user + ":" + group) == Some((user, group))
  {
    var s := user + ":" + group;
    assert s == user + [':'] + group;
    IndexOfAfter(user, ':', group);
    assert s[..|user|] == user;
    assert s[|user| + 1..] == group;
  }

  /** `mkdir <path> <owner:group> <perms>`: create, parse the octal mode, chmod, then
      hand over to the ownership stage. Each step that fails ends the handler;
      nothing done before is undone. */
  function HandleMkdir(args: seq<string>, host: Host, trace: seq<Effect>): (s: Step)
    ensures |args| != 3 ==> s.verdict.Fail? && s.trace == trace
    ensures trace <= s.trace && |s.trace| <= |trace| + 5
    ensures |args| == 3 ==> |s.trace| > |trace|
  {
    if |args| != 3 then
      Step(Fail("mkdir command expects 3 arguments (path, owner:group, permissions), but got "
                + NatToString(|args|) + "."), trace)
    else
      var path, ownerGroup, perms := args[0], args[1], args[2];
      var t1 := trace + [CreateDirectories(path)];
      match host.os(trace, CreateDirectories(path))
      case Refused(why) => Step(Fail("Failed to create directory '" + path + "': " + why), t1)
      case Done(_) =>
        match host.octal(perms)
        case None => Step(Fail("Invalid permissions format: " + perms), t1)
        case Some(mode) =>
          var t2 := t1 + [Chmod(path, mode)];
          match host.os(t1, Chmod(path, mode))
          case Refused(_) => Step(Fail("Failed to set permissions for '" + path + "'."), t2)
          case Done(_) => MkdirOwner(path, ownerGroup, host, t2)
  }

  /** The second half of `mkdir`: split the owner at the first `:`, look the user up,
      then the group, then chown with the two ids the lookups returned. It passes
      exactly when all three calls were made and the OS accepted the chown. */
  function MkdirOwner(path: string, ownerGroup: string, host: Host, trace: seq<Effect>): (s: Step)
    ensures trace <= s.trace && |s.trace| <= |trace| + 3
    ensures |s.trace| > |trace| <==> SplitOwnerGroup(ownerGroup).Some?
    ensures |s.trace| > |trace| ==> s.trace[|trace|] == GetUser(SplitOwnerGroup(ownerGroup).value.0)
    ensures |s.trace| > |trace| + 1 <==> |s.trace| > |trace| && host.os(trace, s.trace[|trace|]).Done?
    ensures |s.trace| > |trace| + 1 ==> s.trace[|trace| + 1] == GetGroup(SplitOwnerGroup(ownerGroup).value.1)
    ensures |s.trace| > |trace| + 2 <==> |s.trace| > |trace| + 1 && host.os(s.trace[..|trace| + 1], s.trace[|trace| + 1]).Done?
    ensures |s.trace| > |trace| + 2 ==>
      && host.os(s.trace[..|trace| + 1], s.trace[|trace| + 1]).Done?
      && s.trace[|trace| + 2] == Chown(path, host.os(trace, s.trace[|trace|]).value,
                                       host.os(s.trace[..|trace| + 1], s.trace[|trace| + 1]).value)
    ensures s.verdict.Pass? <==> |s.trace| == |trace| + 3 && host.os(s.trace[..|trace| + 2], s.trace[|trace| + 2]).Done?
  {
    match SplitOwnerGroup(ownerGroup)
    case None => Step(Fail("Invalid owner:group format. Expected 'user:group'."), trace)
    case Some((owner, group)) =>
      var t3 := trace + [GetUser(owner)];
      match host.os(trace, GetUser(owner))
      case Refused(_) => Step(Fail("User '" + owner + "' not found."), t3)
      case Done(uid) =>
        var t4 := t3 + [GetGroup(group)];
        assert t4[..|trace| + 1] == t3;
        match host.os(t3, GetGroup(group))
        case Refused(_) => Step(Fail("Group '" + group + "' not found."), t4)
        case Done(gid) =>
          var t5 := t4 + [Chown(path, uid, gid)];
          assert t5[..|trace| + 1] == t3;
          assert t5[..|trace| + 2] == t4;
          match host.os(t4, Chown(path, uid, gid))
          case Refused(_) => Step(Fail("Failed to set owner for '" + path + "'. Check permissions."), t5)
          case Done(_) => Step(Pass, t5)
  }

  /** The calls `mkdir` makes are a prefix of create, chmod, user lookup, group
      lookup, chown: about the given path, with the mode `stoi` parsed and the owner
      and group split at the first `:`, and the chown using the ids the lookups
      returned. Each call after the first is made exactly when the OS accepted the
      one before it and the text it needs parses; the first refusal or bad input
      stops the handler, and the calls made so far stay in place. */
  lemma MkdirCallOrder(args: seq<string>, host: Host, trace: seq<Effect>)
    requires |args| == 3
    ensures var s := HandleMkdir(args, host, trace);
      var t, og := |trace|, SplitOwnerGroup(args[1]);
      && trace <= s.trace && t + 1 <= |s.trace| <= t + 5
      && s.trace[t] == CreateDirectories(args[0])
      && (|s.trace| > t + 1 <==> host.os(trace, s.trace[t]).Done? && host.octal(args[2]).Some?)
      && (|s.trace| > t + 1 ==> s.trace[t + 1] == Chmod(args[0], host.octal(args[2]).value))
      && (|s.trace| > t + 2 <==> |s.trace| > t + 1 && host.os(s.trace[..t + 1], s.trace[t + 1]).Done? && og.Some?)
      && (|s.trace| > t + 2 ==> og.Some? && s.trace[t + 2] == GetUser(og.value.0))
      && (|s.trace| > t + 3 <==> |s.trace| > t + 2 && host.os(s.trace[..t + 2], s.trace[t + 2]).Done?)
      && (|s.trace| > t + 3 ==> og.Some? && s.trace[t + 3] == GetGroup(og.value.1))
      && (|s.trace| > t + 4 <==> |s.trace| > t + 3 && host.os(s.trace[..t + 3], s.trace[t + 3]).Done?)
      && (|s.trace| > t + 4 ==>
            && host.os(s.trace[..t + 2], s.trace[t + 2]).Done?
            && host.os(s.trace[..t + 3], s.trace[t + 3]).Done?
            && s.trace[t + 4] == Chown(args[0], host.os(s.trace[..t + 2], s.trace[t + 2]).value,
                                       host.os(s.trace[..t + 3], s.trace[t + 3]).value))
  {
    var s := HandleMkdir(args, host, trace);
    var t1 := trace + [CreateDirectories(args[0])];
    assert s.trace[|trace|] == CreateDirectories(args[0]);
    if host.os(trace, CreateDirectories(args[0])).Done? && host.octal(args[2]).Some? {
      var mode := host.octal(args[2]).value;
      var t2 := t1 + [Chmod(args[0], mode)];
      assert s.trace[|trace| + 1] == Chmod(args[0], mode);
      assert s.trace[..|trace| + 1] == t1;
      if host.os(t1, Chmod(args[0], mode)).Done? {
        assert s == MkdirOwner(args[0], args[1], host, t2);
        assert |t2| == |trace| + 2;
        assert s.trace[..|trace| + 2] == t2;
      }
    }
  }

  /** `mkdir` succeeds exactly when it made all five calls and the OS accepted the
      last one, the chown. */
  lemma MkdirPassIff(args: seq<string>, host: Host, trace: seq<Effect>)
    requires |args| == 3
    ensures var s := HandleMkdir(args, host, trace);
      s.verdict.Pass? <==> |s.trace| == |trace| + 5 && host.os(s.trace[..|trace| + 4], s.trace[|trace| + 4]).Done?
  {
    var t1 := trace + [CreateDirectories(args[0])];
    if host.os(trace, CreateDirectories(args[0])).Done? && host.octal(args[2]).Some? {
      var t2 := t1 + [Chmod(args[0], host.octal(args[2]).value)];
      if host.os(t1, Chmod(args[0], host.octal(args[2]).value)).Done? {
        assert HandleMkdir(args, host, trace) == MkdirOwner(args[0], args[1], host, t2);
      }
    }
  }

  /** A group the OS does not know fails `mkdir` after the directory exists with its
      mode set and the user was found, before any chown, and the message names the
      group. */
  lemma MkdirUnknownGroup(path: string, user: string, group: string, perms: string, mode: int,
                          host: Host, trace: seq<Effect>)
    requires ':' !in user
    requires host.os(trace, CreateDirectories(path)).Done?
    requires host.octal(perms) == Some(mode)
    requires host.os(trace + [CreateDirectories(path)], Chmod(path, mode)).Done?
    requires host.os(trace + [CreateDirectories(path), Chmod(path, mode)], GetUser(user)).Done?
    requires host.os(trace + [CreateDirectories(path), Chmod(path, mode), GetUser(user)], GetGroup(group)).Refused?
    ensures HandleMkdir([path, user + ":" + group, perms], host, trace)
         == Step(Fail("Group '" + group + "' not found."),
                 trace + [CreateDirectories(path), Chmod(path, mode), GetUser(user), GetGroup(group)])
  {
    SplitOwnerGroupJoin(user, group);
    var t1 := trace + [CreateDirectories(path)];
    var t2 := t1 + [Chmod(path, mode)];
    var t3 := t2 + [GetUser(user)];
    assert t2 == trace + [CreateDirectories(path), Chmod(path, mode)];
    assert t3 == trace + [CreateDirectories(path), Chmod(path, mode), GetUser(user)];
    assert t3 + [GetGroup(group)] == trace + [CreateDirectories(path), Chmod(path, mode), GetUser(user), GetGroup(group)];
  }

  /** The process-name allow-list of `pkill`: the string of letters, digits and `_`
      that its first `find_first_not_of` call is given. */
  predicate IsProcessName(s: string) {
    forall c <- s :: IsAlnum(c) || c == '_'
  }

  /** The signal allow-list of `pkill`: letters only. */
  predicate IsSignalName(s: string) {
    forall c <- s :: IsAlpha(c)
  }

  function PkillCommandLine(name: string, signal: string): string {
    "pkill -" + signal + " " + name
  }

  /** `pkill <name> <signal>`: exactly two arguments from the allow-lists, then one
      `system` call; whatever it returns, the handler succeeds. */
  function HandlePkill(args: seq<string>, host: Host, trace: seq<Effect>): (s: Step)
    ensures trace <= s.trace
    ensures |args| != 2 ==> s.verdict.Fail?
    ensures |args| == 2 ==> (s.verdict.Pass? <==> IsProcessName(args[0]) && IsSignalName(args[1]))
    ensures s.verdict.Pass? ==> s.trace == trace + [System("pkill -" + args[1] + " " + args[0])]
    ensures s.verdict.Fail? ==> s.trace == trace
  {
    if |args| != 2 then
      Step(Fail("pkill command expects 2 arguments (process_name, signal), but got " + NatToString(|args|) + "."), trace)
    else
      var name, signal := args[0], args[1];
      if !IsProcessName(name) || !IsSignalName(signal) then
        Step(Fail("Invalid characters in pkill arguments."), trace)
      else
        var e := System(PkillCommandLine(name, signal));
        var _ := host.os(trace, e);
        Step(Pass, trace + [e])
  }

  /** An accepted `pkill` runs a command line with no shell metacharacter in it, and a
      process name holding one (`;` say) is refused before anything runs. */
  lemma PkillNoInjection(args: seq<string>, host: Host, trace: seq<Effect>)
    ensures var s := HandlePkill(args, host, trace);
      && (s.verdict.Pass? ==> forall c <- s.trace[|trace|].command :: IsAlnum(c) || c == '_' || c == '-' || c == ' ')
      && (|args| == 2 && ';' in args[0] ==> s.verdict.Fail? && s.trace == trace)
  {
  }

  /** The verdict and the trace of `pkill` do not depend on what `system` returns. */
  lemma PkillIgnoresSystemResult(args: seq<string>, host1: Host, host2: Host, trace: seq<Effect>)
    ensures HandlePkill(args, host1, trace) == HandlePkill(args, host2, trace)
  {
  }

  /** `"/" + key` with every `.` turned into `/`: the JSON pointer `json` writes at. */
  function JsonPointer(key: string): (p: string)
    ensures |p| == |key| + 1 && p[0] == '/'
    ensures forall i :: 0 <= i < |key| ==> p[i + 1] == (if key[i] == '.' then '/' else key[i])
    ensures '.' !in p
  {
    "/" + DotsToSlashes(key)
  }

  function DotsToSlashes(key: string): (r: string)
    ensures |r| == |key|
    ensures forall i :: 0 <= i < |key| ==> r[i] == (if key[i] == '.' then '/' else key[i])
  {
    if key == [] then [] else [if key[0] == '.' then '/' else key[0]] + DotsToSlashes(key[1..])
  }

  /** `json <file> set <key> <value>`: exactly four arguments with `set` second; the
      document update at the key's pointer is one OS call. */
  function HandleJson(args: seq<string>, host: Host, trace: seq<Effect>): (s: Step)
    ensures trace <= s.trace
    ensures !(|args| == 4 && args[1] == "set") ==> s.verdict.Fail? && s.trace == trace
    ensures |args| == 4 && args[1] == "set" ==>
      s.trace == trace + [JsonSet(args[0], JsonPointer(args[2]), args[3])]
    ensures |args| == 4 && args[1] == "set" ==>
      (s.verdict.Pass? <==> host.os(trace, JsonSet(args[0], JsonPointer(args[2]), args[3])).Done?)
  {
    if |args| != 4 || args[1] != "set" then
      Step(Fail("json command format is 'json <file> set <key> <value>', but got invalid format."), trace)
    else
      var e := JsonSet(args[0], JsonPointer(args[2]), args[3]);
      match host.os(trace, e)
      case Refused(why) => Step(Fail(why), trace + [e])
      case Done(_) => Step(Pass, trace + [e])
  }

  /** `cfgmgr`: at least two arguments, simulated. */
  function HandleCfgmgr(args: seq<string>, trace: seq<Effect>): (s: Step)
    ensures s.trace == trace
    ensures s.verdict.Pass? <==> |args| >= 2
  {
    if |args| < 2 then Step(Fail("cfgmgr requires at least 2 arguments."), trace) else Step(Pass, trace)
  }

  /** `reboot`: no arguments, simulated. */
  function HandleReboot(args: seq<string>, trace: seq<Effect>): (s: Step)
    ensures s.trace == trace
    ensures s.verdict.Pass? <==> args == []
  {
    if |args| != 0 then Step(Fail("reboot command expects 0 arguments."), trace) else Step(Pass, trace)
  }

  /** `partctr`: exactly two arguments, simulated. */
  function HandlePartctr(args: seq<string>, trace: seq<Effect>): (s: Step)
    ensures s.trace == trace
    ensures s.verdict.Pass? <==> |args| == 2
  {
    if |args| != 2 then Step(Fail("partctr command expects 2 arguments."), trace) else Step(Pass, trace)
  }

  /** The handler table built by the constructor. */
  const Handlers: set<string> := {"rm", "mkdir", "pkill", "json", "cfgmgr", "reboot", "partctr"}

  function Dispatch(c: Command, host: Host, trace: seq<Effect>): (s: Step)
    requires c.name in Handlers
    ensures trace <= s.trace
  {
    match c.name
    case "rm" => HandleRm(c.args, host, trace)
    case "mkdir" => HandleMkdir(c.args, host, trace)
    case "pkill" => HandlePkill(c.args, host, trace)
    case "json" => HandleJson(c.args, host, trace)
    case "cfgmgr" => HandleCfgmgr(c.args, trace)
    case "reboot" => HandleReboot(c.args, trace)
    case _ => HandlePartctr(c.args, trace)
  }

  /** The argument counts each handler demands, as a table. */
  datatype Arity = Exactly(n: nat) | AtLeast(n: nat)

  function ArityOf(name: string): Arity
    requires name in Handlers
  {
    match name
    case "rm" => Exactly(1)
    case "mkdir" => Exactly(3)
    case "pkill" => Exactly(2)
    case "json" => Exactly(4)
    case "cfgmgr" => AtLeast(2)
    case "reboot" => Exactly(0)
    case _ => Exactly(2)
  }

  /** The gate a command passes before any effect: its arity, and for `json` the
      literal `set` in second place. */
  predicate GateOpen(c: Command)
    requires c.name in Handlers
  {
    && (match ArityOf(c.name)
        case Exactly(n) => |c.args| == n
        case AtLeast(n) => |c.args| >= n)
    && (c.name == "json" ==> c.args[1] == "set")
  }

  /** A closed gate fails the handler before it makes any OS call; the placeholder
      handlers succeed, with no OS call, exactly when their gate is open. */
  lemma GateBeforeEffect(c: Command, host: Host, trace: seq<Effect>)
    requires c.name in Handlers
    ensures !GateOpen(c) ==> Dispatch(c, host, trace) == Step(Dispatch(c, host, trace).verdict, trace)
    ensures !GateOpen(c) ==> Dispatch(c, host, trace).verdict.Fail?
    ensures c.name in {"cfgmgr", "reboot", "partctr"} ==>
      Dispatch(c, host, trace) == Step(if GateOpen(c) then Pass else Dispatch(c, host, trace).verdict, trace)
  {
  }

  // ------------------------------------------------------------------
  // Execution
  // ------------------------------------------------------------------

  datatype Outcome = Outcome(ok: bool, message: string, trace: seq<Effect>)

  function LinePrefix(lineNum: nat): string {
    "Error at line " + NatToString(lineNum) + ": "
  }

  /** One command through the table: an unknown name, or the handler's verdict. */
  function RunOne(c: Command, host: Host, trace: seq<Effect>): (s: Step)
    ensures trace <= s.trace
    ensures c.name !in Handlers ==> s == Step(Fail("Unknown command '" + c.name + "'."), trace)
  {
    if c.name !in Handlers then Step(Fail("Unknown command '" + c.name + "'."), trace)
    else Dispatch(c, host, trace)
  }

  /** `execute_commands`: in order, stopping at the first failure with the failing
      command's line number in front of the reason. */
  function ExecuteCommands(cmds: seq<Command>, host: Host, trace: seq<Effect>, message: string): (o: Outcome)
    ensures trace <= o.trace
    ensures o.ok ==> o.message == message
    ensures !o.ok ==> exists i :: 0 <= i < |cmds| && StartsWith(o.message, LinePrefix(cmds[i].lineNum))
    ensures cmds != [] && RunOne(cmds[0], host, trace).verdict.Fail? ==>
      o == Outcome(false, LinePrefix(cmds[0].lineNum) + RunOne(cmds[0], host, trace).verdict.reason,
                   RunOne(cmds[0], host, trace).trace)
    decreases |cmds|
  {
    if cmds == [] then Outcome(true, message, trace)
    else
      var c := cmds[0];
      if c.name !in Handlers then
        Outcome(false, LinePrefix(c.lineNum) + "Unknown command '" + c.name + "'.", trace)
      else
        var s := Dispatch(c, host, trace);
        match s.verdict
        case Fail(why) => Outcome(false, LinePrefix(c.lineNum) + why, s.trace)
        case Pass =>
          var o := ExecuteCommands(cmds[1..], host, s.trace, message);
          assert !o.ok ==> exists i :: 1 <= i < |cmds| && StartsWith(o.message, LinePrefix(cmds[i].lineNum));
          o
  }

  /** Once a command fails, the commands after it are never dispatched: appending
      more commands changes nothing. */
  lemma {:induction false} ExecuteStopsAtFailure(a: seq<Command>, b: seq<Command>, host: Host,
                                                 trace: seq<Effect>, message: string)
    requires !ExecuteCommands(a, host, trace, message).ok
    ensures ExecuteCommands(a + b, host, trace, message) == ExecuteCommands(a, host, trace, message)
    decreases |a|
  {
    assert a != [];
    assert (a + b)[0] == a[0];
    assert (a + b)[1..] == a[1..] + b;
    var c := a[0];
    if c.name in Handlers && Dispatch(c, host, trace).verdict.Pass? {
      ExecuteStopsAtFailure(a[1..], b, host, Dispatch(c, host, trace).trace, message);
    }
  }

  /** Every failing run is pinned down: some command `i` fails after all earlier ones
      passed, and the outcome is that command's line prefix and reason, with the trace
      it left. */
  lemma {:induction false} ExecuteFailsAtFirst(cmds: seq<Command>, host: Host, trace: seq<Effect>, message: string)
    requires !ExecuteCommands(cmds, host, trace, message).ok
    ensures exists i :: 0 <= i < |cmds| && FailsAt(cmds, i, host, trace, message)
    decreases |cmds|
  {
    var c := cmds[0];
    var s := RunOne(c, host, trace);
    assert cmds == [c] + cmds[1..];
    if s.verdict.Fail? {
      assert cmds[..0] == [];
      assert FailsAt(cmds, 0, host, trace, message);
    } else {
      ExecuteFailsAtFirst(cmds[1..], host, s.trace, message);
      var j :| 0 <= j < |cmds[1..]| && FailsAt(cmds[1..], j, host, s.trace, message);
      assert cmds[..j + 1] == [c] + cmds[1..][..j];
      assert cmds[..j + 1][1..] == cmds[1..][..j];
      assert FailsAt(cmds, j + 1, host, trace, message);
    }
  }

  /** Command `i` is the first to fail, and the run's outcome is its failure. */
  ghost predicate FailsAt(cmds: seq<Command>, i: nat, host: Host, trace: seq<Effect>, message: string)
    requires i < |cmds|
  {
    var before := ExecuteCommands(cmds[..i], host, trace, message);
    var s := RunOne(cmds[i], host, before.trace);
    && before.ok
    && s.verdict.Fail?
    && ExecuteCommands(cmds, host, trace, message)
       == Outcome(false, LinePrefix(cmds[i].lineNum) + s.verdict.reason, s.trace)
  }

  /** When every command of `a` succeeds, their effects have all happened before `b` starts. */
  lemma {:induction false} ExecuteAfterSuccess(a: seq<Command>, b: seq<Command>, host: Host,
                                               trace: seq<Effect>, message: string)
    requires ExecuteCommands(a, host, trace, message).ok
    ensures ExecuteCommands(a + b, host, trace, message)
         == ExecuteCommands(b, host, ExecuteCommands(a, host, trace, message).trace, message)
    decreases |a|
  {
    if a == [] {
      assert a + b == b;
    } else {
      assert (a + b)[0] == a[0];
      assert (a + b)[1..] == a[1..] + b;
      ExecuteAfterSuccess(a[1..], b, host, Dispatch(a[0], host, trace).trace, message);
    }
  }

  /** A run succeeds exactly when each command, started where the previous one left
      the trace, is known and passes. */
  lemma {:induction false} ExecuteOkIffEachPasses(cmds: seq<Command>, host: Host, trace: seq<Effect>, message: string)
    ensures ExecuteCommands(cmds, host, trace, message).ok <==> AllPass(cmds, host, trace)
    decreases |cmds|
  {
    if cmds != [] {
      var s := RunOne(cmds[0], host, trace);
      ExecuteOkIffEachPasses(cmds[1..], host, s.trace, message);
    }
  }

  predicate AllPass(cmds: seq<Command>, host: Host, trace: seq<Effect>)
    decreases |cmds|
  {
    cmds == [] ||
      (var s := RunOne(cmds[0], host, trace); s.verdict.Pass? && AllPass(cmds[1..], host, s.trace))
  }

  /** `execute`: the variables start empty, the parse must succeed as a whole, and
      only then do the commands run. */
  function Execute(script: string, host: Host, message: string): (o: Outcome)
    ensures var p := ParseScript(script, map[], host.env, message);
      p.commands.None? ==> o == Outcome(false, p.message, [])
    ensures var p := ParseScript(script, map[], host.env, message);
      p.commands.Some? ==> o == ExecuteCommands(p.commands.value, host, [], p.message)
  {
    var p := ParseScript(script, map[], host.env, message);
    match p.commands
    case None => Outcome(false, p.message, [])
    case Some(cmds) => ExecuteCommands(cmds, host, [], p.message)
  }

  /** A script whose first line does not begin with the header fails at line 1 and
      runs nothing; an empty script fails as empty. */
  lemma HeaderRequired(script: string, host: Host, message: string)
    ensures GetlineSplit(script, '\n') == [] ==> Execute(script, host, message) == Outcome(false, EmptyMessage, [])
    ensures GetlineSplit(script, '\n') != [] && !StartsWith(GetlineSplit(script, '\n')[0], Shebang)
      ==> Execute(script, host, message) == Outcome(false, ShebangMessage, [])
  {
  }

  /** A one-line script that merely begins with the header is accepted and runs
      nothing: `#!safe_shell_x` passes the `find(SHEBANG) == 0` test. */
  lemma HeaderIsPrefixTest(script: string, host: Host, message: string)
    requires '\n' !in script && StartsWith(script, Shebang)
    ensures Execute(script, host, message) == Outcome(true, message, [])
  {
    assert GetlineSplit(script, '\n') == [script];
    FindZeroIffPrefix(script, Shebang);
  }

  lemma HeaderSuffixExample(host: Host)
    ensures Execute("#!safe_shell_x", host, "") == Outcome(true, "", [])
  {
    assert "#!safe_shell_x"[..|Shebang|] == Shebang;
    HeaderIsPrefixTest("#!safe_shell_x", host, "");
  }

  /** If the caller's message is not empty, the first line that reaches `parse_line`
      aborts the parse, even a good one: the shared out-parameter is also the
      parse-error flag. */
  lemma NonEmptyMessageAbortsParse(lines: seq<string>, lineNum: nat, vars: map<string, string>,
                                   env: map<string, string>, message: string)
    requires message != []
    requires lines != [] && !Skipped(Trim(lines[0]))
    ensures ParseBody(lines, lineNum, vars, env, message).commands == None
  {
  }

  /** `line` is a command line (neither skipped nor an assignment, with a token)
      whose arguments name `name`, known neither to `vars` nor to the environment. */
  ghost predicate UnknownNameLine(line: string, vars: map<string, string>, env: map<string, string>, name: string) {
    && !Skipped(Trim(line)) && (forall i: nat :: !IsAssignmentAt(Trim(line), i)) && Tokens(Trim(line)) != []
    && SubstituteArgs(Tokens(Trim(line))[1..], vars, env) == Failure(name)
  }

  /** Read after the lines `before`, which parse without error from line `lineNum`,
      `line` names `name`, known neither to the variables those lines left nor to
      the environment. */
  ghost predicate UnknownNameAt(before: seq<string>, line: string, lineNum: nat,
                                vars: map<string, string>, env: map<string, string>, name: string)
  {
    && ParseBody(before, lineNum, vars, env, "").commands.Some?
    && UnknownNameLine(line, BodyVars(before, lineNum, vars, env, ""), env, name)
  }

  /** A line whose arguments name a variable known neither to the script nor to the
      environment ends the parse with "Error at line N: Variable 'name' not found.",
      whatever came before it and after it: the commands of the earlier lines are
      discarded and the later lines are never read. `n` is the count of lines read
      before it, so N is `n + 1`. */
  lemma UnresolvedNameAborts(before: seq<string>, line: string, after: seq<string>, lineNum: nat, n: nat,
                             vars: map<string, string>, env: map<string, string>, name: string)
    requires n == lineNum + |before|
    requires UnknownNameAt(before, line, lineNum, vars, env, name)
    ensures ParseBody(before + ([line] + after), lineNum, vars, env, "")
         == ParseOutcome(None, UnresolvedMessage(n + 1, name))
  {
    LineAborts(line, after, n, BodyVars(before, lineNum, vars, env, ""), env, name);
    ParseBodyAppend(before, [line] + after, lineNum, n, vars, env, "");
  }

  /** The line itself, read as line `n + 1`, aborts the loop with its message. */
  lemma LineAborts(line: string, after: seq<string>, n: nat, vs: map<string, string>,
                   env: map<string, string>, name: string)
    requires UnknownNameLine(line, vs, env, name)
    ensures ParseBody([line] + after, n, vs, env, "") == ParseOutcome(None, UnresolvedMessage(n + 1, name))
  {
    var lr := ParseLine(Trim(line), n + 1, vs, env, "");
    ParseLineCommand(Trim(line), n + 1, vs, env, "");
    TailOfAppend([line], after);
    assert [line][1..] + after == after;
    ParseBodyLineOutcome([line] + after, n, vs, env, "", lr);
  }

  /** The same at the level of `execute`: with a header, an unknown variable on a
      later line fails the run with that line's message and no OS call is made.
      `n` counts the header and the lines before it, so the line is number `n + 1`. */
  lemma UnresolvedNameRunsNothing(script: string, header: string, before: seq<string>, line: string,
                                  after: seq<string>, n: nat, host: Host, name: string)
    requires GetlineSplit(script, '\n') == [header] + (before + ([line] + after)) && StartsWith(header, Shebang)
    requires n == 1 + |before|
    requires UnknownNameAt(before, line, 1, map[], host.env, name)
    ensures Execute(script, host, "") == Outcome(false, UnresolvedMessage(n + 1, name), [])
  {
    UnresolvedNameAborts(before, line, after, 1, n, map[], host.env, name);
    ExecuteFailedBody(script, header, before + ([line] + after), host, UnresolvedMessage(n + 1, name));
  }

  /** A body that fails to parse with message `m` after an accepted header makes
      `execute` fail with `m` before any OS call. */
  lemma ExecuteFailedBody(script: string, header: string, body: seq<string>, host: Host, m: string)
    requires GetlineSplit(script, '\n') == [header] + body && StartsWith(header, Shebang)
    requires ParseBody(body, 1, map[], host.env, "") == ParseOutcome(None, m)
    ensures Execute(script, host, "") == Outcome(false, m, [])
  {
    ParseScriptBody(script, header, body, map[], host.env, "");
  }

  /** Once the header is accepted, the script parses as its body from line 1. */
  lemma ParseScriptBody(script: string, header: string, body: seq<string>, vars: map<string, string>,
                        env: map<string, string>, message: string)
    requires GetlineSplit(script, '\n') == [header] + body && StartsWith(header, Shebang)
    ensures ParseScript(script, vars, env, message) == ParseBody(body, 1, vars, env, message)
  {
    assert ([header] + body)[1..] == body;
  }
}
