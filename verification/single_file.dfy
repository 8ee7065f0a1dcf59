/** The `cmd*` handlers of the two single-file interpreters, which are the same in
    both. `g_dry_run` is a global initialised to `true` that nothing assigns, so
    every handler takes its dry-run branch: it checks its arguments, prints, and
    reports success. Only the argument check decides the verdict. */
module DryRun {

  /** The names `registerCommands` puts into `command_map_`. */
  const Registered: set<string> := {"rm", "mkdir", "cp", "json", "cfgmgr", "reboot", "partctr", "replace"}

  function CmdRm(args: seq<string>): bool { args != [] }
  function CmdMkdir(args: seq<string>): bool { args != [] }
  function CmdCp(args: seq<string>): bool { |args| >= 2 }
  function CmdJson(args: seq<string>): bool { !(|args| < 4 || args[1] != "setcurrent") }
  function CmdCfgmgr(args: seq<string>): bool { args != [] }
  function CmdReboot(args: seq<string>): bool { true }
  function CmdPartctr(args: seq<string>): bool { args != [] }
  function CmdReplace(args: seq<string>): bool { args != [] }

  /** The handler `command_map_` holds under `name`, applied to `args`. */
  function Handle(name: string, args: seq<string>): bool
    requires name in Registered
  {
    match name
    case "rm" => CmdRm(args)
    case "mkdir" => CmdMkdir(args)
    case "cp" => CmdCp(args)
    case "json" => CmdJson(args)
    case "cfgmgr" => CmdCfgmgr(args)
    case "reboot" => CmdReboot(args)
    case "partctr" => CmdPartctr(args)
    case _ => CmdReplace(args)
  }

  /** The fewest arguments each handler accepts. */
  function MinArgs(name: string): nat {
    match name
    case "cp" => 2
    case "json" => 4
    case "reboot" => 0
    case _ => 1
  }

  /** In dry-run mode a handler succeeds exactly when it has enough arguments, and
      for `json` when the second one is `setcurrent`; extra arguments never hurt. */
  lemma GateTable(name: string, args: seq<string>)
    requires name in Registered
    ensures Handle(name, args) <==> |args| >= MinArgs(name) && (name == "json" ==> args[1] == "setcurrent")
  {
  }
}

/** The first single-file interpreter (`safeShell/sigleFile/SafeShell.cpp`): no
    variables and no comments; the header must be the first non-empty line exactly,
    and after it every line is attempted and a failure is only logged. */
module SafeShellV1 {
  import opened Text
  import opened DryRun

  const Shebang: string := "#!safe_shell"

  /** `parseLine`: a line led by a space is passed over as a success; otherwise the
      first token names the handler (the empty name if there is no token) and the
      other tokens are its arguments, used as they are. */
  function ParseLine(line: string): (ok: bool)
    ensures CharAt(line, 0) == ' ' ==> ok
    ensures CharAt(line, 0) != ' ' ==>
      (ok <==> Tokens(line) != [] && Tokens(line)[0] in Registered && Handle(Tokens(line)[0], Tokens(line)[1..]))
  {
    if CharAt(line, 0) == ' ' then true
    else
      var ts := Tokens(line);
      var cmd := if ts == [] then "" else ts[0];
      var args := if ts == [] then [] else ts[1..];
      cmd in Registered && Handle(cmd, args)
  }

  /** The first token of a line that starts with a non-space character starts with
      that character. */
  lemma FirstTokenHead(line: string)
    requires line != [] && !IsSpace(line[0])
    ensures Tokens(line) != [] && Tokens(line)[0] != [] && Tokens(line)[0][0] == line[0]
  {
  }

  /** There is no comment syntax after the header: a `#` line is looked up as a
      command and fails as unknown. */
  lemma CommentLineFails(line: string)
    requires line != [] && line[0] == '#'
    ensures !ParseLine(line)
  {
    FirstTokenHead(line);
  }

  /** Only a leading space is special: a tab-led line is parsed like the rest of it. */
  lemma TabLedLineParsed(line: string)
    requires CharAt(line, 0) != ' '
    ensures ParseLine("\t" + line) == ParseLine(line)
  {
    TokensSkipSpace("\t", line);
  }

  /** What a run reports: the result of `executeScript` and, in order, the result of
      each line it handed to `parseLine`. */
  datatype Report = Report(ok: bool, results: seq<bool>)

  /** The `while (std::getline(...))` loop; `firstLine` is true until the first
      non-empty line has been seen. */
  function ExecuteLines(lines: seq<string>, firstLine: bool): (r: Report)
    ensures |r.results| <= |lines|
    ensures !firstLine ==> r.ok
  {
    if lines == [] then Report(true, [])
    else if lines[0] == [] then ExecuteLines(lines[1..], firstLine)
    else if firstLine then
      if lines[0] != Shebang then Report(false, [])
      else ExecuteLines(lines[1..], false)
    else
      var ok := ParseLine(lines[0]);
      var rest := ExecuteLines(lines[1..], false);
      Report(rest.ok, [ok] + rest.results)
  }

  /** `executeScript` on the lines of an opened file. */
  function ExecuteScript(lines: seq<string>): Report {
    ExecuteLines(lines, true)
  }

  /** The non-empty lines, in order. */
  function NonEmpty(lines: seq<string>): (r: seq<string>)
    ensures forall l <- r :: l != []
  {
    if lines == [] then []
    else if lines[0] == [] then NonEmpty(lines[1..])
    else [lines[0]] + NonEmpty(lines[1..])
  }

  /** Each line's own `parseLine` result. */
  function ParseEach(lines: seq<string>): (r: seq<bool>)
    ensures |r| == |lines|
    ensures forall k :: 0 <= k < |lines| ==> r[k] == ParseLine(lines[k])
  {
    if lines == [] then [] else [ParseLine(lines[0])] + ParseEach(lines[1..])
  }

  lemma {:induction false} AfterHeader(lines: seq<string>)
    ensures ExecuteLines(lines, false) == Report(true, ParseEach(NonEmpty(lines)))
  {
    if lines != [] {
      AfterHeader(lines[1..]);
      if lines[0] != [] {
        assert NonEmpty(lines) == [lines[0]] + NonEmpty(lines[1..]);
        assert ParseEach(NonEmpty(lines)) == [ParseLine(lines[0])] + ParseEach(NonEmpty(lines[1..]));
      }
    }
  }

  /** A run succeeds exactly when the first non-empty line is the header (or there
      is none); then every later non-empty line is parsed, each on its own, and the
      run succeeds whatever they return. A rejected header parses nothing. */
  lemma {:induction false} ExecuteScriptSpec(lines: seq<string>)
    ensures var r := ExecuteScript(lines);
      var ne := NonEmpty(lines);
      && (r.ok <==> ne == [] || ne[0] == Shebang)
      && (r.ok ==> r.results == ParseEach(if ne == [] then [] else ne[1..]))
      && (!r.ok ==> r.results == [])
  {
    if lines != [] {
      if lines[0] == [] {
        ExecuteScriptSpec(lines[1..]);
      } else if lines[0] == Shebang {
        AfterHeader(lines[1..]);
        assert NonEmpty(lines) == [lines[0]] + NonEmpty(lines[1..]);
      }
    }
  }
}

/** The second single-file interpreter (`safeShell/sigleFile/SafeShell2.cpp`):
    comment lines, `${name}` expansion of every token, and a stop at the first line
    that fails. */
module SafeShellV2 {
  import opened Wrappers
  import opened Text
  import opened Placeholders
  import opened DryRun

  const Shebang: string := "#!safe_shell"

  /** `[A-Za-z_][A-Za-z0-9_]*`: a C identifier. */
  predicate IsIdentifier(s: string) {
    s != [] && (IsAlpha(s[0]) || s[0] == '_') && forall c <- s :: IsAlnum(c) || c == '_'
  }

  /** The pieces of a regular expression that the key pattern uses. */
  datatype CharClass = IdentStart | IdentChar   // `[A-Za-z_]` and `[A-Za-z0-9_]`
  datatype Atom =
    | StartAnchor          // `^`
    | EndAnchor            // `$`
    | One(cls: CharClass)  // one character of the class
    | Many(cls: CharClass) // `*`: any number of characters of the class
    | Quote                // the literal `"`

  predicate InClass(cls: CharClass, c: char) {
    match cls
    case IdentStart => IsAlpha(c) || c == '_'
    case IdentChar => IsAlnum(c) || c == '_'
  }

  /** The key pattern as written, `^[A-Za-z_][A-Za-z0-9_]*$"`. */
  const KeyPattern: seq<Atom> := [StartAnchor, One(IdentStart), Many(IdentChar), EndAnchor, Quote]

  /** Whether `pat` matches `key[i..]` to the end of the key, as `regex_match`
      demands; `$` holds only at the end of the key. */
  predicate MatchesFrom(pat: seq<Atom>, key: string, i: nat)
    decreases |pat|, |key| - i
  {
    if pat == [] then i == |key|
    else match pat[0]
      case StartAnchor => i == 0 && MatchesFrom(pat[1..], key, i)
      case EndAnchor => i == |key| && MatchesFrom(pat[1..], key, i)
      case One(cls) => i < |key| && InClass(cls, key[i]) && MatchesFrom(pat[1..], key, i + 1)
      case Quote => i < |key| && key[i] == '"' && MatchesFrom(pat[1..], key, i + 1)
      case Many(cls) =>
        MatchesFrom(pat[1..], key, i) || (i < |key| && InClass(cls, key[i]) && MatchesFrom(pat, key, i + 1))
  }

  /** `regex_match(key, key_pattern)`. */
  predicate KeyPatternMatches(key: string) {
    MatchesFrom(KeyPattern, key, 0)
  }

  /** After the end anchor nothing can be read, so `$"` matches nowhere. */
  lemma {:induction false} StrayQuoteNeverMatches(key: string, i: nat)
    ensures !MatchesFrom(KeyPattern[2..], key, i)
    decreases |key| - i
  {
    var tail := KeyPattern[2..];
    assert tail == [Many(IdentChar), EndAnchor, Quote];
    assert tail[1..] == [EndAnchor, Quote];
    assert !MatchesFrom(tail[1..], key, i) by {
      assert tail[1..][1..] == [Quote] && [Quote][1..] == [];
    }
    if i < |key| {
      StrayQuoteNeverMatches(key, i + 1);
    }
  }

  /** The end anchor and the trailing quote cannot both be satisfied: no key matches. */
  lemma KeyPatternNeverMatches(key: string)
    ensures !KeyPatternMatches(key)
  {
    var rest := KeyPattern[1..];
    assert rest == [One(IdentStart), Many(IdentChar), EndAnchor, Quote];
    assert rest[1..] == KeyPattern[2..];
    StrayQuoteNeverMatches(key, 1);
    assert !MatchesFrom(rest, key, 0);
  }

  /** Without the stray quote the pattern would accept exactly the identifiers. */
  const IntendedKeyPattern: seq<Atom> := [StartAnchor, One(IdentStart), Many(IdentChar), EndAnchor]

  lemma {:induction false} IdentTailMatches(key: string, i: nat)
    requires i <= |key|
    ensures MatchesFrom(IntendedKeyPattern[2..], key, i) <==> forall k :: i <= k < |key| ==> InClass(IdentChar, key[k])
    decreases |key| - i
  {
    var tail := IntendedKeyPattern[2..];
    assert tail == [Many(IdentChar), EndAnchor];
    assert tail[1..] == [EndAnchor] && tail[1..][1..] == [];
    assert MatchesFrom(tail[1..], key, i) <==> i == |key|;
    if i < |key| {
      IdentTailMatches(key, i + 1);
      if forall k :: i + 1 <= k < |key| ==> InClass(IdentChar, key[k]) {
        if InClass(IdentChar, key[i]) {
          assert forall k :: i <= k < |key| ==> InClass(IdentChar, key[k]) by {
            forall k | i <= k < |key| ensures InClass(IdentChar, key[k]) {
              if k > i { assert i + 1 <= k; }
            }
          }
        }
      }
    }
  }

  lemma IntendedPatternMatchesIdentifiers(key: string)
    ensures MatchesFrom(IntendedKeyPattern, key, 0) <==> IsIdentifier(key)
  {
    assert IntendedKeyPattern[1..] == [One(IdentStart), Many(IdentChar), EndAnchor];
    assert IntendedKeyPattern[1..][1..] == IntendedKeyPattern[2..];
    if key != [] {
      IdentTailMatches(key, 1);
      if IsIdentifier(key) {
        assert forall k :: 1 <= k < |key| ==> InClass(IdentChar, key[k]) by {
          forall k | 1 <= k < |key| ensures InClass(IdentChar, key[k]) { assert key[k] in key; }
        }
      }
      if MatchesFrom(IntendedKeyPattern, key, 0) {
        assert MatchesFrom(IntendedKeyPattern[1..], key, 0);
        assert InClass(IdentStart, key[0]) && MatchesFrom(IntendedKeyPattern[2..], key, 1);
        assert forall k :: 1 <= k < |key| ==> InClass(IdentChar, key[k]);
        forall c | c in key ensures IsAlnum(c) || c == '_' {
          var k :| 0 <= k < |key| && key[k] == c;
          if k > 0 { assert InClass(IdentChar, key[k]); }
        }
      }
    }
  }

  /** A name is looked up in the script's variables, then in the environment, and
      an unknown name reads as the empty string. */
  function Resolver(vars: map<string, string>, env: map<string, string>): string -> Option<string> {
    (n: string) => Some(if n in vars then vars[n] else if n in env then env[n] else "")
  }

  /** `expandVariables`: text without `${` is returned as it is; otherwise every
      placeholder is replaced left to right, and the scan never fails. */
  function ExpandVariables(input: string, vars: map<string, string>, env: map<string, string>): (r: string)
    ensures Expand(input, Resolver(vars, env)) == Success(r)
  {
    if Find(input, "${") == None then
      ExpandNoPlaceholder(input, Resolver(vars, env));
      input
    else Expand(input, Resolver(vars, env)).value
  }

  /** Expanding a template that reads back as its pieces renders it with unknown
      names read as empty. */
  lemma ExpandVariablesRender(ps: seq<Piece>, vars: map<string, string>, env: map<string, string>)
    requires Parses(ps)
    ensures Success(ExpandVariables(Show(ps), vars, env)) == Render(ps, Resolver(vars, env))
  {
    ExpandShow(ps, Resolver(vars, env));
  }

  /** An unknown name is replaced by nothing, where the 2.0 interpreter fails. */
  lemma UnknownNameIsEmpty(before: string, name: string, after: string,
                           vars: map<string, string>, env: map<string, string>)
    requires '$' !in before && '$' !in after
    requires IsPlaceholderName(name) && name !in vars && name !in env
    ensures ExpandVariables(before + "${" + name + "}" + after, vars, env) == before + after
  {
    var ps := [Lit(before), Ref(name), Lit(after)];
    assert WellFormed(ps[0]) && WellFormed(ps[1]) && WellFormed(ps[2]);
    WellFormedParses(ps);
    assert Show(ps[2..]) == after by { assert ps[2..][1..] == []; assert after + [] == after; }
    assert Show(ps[1..]) == "${" + name + "}" + after by { assert ps[1..][1..] == ps[2..]; }
    assert Show(ps) == before + "${" + name + "}" + after;
    ExpandVariablesRender(ps, vars, env);
    var r := Resolver(vars, env);
    assert Render(ps[2..], r) == Success(after) by {
      assert ps[2..][1..] == [];
      assert after + [] == after;
    }
    assert Render(ps[1..], r) == Success("" + after) by { assert ps[1..][1..] == ps[2..]; }
    assert "" + after == after;
  }

  /** The interpreter's variables after a line, and whether the line succeeded. */
  datatype LineStep = LineStep(ok: bool, vars: map<string, string>)

  /** `handleAssignment`: false when the line has no `=`; otherwise the line is
      consumed, and the variable is stored (its value expanded) only when the key
      matches the name pattern. */
  function HandleAssignment(line: string, vars: map<string, string>, env: map<string, string>): (r: LineStep)
    ensures r.ok <==> '=' in line
    ensures r.vars != vars ==> exists i :: 0 <= i < |line| && KeyPatternMatches(line[..i])
  {
    match IndexOf(line, '=')
    case None => LineStep(false, vars)
    case Some(eq) =>
      var key, value := line[..eq], line[eq + 1..];
      if !KeyPatternMatches(key) then LineStep(true, vars)
      else LineStep(true, vars[key := ExpandVariables(value, vars, env)])
  }

  /** Every token expanded. */
  function ExpandAll(ts: seq<string>, vars: map<string, string>, env: map<string, string>): (r: seq<string>)
    ensures |r| == |ts|
    ensures forall k :: 0 <= k < |ts| ==> r[k] == ExpandVariables(ts[k], vars, env)
  {
    if ts == [] then [] else [ExpandVariables(ts[0], vars, env)] + ExpandAll(ts[1..], vars, env)
  }

  /** `handleCommand`: a line with no token succeeds; otherwise the name and the
      arguments are all expanded, and the expanded name must be registered. */
  function HandleCommand(line: string, vars: map<string, string>, env: map<string, string>): (ok: bool)
    ensures Tokens(line) == [] ==> ok
    ensures Tokens(line) != [] ==>
      (ok <==> var name := ExpandVariables(Tokens(line)[0], vars, env);
               name in Registered && Handle(name, ExpandAll(Tokens(line)[1..], vars, env)))
  {
    var ts := Tokens(line);
    if ts == [] then true
    else
      var cmd := ExpandVariables(ts[0], vars, env);
      var args := ExpandAll(ts[1..], vars, env);
      cmd in Registered && Handle(cmd, args)
  }

  /** `parseLine`: an assignment first, else a command. */
  function ParseLine(line: string, vars: map<string, string>, env: map<string, string>): (r: LineStep)
    ensures '=' !in line ==> r == LineStep(HandleCommand(line, vars, env), vars)
  {
    var a := HandleAssignment(line, vars, env);
    if a.ok then a else LineStep(HandleCommand(line, vars, env), vars)
  }

  /** With the pattern as written, any line holding `=` succeeds, changes no
      variable and dispatches nothing, whatever stands around the `=`. */
  lemma AssignmentsDropped(line: string, vars: map<string, string>, env: map<string, string>)
    requires '=' in line
    ensures ParseLine(line, vars, env) == LineStep(true, vars)
  {
    var eq := IndexOf(line, '=');
    KeyPatternNeverMatches(line[..eq.value]);
  }

  /** What a run reports: the result of `executeScript`, the variables it leaves,
      and how many lines it handed to `parseLine`. */
  datatype Report = Report(ok: bool, vars: map<string, string>, parsed: nat)

  predicate Passed(line: string) {
    line == [] || line[0] == '#'
  }

  /** The `while (std::getline(...))` loop: empty and `#` lines are skipped, the
      first other line must equal `header`, and the first line that fails ends the
      run. */
  function ExecuteLines(lines: seq<string>, header: string, firstLine: bool, vars: map<string, string>,
                        env: map<string, string>): (r: Report)
    ensures r.parsed <= |lines|
  {
    if lines == [] then Report(true, vars, 0)
    else if Passed(lines[0]) then ExecuteLines(lines[1..], header, firstLine, vars, env)
    else if firstLine then
      if lines[0] != header then Report(false, vars, 0)
      else ExecuteLines(lines[1..], header, false, vars, env)
    else
      var s := ParseLine(lines[0], vars, env);
      if !s.ok then Report(false, s.vars, 1)
      else
        var rest := ExecuteLines(lines[1..], header, false, s.vars, env);
        Report(rest.ok, rest.vars, rest.parsed + 1)
  }

  /** `executeScript` on the lines of an opened file, from the shell's variables. */
  function ExecuteScript(lines: seq<string>, vars: map<string, string>, env: map<string, string>): Report {
    ExecuteLines(lines, Shebang, true, vars, env)
  }

  /** The header is itself a `#` line and is skipped, so the first line that is not
      skipped never equals it: a run succeeds exactly when every line is empty or a
      comment, no line ever reaches `parseLine`, and the variables stay as they were. */
  lemma {:induction false} ExecuteScriptSpec(lines: seq<string>, vars: map<string, string>, env: map<string, string>)
    ensures var r := ExecuteScript(lines, vars, env);
      && (r.ok <==> forall l <- lines :: Passed(l))
      && r.parsed == 0
      && r.vars == vars
  {
    if lines != [] {
      ExecuteScriptSpec(lines[1..], vars, env);
      if Passed(lines[0]) {
        assert forall l <- lines :: l in lines[1..] || l == lines[0];
      } else {
        assert Shebang[0] == '#';
      }
    }
  }
}
