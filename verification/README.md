# Safe-shell interpreters, string utilities, a robot executor and a TLV decoder

This project models the sequential logic of a small C++ repository in Dafny and proves properties of it. The repository holds five independent pieces:

- **The safe-shell interpreter, version 2.0** (`safeShell/2.0/safeshell.cpp`). It runs a script in two phases.
  - The parse phase checks the header, trims each later line and skips blank and comment lines. It records `NAME=value` assignments and substitutes `${name}` in command arguments, taking script variables before the environment. An unresolved name fails the whole parse.
  - The execute phase dispatches the commands in order through a fixed handler table and stops at the first failure. The handlers are `rm`, `mkdir`, `pkill`, `json`, `cfgmgr`, `reboot` and `partctr`.
  - Every OS call is an `Effect` answered by an oracle in a `Host` value, which also holds the environment as a map and the octal parse as a partial function. A run yields a success flag, an error message and the trace of attempted OS calls.
- **Two older single-file interpreters** (`safeShell/sigleFile/SafeShell.cpp` and `SafeShell2.cpp`) and **the command-object interpreter** (`safeShell/commandMode-MultipleFile`). They are modelled over the lines of an opened script, with their dry-run flags at their default `true`.
- **Two versions of a string-utility library** (`project_string/StringUtils_Improved` and `StringUtils_Practice`). The unchecked version is related to the checked one by equivalence lemmas.
- **A robot executor** (`executor-bootstrap`): a position and one of four headings, inert until `init`.
- **A nested TLV decoder** (`test_code/tlv.cpp`), proved to invert an encoder and to print the worked example of its header comment.

Files and modules:

- **`wrappers.dfy`** — `Option` and `Result`.
- **`text.dfy`** (`Text`) — the C++ string behaviour the interpreters rely on: `std::getline` splitting, `istream >>` tokens, `find`, the `" \t\n\r"` trim, and `std::to_string`.
- **`placeholders.dfy`** (`Placeholders`) — the `${name}` scan, shared by version 2.0 and the second single-file interpreter.
- **`safeshell.dfy`** (`SafeShell`) — version 2.0.
- **`safeshell_examples.dfy`** — a worked script run through version 2.0.
- **`single_file.dfy`** — `DryRun`, `SafeShellV1` and `SafeShellV2`.
- **`command_mode.dfy`** — `CommandFactory` and `CommandMode`.
- **`string_utils.dfy`** — `CppString`, `StringUtilsImproved` and `StringUtilsPractice`.
- **`robot_executor.dfy`** — `RobotExecutor`.
- **`tlv.dfy`** and **`tlv_example.dfy`** — `Tlv` and `TlvExample`.

Quirks of the code that the model keeps as written:

- **Version 2.0**
  - The header test is `find(SHEBANG) == 0`, a prefix test, so `#!safe_shell_x` is accepted.
  - Lines are trimmed before the leading-whitespace test, so that test can never fire.
  - `X=` assigns the empty string, because `line[size()]` is the terminating NUL.
  - Unknown command names are caught only when the commands run.
  - The caller's `error_message` is also the parse-error flag. The model takes its initial value as a parameter: the lemmas about normal runs assume it is empty, and `NonEmptyMessageAbortsParse` shows what a non-empty one does.
- **`SafeShell2.cpp`**
  - The variable-name pattern ends in `$"`, a quote after the end anchor, so no name matches and every assignment is dropped.
  - The header line begins with `#`, so it is skipped as a comment, and any other first line fails the header test.
- **`SafeShell.cpp` and the command-object interpreter** have no comment syntax.
- **The TLV loop** advances an index by `6 + L`. The model reads the same run by dropping the bytes of each element it has read.

The interface headers disagree with the `.cpp` files in places (out-parameters against `std::optional` returns in `safeShell/2.0/safeshell.h`); the model follows the `.cpp` files.

## Model

| member | source | states |
|---|---|---|
| `SafeShell.SubstituteArgs` | safeShell/2.0/safeshell.cpp:159-191 | On success every argument is replaced, in order, by its expansion with script variables looked up before the environment; a failure carries the error of the first argument whose expansion fails, every earlier one expanding successfully |
| `Placeholders.PlaceholderAt` | safeShell/2.0/safeshell.cpp:160 | A match at the front is `${`, a name of one or more non-`}` characters, `}`, and the rest of the text |
| `Placeholders.PlaceholderAtExact` | safeShell/2.0/safeshell.cpp:160 | Text that opens with a well-formed placeholder is matched as exactly that placeholder |
| `Placeholders.Expand` | safeShell/2.0/safeshell.cpp:166-188 | A failure names a variable the resolver does not know; a resolver that knows every name never fails |
| `Placeholders.ExpandNoPlaceholder` | safeShell/2.0/safeshell.cpp:166-187 | Text in which `${` never occurs comes back unchanged |
| `Placeholders.ExpandLiteral` | safeShell/2.0/safeshell.cpp:166-168 | Literal text at which no placeholder starts is copied verbatim ahead of the expansion of the rest |
| `Placeholders.ExpandReference` | safeShell/2.0/safeshell.cpp:169-185 | A placeholder is replaced by its value and the scan resumes after the `}`, so the inserted value is not rescanned; an unknown name fails |
| `Placeholders.ExpandShow` | safeShell/2.0/safeshell.cpp:159-191 | For any list of literal text and references that reads back as itself (no placeholder starts inside literal text, so a bare `$` or `$HOME` is allowed), expanding its text equals rendering it against an independent definition: each reference replaced by its value, adjacent references included, failing at the first unknown name |
| `Placeholders.WellFormedParses` | safeShell/2.0/safeshell.cpp:160 | Pieces whose literal text holds no `$` read back as themselves |
| `Placeholders.DollarNotBraceNoPlaceholder` | safeShell/2.0/safeshell.cpp:160 | Text in which every `$` is followed by a character other than `{` opens no placeholder, whatever follows it |
| `Placeholders.ExpandDollarText` | safeShell/2.0/safeshell.cpp:166-187 | `$HOME/${X}` keeps `$HOME/` literally and replaces only `${X}` |
| `SafeShell.ParseLine` | safeShell/2.0/safeshell.cpp:124-157 | A command carries its line number and leaves the message alone; otherwise the message is unchanged or is an error for this line, with the variables untouched |
| `SafeShell.ParseLineAssignment` | safeShell/2.0/safeshell.cpp:126-135 | A line whose first `=` is past index 0, has no space on either side and follows a name of letters, digits and `_` stores the raw, unsubstituted right-hand side under that name and yields no command |
| `SafeShell.ParseLineCommand` | safeShell/2.0/safeshell.cpp:137-156 | Any other line leaves the variables alone; its first token is the name, never substituted; it yields a command exactly when it has a token and every argument resolves; the arguments are the substituted remaining tokens; when substitution fails the message is exactly `Error at line N: Variable '<name>' not found.` for the failing name |
| `SafeShell.AssignEmptyValue` | safeShell/2.0/safeshell.cpp:127-132 | `X=` assigns the empty string |
| `SafeShell.LeadingWhitespaceUnreachable` | safeShell/2.0/safeshell.cpp:97-109 | After the trim a line is passed over exactly when it is blank or a comment: the whitespace test adds nothing |
| `SafeShell.ParseBody` | safeShell/2.0/safeshell.cpp:94-121 | A successful parse keeps the caller's message and yields commands in strictly increasing line order, each from a line of the body |
| `SafeShell.ParseBodyAppend` | safeShell/2.0/safeshell.cpp:94-121 | The loop over two runs of lines is the loop over the first, then, unless it aborted, the loop over the second from the line count (one per line of the first, skipped or not) and the variables the first left, its commands after the first's; an abort in either discards all commands |
| `SafeShell.ParseBodyOneLine` | safeShell/2.0/safeshell.cpp:97-117 | A single line is skipped when blank or a comment, aborts with its message when `parse_line` sets one, and otherwise contributes its command, if any |
| `SafeShell.AfterLine` | safeShell/2.0/safeshell.cpp:111-117 | Commands survive only while the shared message is empty, and stay in line order |
| `SafeShell.ParseScript` | safeShell/2.0/safeshell.cpp:75-122 | An empty script fails as empty; a first line that does not begin with `#!safe_shell` fails with the line-1 header message; when it does begin with it, the result is the loop over the remaining lines from line 1 |
| `SafeShell.ParseScriptBody` | safeShell/2.0/safeshell.cpp:82-94 | Once the header is accepted, the script parses as its later lines counted from line 1 |
| `SafeShell.UnresolvedNameAborts` | safeShell/2.0/safeshell.cpp:111-116 | For any lines before (which parse without error) and after: a command line whose argument substitution fails with a name, against the variables the earlier lines left, ends the parse with no commands and `Error at line N: Variable '<name>' not found.`, N being that line's own number; the later lines are not read |
| `SafeShell.LineAborts` | safeShell/2.0/safeshell.cpp:111-116 | Such a line, read first, aborts the loop at once with its own message, whatever follows it |
| `SafeShell.UnresolvedNameRunsNothing` | safeShell/2.0/safeshell.cpp:59-71 | The same through `execute`: after an accepted header such a line fails the run with that message, its number counting the header, and no OS call is made |
| `SafeShell.ExecuteFailedBody` | safeShell/2.0/safeshell.cpp:63-67 | A body that fails to parse after an accepted header fails the run with the parse message and an empty trace |
| `SafeShell.NonEmptyMessageAbortsParse` | safeShell/2.0/safeshell.cpp:111-116 | A non-empty incoming message aborts the parse at the first line that reaches `parse_line`, even a good one |
| `SafeShell.HandleRm` | safeShell/2.0/safeshell.cpp:215-229 | Any count other than one argument fails with no OS call; otherwise exactly one `remove_all` of the path is attempted, and the verdict is whether the OS accepted it |
| `SafeShell.SplitOwnerGroup` | safeShell/2.0/safeshell.cpp:260-268 | No `:` gives no split; otherwise the text is user, `:`, group, with no `:` in the user |
| `SafeShell.SplitOwnerGroupJoin` | safeShell/2.0/safeshell.cpp:260-268 | Splitting `user:group` recovers both halves whenever the user holds no `:` |
| `SafeShell.HandleMkdir` | safeShell/2.0/safeshell.cpp:231-289 | Any count other than three arguments fails with no OS call; with three, at least one and at most five calls are appended to the trace, each made exactly when the previous one was accepted (see `MkdirCallOrder`) |
| `SafeShell.MkdirOwner` | safeShell/2.0/safeshell.cpp:260-288 | The user lookup is made exactly when the text splits at `:`; the group lookup exactly when the user lookup was accepted; the chown exactly when the group lookup was accepted, with the ids the lookups returned; the verdict is pass exactly when all three were made and the chown was accepted |
| `SafeShell.MkdirCallOrder` | safeShell/2.0/safeshell.cpp:240-285 | The calls are create, chmod with the parsed octal mode, user lookup, group lookup, chown with the looked-up ids, in that order; the chmod is made exactly when the create was accepted and the mode parses, the user lookup exactly when the chmod was accepted and the owner splits, and each later call exactly when the previous one was accepted; a failure undoes none of the calls already made |
| `SafeShell.MkdirPassIff` | safeShell/2.0/safeshell.cpp:240-288 | `mkdir` passes exactly when all five calls were made and the OS accepted the chown |
| `SafeShell.MkdirUnknownGroup` | safeShell/2.0/safeshell.cpp:276-280 | An unknown group fails after the create, chmod and user lookup, before any chown, with a message naming the group |
| `SafeShell.HandlePkill` | safeShell/2.0/safeshell.cpp:291-319 | A count other than two fails; with two it passes exactly when the name is in `[A-Za-z0-9_]*` and the signal in `[A-Za-z]*`, empty ones included; a pass runs the command line `pkill -<signal> <name>` once and a failure runs nothing |
| `SafeShell.PkillNoInjection` | safeShell/2.0/safeshell.cpp:303-310 | An accepted command line holds no shell metacharacter, and a name holding `;` is refused before anything runs |
| `SafeShell.PkillIgnoresSystemResult` | safeShell/2.0/safeshell.cpp:310-318 | The verdict and trace do not depend on what `system` returns |
| `SafeShell.JsonPointer` | safeShell/2.0/safeshell.cpp:341 | The pointer is `/` followed by the key with every `.` replaced by `/`, so it holds no `.` |
| `SafeShell.HandleJson` | safeShell/2.0/safeshell.cpp:321-374 | Anything but four arguments with `set` second fails with no OS call; otherwise one document update at the key's pointer is attempted, and the verdict is pass exactly when the OS accepted it |
| `SafeShell.HandleCfgmgr` | safeShell/2.0/safeshell.cpp:379-389 | Passes exactly with at least two arguments, and makes no OS call either way |
| `SafeShell.HandleReboot` | safeShell/2.0/safeshell.cpp:391-400 | Passes exactly with no arguments, and makes no OS call (the real reboot is not issued) |
| `SafeShell.HandlePartctr` | safeShell/2.0/safeshell.cpp:402-410 | Passes exactly with two arguments, and makes no OS call either way |
| `SafeShell.Dispatch` | safeShell/2.0/safeshell.cpp:43-53 | A handler only ever appends to the trace |
| `SafeShell.GateBeforeEffect` | safeShell/2.0/safeshell.cpp:216-405 | Against the arity table (rm 1, mkdir 3, pkill 2, json 4 with `set`, cfgmgr at least 2, reboot 0, partctr 2), a closed gate fails with no OS call, and `cfgmgr`, `reboot` and `partctr` pass, with no call, exactly when it is open |
| `SafeShell.RunOne` | safeShell/2.0/safeshell.cpp:198-204 | An unknown name fails with no OS call |
| `SafeShell.ExecuteCommands` | safeShell/2.0/safeshell.cpp:196-211 | The trace only grows; success keeps the message; when the first command fails the run ends with `Error at line N: ` and that command's reason (`Unknown command '<name>'.` for a name outside the table, otherwise the handler's own message), keeping the OS calls the failing handler made before it refused |
| `SafeShell.ExecuteFailsAtFirst` | safeShell/2.0/safeshell.cpp:197-208 | Every failing run has a first failing command: all commands before it pass, and the outcome is its line prefix and reason with the trace its handler left |
| `SafeShell.ExecuteStopsAtFailure` | safeShell/2.0/safeshell.cpp:197-208 | After a failing command nothing more is dispatched: appending commands changes nothing |
| `SafeShell.ExecuteAfterSuccess` | safeShell/2.0/safeshell.cpp:197-210 | When a run of commands succeeds, the commands after it start from the trace it left |
| `SafeShell.ExecuteOkIffEachPasses` | safeShell/2.0/safeshell.cpp:196-211 | A run succeeds exactly when each command is known and passes, each starting where the previous one left the trace |
| `SafeShell.Execute` | safeShell/2.0/safeshell.cpp:59-71 | With the variables cleared, a failed parse fails the run with the parse message before any OS call; a successful parse runs exactly the parsed commands in order from an empty trace |
| `SafeShell.HeaderRequired` | safeShell/2.0/safeshell.cpp:82-91 | An empty script fails with "Error: Script is empty." and a bad first line with the line-1 header message, both with an empty trace |
| `SafeShell.HeaderIsPrefixTest` | safeShell/2.0/safeshell.cpp:84 | Any one-line script that merely begins with `#!safe_shell` is accepted and runs nothing |
| `SafeShell.HeaderSuffixExample` | safeShell/2.0/safeshell.cpp:84 | `#!safe_shell_x` is accepted |
| `SafeShellExamples.ExampleLines` | safeShell/2.0/safeshell.cpp:82-95 | The three-line example script is cut into its three lines |
| `SafeShellExamples.ExampleAssign` | safeShell/2.0/safeshell.cpp:126-133 | `NAME=cache` stores `cache` under `NAME` |
| `SafeShellExamples.ExampleRm` | safeShell/2.0/safeshell.cpp:138-156 | `rm /tmp/${NAME}` becomes `rm` with the argument `/tmp/cache` |
| `SafeShellExamples.ExampleParse` | safeShell/2.0/safeshell.cpp:75-122 | The example script parses to exactly that one command, on line 3 |
| `SafeShellExamples.ExampleRemoveCache` | safeShell/2.0/safeshell.cpp:59-71 | Run against an OS that accepts the removal, the example succeeds after exactly one `remove_all("/tmp/cache")` |
| `SafeShellExamples.RmLineUnknownName` | safeShell/2.0/safeshell.cpp:137-156 | With `NAME` unset in the environment and no assignment before it, `rm /tmp/${NAME}` is a command line whose substitution fails on `NAME` |
| `SafeShellExamples.ExampleUnknownName` | safeShell/2.0/safeshell.cpp:59-71 | The header followed by that line alone fails with `Error at line 2: Variable 'NAME' not found.` and no OS call |
| `DryRun.GateTable` | safeShell/sigleFile/SafeShell.cpp:77-176 | In dry-run mode (both single-file versions, `SafeShell2.cpp:138-249` likewise) a handler succeeds with no effect exactly when it has enough arguments: one for rm, mkdir, cfgmgr, partctr and replace, two for cp, four with `setcurrent` second for json, none for reboot |
| `SafeShellV1.ParseLine` | safeShell/sigleFile/SafeShell.cpp:56-73 | A line led by a space succeeds; otherwise it succeeds exactly when its first token is a registered name whose handler accepts the remaining tokens, used unsubstituted |
| `SafeShellV1.CommentLineFails` | safeShell/sigleFile/SafeShell.cpp:67-71 | A `#` line after the header is looked up as a command and fails |
| `SafeShellV1.TabLedLineParsed` | safeShell/sigleFile/SafeShell.cpp:57-65 | A leading tab is not special: the line is parsed as if it were not there |
| `SafeShellV1.ExecuteLines` | safeShell/sigleFile/SafeShell.cpp:37-53 | After the header every run succeeds, and at most one result is recorded per line |
| `SafeShellV1.ExecuteScriptSpec` | safeShell/sigleFile/SafeShell.cpp:27-54 | A run succeeds exactly when the first non-empty line equals `#!safe_shell` (or there is none); then each later non-empty line is parsed on its own, whatever the others return; a rejected header parses nothing |
| `SafeShellV2.KeyPatternNeverMatches` | safeShell/sigleFile/SafeShell2.cpp:72 | Matched literally (anchor, identifier start, identifier characters, anchor, quote), the name pattern as written matches no key |
| `SafeShellV2.StrayQuoteNeverMatches` | safeShell/sigleFile/SafeShell2.cpp:72 | The quote after the end anchor can never be matched, from any position |
| `SafeShellV2.IntendedPatternMatchesIdentifiers` | safeShell/sigleFile/SafeShell2.cpp:72 | Without the stray quote the same matcher accepts exactly the identifiers `[A-Za-z_][A-Za-z0-9_]*` |
| `SafeShellV2.ExpandVariables` | safeShell/sigleFile/SafeShell2.cpp:111-136 | The result is the shared placeholder expansion with script variables first, then the environment, and unknown names read as empty; it never fails |
| `SafeShellV2.ExpandVariablesRender` | safeShell/sigleFile/SafeShell2.cpp:111-136 | Expanding a template that reads back as its pieces renders it: literal text kept, each reference replaced by its value or by nothing |
| `SafeShellV2.UnknownNameIsEmpty` | safeShell/sigleFile/SafeShell2.cpp:120-131 | An unknown name is replaced by nothing, where version 2.0 fails |
| `SafeShellV2.HandleAssignment` | safeShell/sigleFile/SafeShell2.cpp:65-83 | The line is consumed exactly when it holds `=`, and the variables change only when a prefix of it matches the name pattern |
| `SafeShellV2.ExpandAll` | safeShell/sigleFile/SafeShell2.cpp:88-93 | Every token is expanded, in order |
| `SafeShellV2.HandleCommand` | safeShell/sigleFile/SafeShell2.cpp:85-101 | A line with no token succeeds; otherwise it succeeds exactly when the expanded name is registered and its handler accepts the expanded arguments |
| `SafeShellV2.ParseLine` | safeShell/sigleFile/SafeShell2.cpp:60-63 | A line without `=` is a command and leaves the variables alone |
| `SafeShellV2.AssignmentsDropped` | safeShell/sigleFile/SafeShell2.cpp:65-83 | Any line holding `=` succeeds, changes no variable and dispatches nothing |
| `SafeShellV2.ExecuteLines` | safeShell/sigleFile/SafeShell2.cpp:37-57 | No more lines are parsed than the script has |
| `SafeShellV2.ExecuteScriptSpec` | safeShell/sigleFile/SafeShell2.cpp:30-58 | A run succeeds exactly when every line is empty or begins with `#`; no line ever reaches `parseLine`, and the variables are unchanged |
| `CommandFactory.RegisterCommand` | safeShell/commandMode-MultipleFile/src/CommandFactory.cpp:8-10 | The name is added with the new creator and every other name keeps its creator |
| `CommandFactory.Create` | safeShell/commandMode-MultipleFile/src/CommandFactory.cpp:12-18 | Null exactly when the name is not registered; otherwise the registered creator applied to the unchanged arguments |
| `CommandFactory.LastRegistrationWins` | safeShell/commandMode-MultipleFile/src/CommandFactory.cpp:8-10 | After two registrations under one name, `create` uses the second |
| `CommandFactory.RegisterLeavesOthers` | safeShell/commandMode-MultipleFile/src/CommandFactory.cpp:9 | Registering one name changes `create` for no other name |
| `CommandFactory.RegisterSameIsNoOp` | safeShell/commandMode-MultipleFile/src/CommandFactory.cpp:9 | Re-registering a name's own creator leaves the registry as it was |
| `CommandMode.NewRm` | safeShell/commandMode-MultipleFile/src/RmCommand.cpp:7-9 | The target is the first argument, or empty when there is none |
| `CommandMode.NewMkdir` | safeShell/commandMode-MultipleFile/src/MkdirCommand.cpp:8-12 | Path, owner and permissions are the first three arguments, each empty when missing |
| `CommandMode.NewCp` | safeShell/commandMode-MultipleFile/src/CpCommand.cpp:8-13 | Source and destination are the first two arguments when there are at least two, and both empty otherwise |
| `CommandMode.ExtraArgumentsIgnored` | safeShell/commandMode-MultipleFile/src/MkdirCommand.cpp:8-12 | Arguments past those a constructor reads change nothing, for all three commands |
| `CommandMode.Execute` | safeShell/commandMode-MultipleFile/src/RmCommand.cpp:11-18 | The map comes back unchanged; rm and mkdir (`MkdirCommand.cpp:14-21`) succeed exactly when the target or path is non-empty, never checking owner or permissions; cp (`CpCommand.cpp:15-25`) succeeds exactly when both paths are non-empty |
| `CommandMode.ExecuteBuilt` | safeShell/commandMode-MultipleFile/src/CpCommand.cpp:8-20 | Built from an argument list, rm and mkdir succeed exactly when the first argument is non-empty, and cp when there are two non-empty ones |
| `CommandMode.RegisterBuiltins` | safeShell/commandMode-MultipleFile/src/ShellScriptExecutor.cpp:18-26 | The registry gains exactly `rm`, `mkdir` and `cp` |
| `CommandMode.RegisterBuiltinsIdempotent` | safeShell/commandMode-MultipleFile/src/ShellScriptExecutor.cpp:18-26 | Registering the built-ins again leaves the registry unchanged |
| `CommandMode.ParseLine` | safeShell/commandMode-MultipleFile/src/ShellScriptExecutor.cpp:47-64 | The map is unchanged, and a line led by a space succeeds |
| `CommandMode.ParseLineBuiltins` | safeShell/commandMode-MultipleFile/src/ShellScriptExecutor.cpp:47-64 | With the built-ins registered, a line with no token fails, `rm`/`mkdir` succeed exactly with an argument, `cp` exactly with two, and an unregistered name fails |
| `CommandMode.ExecuteLines` | safeShell/commandMode-MultipleFile/src/ShellScriptExecutor.cpp:28-44 | The factory is not changed by running lines, and after the header every run succeeds |
| `CommandMode.ExecuteScript` | safeShell/commandMode-MultipleFile/src/ShellScriptExecutor.cpp:9-45 | The factory afterwards holds the built-ins |
| `CommandMode.ExecuteScriptSpec` | safeShell/commandMode-MultipleFile/src/ShellScriptExecutor.cpp:28-44 | A run succeeds exactly when the first non-empty line equals `#!safe_shell` (or there is none); each later non-empty line runs on its own; a second run leaves the registry as the first left it |
| `CppString.CompareEqual` | project_string/StringUtils_Improved/string_utils.cpp:14 | `compare` throws exactly when the start is past the end, and otherwise compares the clamped span |
| `CppString.StdReplace` | project_string/StringUtils_Practice/string_utils.cpp:28 | `replace` throws exactly when the start is past the end; otherwise it keeps the prefix, inserts the text and shortens the string by the clamped span |
| `CppString.ScanPassword` | project_string/StringUtils_Improved/string_utils.cpp:45-52 | The loop over the C string finds an upper-case letter and a digit exactly when both occur |
| `CppString.WriteCStringReadBack` | project_string/StringUtils_Improved/string_utils.cpp:62-63 | The written buffer reads back as the source when the source holds no NUL |
| `StringUtilsImproved.EndsWithIffConcat` | project_string/StringUtils_Improved/string_utils.cpp:10-15 | A string ends with a suffix exactly when it is some text followed by the suffix; the empty suffix always matches |
| `StringUtilsImproved.EndsWithExamples` | project_string/StringUtils_Teaching/string_utils_test.cpp:9-22 | `hello_world` ends with `world` and not `word`; `hello` ends with the empty suffix |
| `StringUtilsImproved.Split` | project_string/StringUtils_Improved/string_utils.cpp:17-29 | No pieces exactly for the empty string; no piece holds the delimiter; joining the pieces gives back the input less one trailing delimiter |
| `StringUtilsImproved.SplitJoin` | project_string/StringUtils_Improved/string_utils.cpp:22-28 | Splitting a join of delimiter-free pieces, the last non-empty, gives back the pieces |
| `StringUtilsImproved.SplitExample` | project_string/StringUtils_Teaching/string_utils_test.cpp:33-47 | `a,b,c` splits into `a`, `b`, `c`, and the empty string into nothing |
| `StringUtilsImproved.ReplaceSubstring` | project_string/StringUtils_Improved/string_utils.cpp:31-39 | Throws `out_of_range` exactly when the start is past the end |
| `StringUtilsImproved.ReplaceSubstringShape` | project_string/StringUtils_Improved/string_utils.cpp:35-38 | The result is the text before the start, the replacement, and the text after the clamped span |
| `StringUtilsImproved.ReplaceSubstringUndo` | project_string/StringUtils_Improved/string_utils.cpp:31-39 | Replacing the inserted text back with what was there restores the string |
| `StringUtilsImproved.ReplaceSubstringExamples` | project_string/StringUtils_Teaching/string_utils_test.cpp:50-63 | `hello world` becomes `hello there`, and a start of 10 in `hello` throws |
| `StringUtilsImproved.IsValidPassword` | project_string/StringUtils_Improved/string_utils.cpp:41-53 | Null is invalid; otherwise valid exactly when the C string holds an upper-case letter and a digit |
| `StringUtilsImproved.ValidPasswordExample` | project_string/StringUtils_Teaching/string_utils_test.cpp:66-70 | `Pass123` is valid and `password` is not |
| `StringUtilsImproved.CopyToBuffer` | project_string/StringUtils_Improved/string_utils.cpp:55-64 | A null buffer throws `invalid_argument`; a source that does not fit with its NUL throws `out_of_range`; a buffer that holds it always succeeds, the cells after the NUL unchanged and the buffer reading back as the source |
| `StringUtilsImproved.CopyToArray` | project_string/StringUtils_Improved/string_utils.cpp:55-64 | The same copy into an array: the same errors, with the array untouched when it is too small; a non-null array that holds the source with its NUL never throws and ends as the source, a NUL, and the other cells as they were |
| `StringUtilsPractice.EndsWithAgainstImproved` | project_string/StringUtils_Practice/string_utils.cpp:8-11 | Agrees with the checked version when the suffix fits; a longer suffix wraps the start index and `compare` throws `out_of_range` |
| `StringUtilsPractice.SplitAgainstImproved` | project_string/StringUtils_Practice/string_utils.cpp:13-23 | Equals the checked version on every input, the empty one included |
| `StringUtilsPractice.ReplaceSubstringAgainstImproved` | project_string/StringUtils_Practice/string_utils.cpp:25-30 | Equals the checked version on every input, throws included |
| `StringUtilsPractice.IsValidPassword` | project_string/StringUtils_Practice/string_utils.cpp:32-42 | For a non-null pointer, valid exactly when the C string holds an upper-case letter and a digit |
| `StringUtilsPractice.CopyToBuffer` | project_string/StringUtils_Practice/string_utils.cpp:44-49 | When the buffer holds the source and its NUL: the source, then a NUL, at the front |
| `StringUtilsPractice.CopyToBufferAgainstImproved` | project_string/StringUtils_Practice/string_utils.cpp:44-49 | Where the checked version does not throw, both write the same buffer |
| `RobotExecutor.CRem` | executor-bootstrap/src/robot_executor.cpp:13 | The truncating remainder lies strictly between minus and plus the modulus, and agrees with the mathematical one for non-negative operands |
| `RobotExecutor.NormalizeHeading` | executor-bootstrap/src/robot_executor.cpp:12-18 | The result is the heading modulo 4, in 0..3, for negative headings too |
| `RobotExecutor.Init` | executor-bootstrap/src/robot_executor.cpp:20-26 | Whatever the state before, x and y are stored, the heading is stored modulo 4, and the executor is initialised |
| `RobotExecutor.TurnRight` | executor-bootstrap/src/robot_executor.cpp:28-35 | Position and initialisation are unchanged, and before `init` nothing changes |
| `RobotExecutor.TurnLeft` | executor-bootstrap/src/robot_executor.cpp:37-44 | Position and initialisation are unchanged, and before `init` nothing changes |
| `RobotExecutor.GetStatus` | executor-bootstrap/src/robot_executor.cpp:46-57 | (0, 0, NORTH) before `init`, the stored values after |
| `RobotExecutor.FreshStatus` | executor-bootstrap/src/robot_executor.cpp:5-10 | A fresh executor, and any uninitialised one, reports (0, 0, NORTH) |
| `RobotExecutor.InitStatus` | executor-bootstrap/src/robot_executor.cpp:20-26 | After `init` the status is the given position with the heading modulo 4, and an in-range heading is kept |
| `RobotExecutor.TurnsCancel` | executor-bootstrap/src/robot_executor.cpp:28-44 | A right turn and a left turn, in either order, give back the same state |
| `RobotExecutor.QuarterTurnGroup` | executor-bootstrap/src/robot_executor.cpp:33-43 | A left turn is three right turns, and four turns either way are no turn |
| `RobotExecutor.Turns` | executor-bootstrap/src/robot_executor.cpp:28-44 | Any sequence of turns keeps the position and the initialisation, and is no change before `init` |
| `RobotExecutor.TurnsNet` | executor-bootstrap/src/robot_executor.cpp:33-43 | After any sequence of turns the heading is the start plus the net number of right turns, modulo 4 |
| `RobotExecutor.TurnExamples` | executor-bootstrap/test/robot_executor_test.cc:35-97 | From NORTH, right turns pass through EAST, SOUTH, WEST, NORTH and left turns through WEST, SOUTH, EAST, NORTH, with the position kept |
| `Tlv.HexValue` | test_code/tlv.cpp:22-23 | Base-16 `stoi` of one digit is below 16, and a decimal digit has its own value |
| `Tlv.HexDigitValue` | test_code/tlv.cpp:22-23 | The digit written for a value below 16 reads back as that value |
| `Tlv.HexToBytes` | test_code/tlv.cpp:19-26 | The output has half the input length, rounded up |
| `Tlv.HexToBytesAt` | test_code/tlv.cpp:21-23 | Byte i is the value of hex characters 2i and 2i+1, and a lone trailing digit is read on its own |
| `Tlv.HexToBytesEven` | test_code/tlv.cpp:19-26 | An even-length input gives one byte per pair of digits |
| `Tlv.BytesToHex` | test_code/tlv.cpp:19-26 | Two hex digits per byte |
| `Tlv.HexRoundTrip` | test_code/tlv.cpp:19-26 | Reading back the hex text of any bytes gives the same bytes |
| `Tlv.HexToBytesAppend` | test_code/tlv.cpp:21 | Even-length hex text converts piece by piece |
| `Tlv.Tag` | test_code/tlv.cpp:41 | The type fits in 16 bits |
| `Tlv.Len` | test_code/tlv.cpp:44-48 | The length fits in 32 bits |
| `Tlv.HeaderRoundTrip` | test_code/tlv.cpp:41-48 | A 16-bit type and a 32-bit length written big-endian read back as themselves, with the bytes after the header untouched |
| `Tlv.IsNestedRange` | test_code/tlv.cpp:62 | For a 16-bit type, the `0x8000` bit test is the upper half of the range |
| `Tlv.ToText` | test_code/tlv.cpp:70-73 | Each character has the code of its byte |
| `Tlv.TextRoundTrip` | test_code/tlv.cpp:70-73 | Text whose characters fit in a byte survives conversion to bytes and back |
| `Tlv.ParseTlv` | test_code/tlv.cpp:34-80 | A length below the header size prints nothing; otherwise the output is the run read from the first `length` bytes |
| `Tlv.ParseRun` | test_code/tlv.cpp:38-53 | Fewer than 6 bytes print nothing, and a value running past the end stops the level silently |
| `Tlv.ReadValue` | test_code/tlv.cpp:62-75 | A type without the top bit prints its value as text at the current level |
| `Tlv.ParseRunBounds` | test_code/tlv.cpp:56-78 | Every printed line is at the call's level or deeper, and its text plus a header fits in the bytes read |
| `Tlv.ReadValueBounds` | test_code/tlv.cpp:56-75 | The lines for a value are at its level or deeper, and no longer than the value |
| `Tlv.Encode` | test_code/tlv.cpp:41-59 | An encoding holds at least a header |
| `Tlv.EncodeSeq` | test_code/tlv.cpp:78 | Elements are written back to back, and only the empty list encodes to nothing |
| `Tlv.Payload` | test_code/tlv.cpp:56-59 | An element's encoding is its type, the payload's length, and the payload |
| `Tlv.ParseElement` | test_code/tlv.cpp:38-78 | Reading a valid element at the front gives its payload parsed one level deeper, or its text, followed by whatever comes after it |
| `Tlv.EncodeSeqSizes` | test_code/tlv.cpp:66 | The rest of a list and a nested element's children encode strictly shorter: the recursion is on shorter buffers |
| `Tlv.ParseEncoded` | test_code/tlv.cpp:34-80 | The decoder inverts the encoder: the bytes of any valid elements print their texts in order, each at its nesting depth |
| `Tlv.DecodeEncoded` | test_code/tlv.cpp:34-80 | The same, through `parseTLV` called on the whole buffer |
| `TlvExample.InputDecodes` | test_code/tlv.cpp:9 | The worked hex input converts to the bytes of the example |
| `TlvExample.WorkedEncoding` | test_code/tlv.cpp:9 | Those bytes encode one container holding a text, a container with that text, the text again and `TTT` |
| `TlvExample.WorkedExample` | test_code/tlv.cpp:9-15 | The worked input prints `1:hello word`, `2:hello word`, `1:hello word`, `1:TTT` |
| `Text.FindZeroIffPrefix` | safeShell/2.0/safeshell.cpp:84 | `find(p) == 0` holds exactly when the string begins with `p` |
| `Text.TrimLeft` | safeShell/2.0/safeshell.cpp:98 | Only leading space, tab, CR and LF characters are removed, and the result does not begin with one |
| `Text.TrimRight` | safeShell/2.0/safeshell.cpp:99 | Only trailing space, tab, CR and LF characters are removed, and the result does not end with one |
| `Text.TokensOfUnwords` | safeShell/sigleFile/SafeShell.cpp:59-65 | Tokenising words joined by single spaces gives back the words |
| `Text.TokensSkipSpace` | safeShell/sigleFile/SafeShell.cpp:59-65 | Leading white space does not change the tokens |
| `Text.JoinGetlineSplit` | project_string/StringUtils_Improved/string_utils.cpp:25-27 | Joining the `getline` pieces gives back the input less one trailing delimiter |
| `Text.GetlineSplitJoin` | project_string/StringUtils_Improved/string_utils.cpp:25-27 | `getline` splitting of a join of delimiter-free pieces, the last non-empty, gives back the pieces |
| `Text.NatToStringValue` | safeShell/2.0/safeshell.cpp:200-206 | The digits `std::to_string` writes for a line number denote that number |

## Left out

- **Real OS effects.** `remove_all`, `create_directories`, `chmod`, `chown`, `getpwnam`/`getgrnam`, `system` and the file copies and removals of the dry-run variants are not performed. In version 2.0 each is an `Effect` whose answer comes from the `Host.os` oracle. Nothing is claimed about the file system beyond what the code checks.
- **The JSON document work of `handle_json`.** Reading, parsing and writing the document, and the `stod`/`stoll` retyping, use a foreign library and floating point. They are one `JsonSet` effect. Only the gate and the key-to-pointer mapping are modelled.
- **The regex-replace branch of `cmdJson`** in the single-file interpreters. It runs only when the dry-run flag is off.
- **`std::regex`, `std::stoi(…, 8)` and `getenv`.** The placeholder scan is written out directly. The octal parse is the partial function `Host.octal`. The environment is a map.
- **Opening the script file and console logging.** Each `executeScript` takes the lines of an opened file. The `false` returned for a file that cannot be opened is not modelled.
- **The non-dry-run branches.** `g_dry_run` and `TRY_RUN` are fixed at `true`, which is their only value in the code; the other branches are pure I/O.
- **The job scheduler** (`src/Scheduler.cpp` and its headers and tests). It is a thread pool, and concurrency is its whole point.
- **The robot executor's mutex.** The model is single-threaded. The `Executor` class wraps the pure functions; its mutating methods are stated with frame conditions.
- **`main.cpp` glue, the interface headers, and the `StringProcessor` and gmock tests** of `string_utils_test.cpp`. Those tests use a class that is not part of this model.
- **Tlv.ParseRun: the bounds check `index + 6 + L > length` is computed with unbounded integers.** In the source it is computed in `uint32_t` and can wrap for a length near 2^32. The signed shifts that assemble L are read as unsigned bytes. A non-hex character given to `hexToBytes` (where `stoi` throws or stops early) is excluded by the `IsHex` precondition.
- **RobotExecutor.Init: the heading parameter is any `int32_t`.** The source passes the `Heading` enumeration through `static_cast<int32_t>`.
- **Characters and bytes.** Each `string` character stands for one byte of a C++ `std::string`: indices, `find`, `isalnum`, `isupper` and `isdigit` work on single characters. No text encoding is modelled.
- **SafeShell handler messages** are kept as written, except `std::error_code::message()` and `strerror` text, and except the four messages `handle_json` builds after its gate (`Cannot open JSON file: <path>`, `JSON parse error in '<path>': …`, `JSON operation error: …` and `An unknown error occurred during JSON operation.`). The oracle's refusal reason stands for all of these; for `json` it is the reason the single `JsonSet` effect is refused with.
- **The worked TLV input** is written as the concatenation of its element pieces rather than as one literal. Pieced together, it is the hex string of the source's header comment.
