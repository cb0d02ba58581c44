# devrun `run` interpreter — a Dafny model

`run` executes `Runfile` scripts. A script holds variable assignments,
one-line function definitions (`name() command template`), function calls
with or without parentheses, bare shell commands and comments. This project
models the heart of the tool and proves its behaviour:

- **the interpreter** (`src/interpreter.rs`). An `Interpreter` keeps three
  tables: variables, full function bodies and simple (template) functions.
  It runs statements in order and stops at the first error. It resolves a
  command-line call `tool sub arg` by trying four strategies in a fixed
  order: the direct name, `tool:sub` with the remaining arguments, the name
  with underscores read as colons, and a full function body. Templates are
  rewritten in three passes: `$1..$n`, then `$@`, then `$name` for every
  variable;
- **the parser's own logic** (`src/parser.rs`). This covers the
  preprocessor that joins lines continued with a backslash, and the walk
  that turns the grammar's parse tree into statements: rebuilding command
  text, extracting call arguments, and dropping comments;
- **the command-line helpers** (`src/main.rs`): reading the line number
  out of a parse error, fetching a source line, detecting the shell from
  `$SHELL`, deciding which `.zshrc` lines to suggest, and listing the
  defined functions.

Files:

| file | module | contents |
|---|---|---|
| `wrappers.dfy` | `Wrappers` | `Option` and `Result` |
| `text.dfy` | `Text` | the Rust `str` operations the code relies on: `find`, `contains`, `replace`, the `trim` family, `lines`, `join`, `parse::<usize>` |
| `ast.dfy` | `Ast` | the statements the parser builds and the interpreter runs |
| `substitution.dfy` | `Substitution` | the three substitution passes and what they do to `$k`, `$@` and `$name` |
| `interpreter.dfy` | `Interp` | the interpreter as pure step functions over a `Machine`; the `Interpreter` class, whose methods are proved to follow them |
| `parser.dfy` | `Parser` | the preprocessor, `parse_command`, `parse_statement`, `parse_script` |
| `cli.dfy` | `Cli` | the `main.rs` helpers |

Modelling choices:

- Running a shell command becomes appending the command text to a `log`
  and succeeding. The source only prints a non-zero exit status and carries
  on (`src/interpreter.rs:174-178`).
- The order in which the variable pass walks the `HashMap` is unspecified.
  It is a parameter: `iteration` maps a table to a sequence of its
  entries. The constructor requires that this sequence lists every entry
  exactly once. Every proof holds for any such order.
- Nothing in the source ever inserts into the full-function table; no
  statement defines one. The model keeps the table, starting empty and only
  read. Running a body takes a `fuel` argument, and running out of fuel
  gives the outcome `DepthExhausted`. `Interp.NoBodiesNoDepthLimit` proves
  that this outcome never arises and that fuel makes no difference while
  the table is empty, which it always is.
- The statement type is taken from its users, `src/interpreter.rs` and
  `src/parser.rs`. `src/ast.rs` declares other variants that neither file
  uses.
- The grammar is not modelled. A parse is a tree of `Parser.Pair` nodes,
  each with a rule, the text it matched and its children. `parse_script`
  takes the grammar as a function parameter from the preprocessed text to
  such a tree or an error message.
- The three passes work on the whole command built so far, so a `$` that one
  pass puts in is read again by the later passes: an argument `$2` put in for
  `$1` is replaced by the second argument, and an argument or a variable
  value naming `$name` is replaced by that variable
  (`Substitution.PositionalRescansArguments`,
  `Substitution.VariablesRescanAllArgs`). The results about single
  placeholders and pieces assume arguments and values free of `$`; with `$`
  in them, only the definition of `Substitute` describes the command.
- Strings are sequences of characters and indices count characters. Every
  index the source takes comes from matching an ASCII pattern, so this
  agrees with Rust's byte offsets. `usize` is taken to be 64 bits wide.
- A call written with parentheses tries only the direct name and then a
  full body. No space or colon spelling of the name is tried
  (`src/interpreter.rs:82-95`): `Interp.CallWithArgsNeverPromotes`.
- The shells that completion can be installed for are bash, zsh and fish
  (`src/main.rs:59-64`): `Cli.Shell`.

## Model

| member | source | states |
|---|---|---|
| Interp.Interpreter.constructor | src/interpreter.rs:14-20 | a new interpreter has three empty tables and an empty command log |
| Interp.Interpreter.Execute | src/interpreter.rs:22-27 | runs the program's statements in order; the new state and the outcome are those of `RunStatements`, which stops at the first statement that does not finish |
| Interp.Interpreter.ExecuteStatement | src/interpreter.rs:121-147 | an assignment or definition writes its table; a call resolves with parentheses; a command is substituted with no arguments and run |
| Interp.Interpreter.CallFunctionWithArgs | src/interpreter.rs:74-96 | the state and outcome are those of `CallWithArgs`: direct name, then a full body, else `Function '<name>' not found` |
| Interp.Interpreter.CallFunctionWithoutParens | src/interpreter.rs:29-72 | the state and outcome are those of `CallWithoutParens`, the four strategies in order |
| Interp.Interpreter.SubstituteArgs | src/interpreter.rs:98-119 | the three substitution loops compute `Substitute` for the variable table in iteration order and change nothing |
| Interp.Interpreter.ExecuteCommand | src/interpreter.rs:149-179 | the command joins the end of the log and nothing else changes |
| Interp.FirstMatch | src/interpreter.rs:39-61 | the result is the first candidate that matched; there is one exactly when some candidate matched |
| Interp.CallWithoutParensTriesStrategiesInOrder | src/interpreter.rs:29-72 | resolution is the first of direct, subcommand and underscore matches; otherwise a full body; otherwise the not-found error |
| Interp.DirectHitWins | src/interpreter.rs:40-43 | a direct hit runs its template with the full argument list, with and without parentheses alike |
| Interp.SubcommandGetsRemainingArgs | src/interpreter.rs:46-52 | without a direct hit, `name:args[0]` runs with `args[1..]` only |
| Interp.UnderscoreGetsAllArgs | src/interpreter.rs:55-61 | the colon spelling differs from the name exactly when the name has an underscore; only then is it tried, with all the arguments |
| Interp.UnknownFunctionFails | src/interpreter.rs:64-71 | when nothing matches, the call fails with `Function '<name>' not found`, logs nothing and changes no table |
| Interp.CallWithArgsNeverPromotes | src/interpreter.rs:82-95 | a call with parentheses never tries the subcommand or underscore spellings |
| Interp.DefinitionsWriteOneKey | src/interpreter.rs:126-135 | an assignment or a definition overwrites one key of one table and leaves the rest unchanged |
| Interp.RunStatementsAppend | src/interpreter.rs:22-27 | running `a + b` runs `a`, then `b` from where `a` left off, only if `a` finished |
| Interp.RunStatementsStopAtFirstFailure | src/interpreter.rs:23-25 | a failed run is the failure of some statement `i`; every statement before it finished, their updates are kept, and nothing after it runs |
| Interp.RunStatementsFrame | src/interpreter.rs:22-27 | running statements keeps the full-function table and only appends to the log |
| Interp.RunStatementFrame | src/interpreter.rs:121-147 | one statement keeps the full-function table and only appends to the log |
| Interp.RunBodyFrame | src/interpreter.rs:64-69 | running a full body keeps the full-function table and only appends to the log |
| Interp.CallWithArgsFrame | src/interpreter.rs:74-96 | a call with parentheses keeps the full-function table and only appends to the log |
| Interp.CallWithoutParensFrame | src/interpreter.rs:29-72 | a command-line call keeps the full-function table and only appends to the log |
| Interp.NoBodiesNoDepthLimit | src/interpreter.rs:64-69 | with no full functions the result does not depend on fuel, the depth limit is never hit, and the table stays empty |
| Interp.CallWithoutParensRunsAtMostOne | src/interpreter.rs:29-72 | with no full functions a command-line call either logs exactly one command and changes nothing else, or fails with the not-found error and changes nothing |
| Interp.LastDefinitionWins | src/interpreter.rs:130-135 | defining a name twice and calling it runs the second template |
| Interp.NestedCallExample | tests/integration_test.rs:206-228 | with only `docker:shell` defined as `echo "Opening Docker shell for $1"`, the command-line call `docker shell myapp` runs `echo "Opening Docker shell for myapp"` and finishes |
| Interp.UnderscoreSpelling | src/interpreter.rs:55 | replacing the underscore in `a_b` gives `a:b`, which differs from the name |
| Interp.UnderscoreExample | src/interpreter.rs:55-61 | `a_b` with no arguments runs the template of `a:b` |
| Substitution.PositionalWithoutDollar | src/interpreter.rs:102-105 | the positional pass leaves text without `$` unchanged |
| Substitution.AllArgsWithoutDollar | src/interpreter.rs:108-110 | the `$@` pass leaves text without `$` unchanged |
| Substitution.VariablesWithoutDollar | src/interpreter.rs:113-116 | the variable pass leaves text without `$` unchanged |
| Substitution.SubstituteWithoutDollar | src/interpreter.rs:98-119 | a template without `$` comes back unchanged |
| Substitution.SubstitutePlaceholder | src/interpreter.rs:102-105 | with arguments free of `$`, a lone `$k` (k from 1 to 9) becomes argument k when there is one, and stays literal otherwise |
| Substitution.TenthPlaceholderReadsFirstArgument | src/interpreter.rs:102-105 | with any non-empty argument list, `$10` is rewritten by the `$1` pass into the first argument followed by `0`; it never reads a tenth argument and never stays literal |
| Substitution.SubstituteAllArgsPlaceholder | src/interpreter.rs:108-110 | with arguments free of `$`, `$@` becomes the arguments joined by single spaces |
| Substitution.SubstituteVariable | src/interpreter.rs:98-119 | with any arguments, `$name` becomes the variable's value, when that value is free of `$`, whatever the iteration order, provided no `$k` placeholder of those arguments, no `$@` and no other variable reads at that `$` |
| Substitution.PositionalRescansArguments | src/interpreter.rs:102-105 | an argument put in by one positional replacement is read again by the next: `$1` with arguments `$2` and `a` becomes `a`, not `$2` |
| Substitution.VariablesRescanAllArgs | src/interpreter.rs:108-116 | a `$name` put in by `$@` is replaced by the variable pass: with one variable `name` and the single argument `$name`, `$@` becomes that variable's value |
| Substitution.JoinWithoutDollar | src/interpreter.rs:109 | joining arguments free of `$` gives text free of `$` |
| Substitution.AllArgsIsReplace | src/interpreter.rs:108-110 | the `contains` guard makes no difference: the `$@` pass is `replace` of `$@` by the joined arguments |
| Substitution.PositionalOverPieces | src/interpreter.rs:102-105 | on a template cut into pieces, each but the last sealed (no `$`, or one leading `$` whose text no `1..n`, `@` or variable name runs past the end of), the positional pass works piece by piece and keeps the pieces sealed |
| Substitution.AllArgsOverPieces | src/interpreter.rs:108-110 | the `$@` pass works piece by piece on sealed pieces and keeps them sealed |
| Substitution.VariablesOverPieces | src/interpreter.rs:113-116 | the variable pass, over any prefix of the iteration, works piece by piece on sealed pieces and keeps them sealed |
| Substitution.SubstituteOverPieces | src/interpreter.rs:98-119 | a template made of pieces, each but the last sealed, is substituted piece by piece: the command is the pieces' commands, concatenated |
| Substitution.SubstituteThreePieces | src/interpreter.rs:98-119 | the same for a template of three pieces |
| Substitution.SubstituteTwoPieces | src/interpreter.rs:98-119 | a sealed piece and the text after it are substituted separately |
| Substitution.SubstituteSixPieces | src/interpreter.rs:98-119 | the same for a template of six pieces |
| Substitution.SubstituteLiteralDollar | src/interpreter.rs:98-119 | a `$` at which no placeholder, no `$@` and no variable name starts stays in the command as written |
| Substitution.LiteralDollarPiece | src/interpreter.rs:98-119 | a `$` followed by a character that is no digit, `@`, letter or `_` (the shell's `$((`) is a sealed piece and stays as written |
| Substitution.AllArgsPiece | src/interpreter.rs:108-110 | the piece `$@ r` (`r` and the arguments free of `$`) becomes the arguments joined by single spaces, followed by `r` |
| Substitution.AllArgsPieceSealed | src/interpreter.rs:102-116 | the piece `$@ r` is sealed when every variable name is an identifier |
| Substitution.PlaceholderPiece | src/interpreter.rs:102-105 | the piece `$k r` (k from 1 to 9, `r` free of `$`) becomes argument k followed by `r`, or stays when there is no argument k |
| Substitution.PlaceholderPieceSealed | src/interpreter.rs:102-116 | the piece `$k r` is sealed unless there are ten or more arguments and `r` is all digits |
| Substitution.VariablePiece | src/interpreter.rs:113-116 | the piece `$name r` becomes the variable's value followed by `r` when no other name reads at that `$` |
| Substitution.VariablePieceSealed | src/interpreter.rs:102-116 | the piece `$name r` is sealed when no variable name continues past `name r` |
| Substitution.SubstituteTwoPlaceholders | src/interpreter.rs:98-119 | in `p$j r$k q` (j, k from 1 to 9), each placeholder becomes its argument, or stays when that argument is missing |
| Substitution.SubstituteVariableAndPlaceholder | src/interpreter.rs:98-119 | in `p$name r$k q`, the variable becomes its value and the placeholder its argument (or stays), whatever the iteration order |
| Substitution.SubstituteTwoVariables | src/interpreter.rs:98-119 | in `p$a r$b q`, both variables become their values, whatever the iteration order |
| Substitution.HelloTwoNamesExample | tests/integration_test.rs:516-539 | `echo "Hello, $1 and $2!"` with `Alice` and `Bob` runs `echo "Hello, Alice and Bob!"`, for any identifier-named variables |
| Substitution.MixedArgumentsExample | tests/integration_test.rs:542-565 | `echo "First: $1, Second: $2"` with `bare` and `quoted` runs `echo "First: bare, Second: quoted"` |
| Substitution.VariableInTemplateExample | tests/integration_test.rs:594-618 | with `app_name=myapp`, `echo "App: $app_name, Env: $1"` called with `production` runs `echo "App: myapp, Env: production"` |
| Substitution.TwoVariablesExample | tests/integration_test.rs:621-645 | with `first=Alice` and `second=Bob`, the command `echo "$first and $second"` runs as `echo "Alice and Bob"` |
| Substitution.ArithmeticExample | tests/integration_test.rs:181-203 | `echo "$1 + $2 = $(($1 + $2))"` with any two arguments `a`, `b` free of `$` runs `echo "a + b = $((a + b))"`: both placeholders filled twice, the shell's `$((` untouched |
| Parser.PreprocessEscapedNewlines | src/parser.rs:12-33 | the loop computes the joined logical lines, each followed by a newline |
| Parser.PreprocessedLines | src/parser.rs:23-24 | the output is empty or ends in a newline; it splits back into the logical lines, none with trailing whitespace |
| Parser.FeedAllHasNoNewline | src/parser.rs:16-27 | no buffered or finished line contains a newline |
| Parser.FeedAllTrimmed | src/parser.rs:23 | every finished line has no trailing whitespace |
| Parser.PlainLinesPassThrough | src/parser.rs:17-25 | without continued lines, each line appears once, in order, right-trimmed |
| Parser.LogicalLineCount | src/parser.rs:16-31 | one output line per line that is not continued, plus one for a dangling continuation, which is flushed; never more lines than input lines |
| Parser.ContinuationJoinsNextLine | src/parser.rs:16-27 | after any earlier lines, a continued line loses its backslash, gains one space and is joined with the next line into one logical line |
| Parser.FeedContinued | src/parser.rs:18-22 | continued lines, after any earlier lines, emit nothing and only add their text, each without its backslash and with one space, to the buffer |
| Parser.ContinuedLinesJoin | src/parser.rs:16-27 | any number of continued lines followed by a line that is not continued give exactly one logical line |
| Parser.CountEnding | src/parser.rs:16-27 | at most one completed line per input line |
| Parser.ParseCommand | src/parser.rs:133-162 | the loop computes `CommandText` of the parts |
| Parser.CommandTextTrimmed | src/parser.rs:161 | a command has no leading or trailing whitespace, and no parts give `""` |
| Parser.RawCommandOfWords | src/parser.rs:151-158 | each bare word is followed by one space |
| Parser.CommandOfWords | src/parser.rs:133-162 | bare words come out joined by single spaces |
| Parser.OperatorSpacing | src/parser.rs:146-158 | an operator between two words ends up with two spaces on each side |
| Parser.QuotedPartKeepsQuotes | src/parser.rs:138-142 | a quoted part keeps exactly one pair of quotes around its text |
| Parser.CollectArguments | src/parser.rs:99-121 | the loop collects `ArgumentValues` of the list's children |
| Parser.ParseStatement | src/parser.rs:72-131 | builds exactly the statement `StatementOf` gives for the node, or none |
| Parser.ArgumentValuesAppend | src/parser.rs:101-120 | argument values of consecutive children concatenate, so order is kept |
| Parser.ArgumentsInOrder | src/parser.rs:99-121 | when all children are arguments there is one value per child, in order |
| Parser.QuotedArgumentUnquoted | src/parser.rs:106-108 | a quoted argument reaches the call without its quotes |
| Parser.UnquotedArgumentVerbatim | src/parser.rs:110-116 | a variable or bare-word argument is kept verbatim; an argument with no children gives its own text |
| Parser.CollectItems | src/parser.rs:43-61 | the inner loop over a `program` node's items collects `ProgramStatements` of them: comments and unrecognised contents are skipped, every other statement is pushed in order |
| Parser.CollectStatements | src/parser.rs:40-67 | the outer loop collects `StatementsOf` of the top-level nodes: only `program` nodes contribute |
| Parser.ParseScript | src/parser.rs:35-70 | the grammar reads the preprocessed text; its error is passed on, otherwise the statements are collected |
| Parser.ProgramStatementsAppend | src/parser.rs:43-62 | items give their statements in source order |
| Parser.CommentsProduceNothing | src/parser.rs:49-51 | comment items give no statements |
| Parser.AtMostOneStatementPerItem | src/parser.rs:47-58 | each item gives at most one statement; an item whose node `StatementOf` does not recognise gives none; there are as many statements as items exactly when every item gives one |
| Parser.StatementsInSourceOrder | src/parser.rs:43-62 | when every item is a recognised statement, the program lists them all, in order |
| Cli.ExtractLineFromError | src/main.rs:211-226 | a found line keeps the whole error text as its message, is a `usize`, and is only found when the text holds ` --> ` |
| Cli.ExtractedLineFollowsArrow | src/main.rs:211-226 | a found line number is a `usize` written after the first ` --> ` and before the first `:` that follows, and the message is the whole error text |
| Cli.SplitAtArrow | src/main.rs:214-216 | the error text is cut into what precedes the arrow, the number and what follows the colon |
| Cli.ExtractLineOfLocation | src/main.rs:211-226 | an error whose text before the first ` --> ` holds no `>`, followed by a canonical decimal up to the `usize` maximum and a colon, yields that number as the line, with the whole text as message |
| Cli.GetLine | src/main.rs:229-234 | a found line is one of the source's lines and holds no newline |
| Cli.GetLineBounds | src/main.rs:229-234 | line 0 reads as line 1, and a number past the last line gives nothing |
| Cli.GetLineOfJoinedLines | src/main.rs:229-234 | line n, counted from 1, is the n-th line |
| Cli.SecondLogicalLine | src/parser.rs:16-31 | after a continued line and two complete ones, the third line is the second logical line |
| Cli.ContinuationShiftsShownLine | src/main.rs:191 | after a continued line, the line shown for a parse error is not the line the grammar read |
| Cli.ShownLineIsParsedLine | src/main.rs:191 | shown from the preprocessed text, the line is the logical line the grammar rejected |
| Cli.ShownLineWithoutContinuations | src/main.rs:191 | without continued lines, the corrected lookup agrees with the original one up to trailing whitespace |
| Cli.ResolveShell | src/main.rs:457-473 | a requested shell is used as given; otherwise the detected shell's name occurs in `$SHELL`; detection fails, with the supported-shells message, exactly when no shell was requested and `$SHELL` names none of bash, zsh and fish |
| Cli.DetectedShellOrder | src/main.rs:457-473 | bash, then zsh, then fish is picked from `$SHELL`; anything else is an error |
| Cli.BashPreferredOverZsh | src/main.rs:460-461 | a `$SHELL` naming both bash and zsh picks bash |
| Cli.ConfiguresFpath | src/main.rs:532-540 | a line that counts mentions both `fpath` and `~/.zsh/completion` |
| Cli.AnyConfiguresFpath | src/main.rs:532-541 | `any` over the lines holds exactly when some line configures the fpath |
| Cli.NeedsFpath | src/main.rs:529-543 | without a `.zshrc` the fpath line is needed; with one, it is not needed exactly when some line configures the fpath |
| Cli.CommentedFpathIgnored | src/main.rs:535-537 | a commented-out fpath line does not count |
| Cli.FpathLineConfigures | src/main.rs:532-541 | a line starting with `fpath` and naming `~/.zsh/completion` counts |
| Cli.NeedsCompinit | src/main.rs:545-550 | without a `.zshrc` the compinit line is needed; with one, it is not needed exactly when the text holds `autoload -Uz compinit` anywhere |
| Cli.FunctionNames | src/main.rs:130-135 | never more names than statements, and none exactly when no statement defines a simple function |
| Cli.CollectFunctionNames | src/main.rs:130-135 | the loop collects `FunctionNames` of the statements |
| Cli.FunctionNamesListed | src/main.rs:130-135 | a name is listed exactly when some statement defines a simple function of that name |
| Cli.FunctionNamesAppend | src/main.rs:130-135 | names are listed in definition order, repeats included |
| Cli.ListFunctions | src/main.rs:116-153 | no Runfile, a parse error, no functions and a list of names are the four outcomes, decided as the source decides them |
| Text.Find | src/main.rs:214 | the index of the first occurrence; none exactly when the pattern does not occur |
| Text.FindFirstMatch | src/main.rs:214-216 | a match with none before it is what `find` returns |
| Text.LinesOfJoinLines | src/parser.rs:14 | splitting lines written one per newline gives them back |
| Text.TrimMatchesOfQuoted | src/parser.rs:108 | trimming the quotes off a quoted text gives back what was quoted |
| Text.ParseUsizeOfDecimal | src/main.rs:217 | a decimal number up to the `usize` maximum parses back to itself |
| Text.ReplaceAllSplit | src/interpreter.rs:104 | `replace` on `x + y` is `replace` on `x` followed by `replace` on `y` when no occurrence of the pattern starts in `x` and runs into `y` |
| Text.ReplaceAllNoMatch | src/interpreter.rs:104 | `replace` of a pattern that does not occur leaves the text as it is |
| Text.DecimalRoundTrip | src/interpreter.rs:103 | a number printed in decimal reads back as itself |

## Left out

- Process spawning in `execute_command` (`sh -c`, `RUN_SHELL`, the Windows bash lookup, inherited output) is a call into the operating system. It is modelled as appending the command to the log and succeeding, so a failure to start the shell, which the source reports as an error, is not modelled.
- The pest grammar and `ScriptParser::parse` are generated from a grammar file that is not part of this model. Parse trees are an input, and so is the grammar's error message.
- The order of the `HashMap` walk in the variable pass is a parameter, not a fixed order.
- Interp.NoBodiesNoDepthLimit: the full-function table is never filled, so the fuel bound on body recursion is never reached. A deep or endless recursion, which would overflow the stack in the source, is not modelled.
- Command-line parsing, `main`'s dispatch, `load_config`, `load_home_runfile`, `get_home_dir` and every file read are I/O. A `.zshrc` is given as its content, or `None` when it is missing; a read error is its empty content, as with `unwrap_or_default`.
- The REPL loop reads standard input and is not modelled.
- Substitution.SubstituteOverPieces: the piece-by-piece results cover templates whose pieces are sealed. A template with `$$1`, or with a placeholder followed by digits when there are ten or more arguments (`$1` then `0`), or with a variable name followed by text that continues a longer variable name, is covered only by the definition of `Substitute`, not by these lemmas.
- Substitution.SubstituteTwoPlaceholders, Substitution.SubstituteVariableAndPlaceholder, Substitution.SubstituteTwoVariables: stated for two `$` occurrences; longer templates follow from `SubstituteOverPieces` with one piece lemma and its sealed counterpart per `$` (`PlaceholderPiece`, `VariablePiece`, `AllArgsPiece`, `LiteralDollarPiece`), as `Substitution.ArithmeticExample` does for five.
- `print_parse_error`'s message layout and caret line are formatting only. Only the choice of the line it shows is modelled.
- Completion script generation, directory creation and file writes are not modelled. Only the `.zshrc` checks are kept.
- The messages `list_functions` prints and the process exit codes are represented by the four `Cli.Listing` outcomes.
- `src/ast.rs` is not part of this model: its variants disagree with the code that builds and runs statements.

## Findings

| source | as written | input that shows it | evidently intended | confidence | as-written member | corrected member |
|---|---|---|---|---|---|---|
| src/main.rs:191 | `print_parse_error` shows line `n` of the script as the user wrote it. But the number `n` comes from the grammar, which reads the preprocessed text where continued lines are already joined. | A Runfile whose first line ends in `\`, followed by two more lines, where the third line has the error. The grammar reports line 2; the second written line is shown instead of the third. | Show the line the grammar rejected: line `n` of the preprocessed text. | medium, not executed | Cli.ContinuationShiftsShownLine | Cli.ShownLineIsParsedLine |
