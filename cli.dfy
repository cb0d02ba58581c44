/**
 * The command-line helpers of the `run` binary: locating the line of a
 * parse error, fetching a source line, detecting the user's shell, deciding
 * which zsh configuration lines to suggest, and listing the functions a
 * Runfile defines.
 */
module Cli {
  import opened Wrappers
  import opened Text
  import Ast
  import Parser

  // Parse-error locations

  /** A line number read from a parse error, with the whole error text. */
  datatype LineInfo = LineInfo(line: nat, message: string)

  /**
   * The number between the first ` --> ` of the error text and the first
   * `:` after it, when it reads as a `usize`.
   */
  function ExtractLineFromError(error: string): (r: Option<LineInfo>)
    ensures r.Some? ==> r.value.message == error
    ensures r.Some? ==> Contains(error, " --> ") && r.value.line <= UsizeMax
  {
    match Find(error, " --> ")
    case None => None
    case Some(pos) =>
      var rest := error[pos + 5..];
      match Find(rest, ":")
      case None => None
      case Some(colon) =>
        match ParseUsize(rest[..colon])
        case None => None
        case Some(line) => Some(LineInfo(line, error))
  }

  /** Cutting a text around an arrow and a later colon. */
  lemma SplitAtArrow(error: string, pos: nat, colon: nat)
    requires MatchesAt(error, " --> ", pos)
    requires pos + 5 + colon < |error| && error[pos + 5 + colon] == ':'
    ensures error == error[..pos] + " --> " + error[pos + 5..pos + 5 + colon] + ":" + error[pos + 6 + colon..]
  {
    assert error[pos..pos + 5] == " --> ";
    assert error[pos + 5 + colon..pos + 6 + colon] == ":";
    assert error == error[..pos] + error[pos..pos + 5] + error[pos + 5..pos + 5 + colon]
                    + error[pos + 5 + colon..pos + 6 + colon] + error[pos + 6 + colon..];
  }

  /**
   * A line number is a `usize` written between the first arrow and the
   * colon after it; the text is cut there into `p`, `t` and `q`.
   */
  lemma ExtractedLineFollowsArrow(error: string) returns (p: string, t: string, q: string)
    requires ExtractLineFromError(error).Some?
    ensures ExtractLineFromError(error).value.message == error
    ensures error == p + " --> " + t + ":" + q
    ensures !Contains(p, " --> ")
    ensures ':' !in t
    ensures ParseUsize(t) == Some(ExtractLineFromError(error).value.line)
  {
    var pos := Find(error, " --> ").value;
    var rest := error[pos + 5..];
    var colon := Find(rest, ":").value;
    p, t, q := error[..pos], error[pos + 5..pos + 5 + colon], error[pos + 6 + colon..];
    assert t == rest[..colon];
    assert error == p + " --> " + t + ":" + q by {
      MatchesAtChar(rest, ":", colon, 0);
      SplitAtArrow(error, pos, colon);
    }
    assert ':' !in t by {
      NoCharBeforeMatch(rest, ':', colon);
    }
    assert !Contains(p, " --> ") by {
      NoMatchInPrefix(error, " --> ", pos);
    }
  }

  /** With no `>` before it, the first arrow is the one after `p`. */
  lemma ArrowFoundAfter(p: string, rest: string)
    requires '>' !in p
    ensures Find(p + " --> " + rest, " --> ") == Some(|p|)
  {
    var error := p + " --> " + rest;
    var arrow := " --> ";
    assert error[|p|..|p| + 5] == arrow;
    forall j | 0 <= j < |p| ensures !MatchesAt(error, arrow, j) {
      if j + 3 < |p| {
        assert error[j + 3] == p[j + 3];
      } else {
        assert error[j + 3] == arrow[j + 3 - |p|];
      }
      MatchesAtChar(error, arrow, j, 3);
    }
    FindFirstMatch(error, arrow, |p|);
  }

  /** The first colon after a run of digits is the one right after them. */
  lemma ColonFoundAfterDigits(d: string, q: string)
    requires AllDigits(d)
    ensures Find(d + ":" + q, ":") == Some(|d|)
  {
    var rest := d + ":" + q;
    assert rest[|d|..|d| + 1] == ":";
    forall j | 0 <= j < |d| ensures !MatchesAt(rest, ":", j) {
      assert rest[j] == d[j];
      MatchesAtChar(rest, ":", j, 0);
    }
    FindFirstMatch(rest, ":", |d|);
  }

  /** The location pest prints, ` --> line:column`, yields its line. */
  lemma ExtractLineOfLocation(p: string, n: nat, q: string)
    requires '>' !in p
    requires n <= UsizeMax
    ensures var error := p + " --> " + DecimalString(n) + ":" + q;
      ExtractLineFromError(error) == Some(LineInfo(n, error))
  {
    var d := DecimalString(n);
    var rest := d + ":" + q;
    var error := p + " --> " + d + ":" + q;
    assert error == p + " --> " + rest;
    assert Find(error, " --> ") == Some(|p|) by {
      ArrowFoundAfter(p, rest);
    }
    assert error[|p| + 5..] == rest;
    assert Find(rest, ":") == Some(|d|) by {
      ColonFoundAfterDigits(d, q);
    }
    assert rest[..|d|] == d;
    assert ParseUsize(d) == Some(n) by {
      ParseUsizeOfDecimal(n);
    }
  }

  // Source lines

  /** Line `lineNumber` of the source, counting from 1; line 0 reads as line 1. */
  function GetLine(source: string, lineNumber: nat): (r: Option<string>)
    ensures r.Some? ==> r.value in Lines(source) && '\n' !in r.value
  {
    var lines := Lines(source);
    var index := if lineNumber == 0 then 0 else lineNumber - 1;
    if index < |lines| then Some(lines[index]) else None
  }

  /** Line 0 reads as line 1, and a number past the last line finds nothing. */
  lemma GetLineBounds(source: string, lineNumber: nat)
    ensures GetLine(source, 0) == GetLine(source, 1)
    ensures GetLine(source, lineNumber).None? <==> (if lineNumber == 0 then 1 else lineNumber) > |Lines(source)|
  {
  }

  /** Lines written out one per `\n` are found again by number, and no others. */
  lemma GetLineOfJoinedLines(lines: seq<string>, lineNumber: nat)
    requires forall k :: 0 <= k < |lines| ==> IsPlainLine(lines[k])
    ensures 1 <= lineNumber <= |lines| ==> GetLine(JoinLines(lines), lineNumber) == Some(lines[lineNumber - 1])
    ensures lineNumber > |lines| ==> GetLine(JoinLines(lines), lineNumber) == None
  {
    LinesOfJoinLines(lines);
  }

  /** Of a continued line and two complete ones, the third is the second logical line. */
  lemma SecondLogicalLine(a: string, b: string, c: string)
    requires Parser.IsContinuation(a)
    requires !Parser.IsContinuation(b) && !Parser.IsContinuation(c)
    ensures |Parser.LogicalLines([a, b, c])| == 2
    ensures Parser.LogicalLines([a, b, c])[1] == TrimEnd(c)
  {
    assert [a, b, c][..2] == [a, b];
    Parser.LogicalLineCount([a, b]);
    Parser.LogicalLineCount([a, b, c]);
    assert "" + TrimEnd(c) == TrimEnd(c);
    TrimEndIdempotent(c);
  }

  /**
   * The line shown under a parse error, as written: looked up in the script
   * as the user wrote it, while the number came from the preprocessed text.
   * After a continued line, the two disagree.
   */
  lemma ContinuationShiftsShownLine(a: string, b: string, c: string)
    requires IsPlainLine(a) && IsPlainLine(b) && IsPlainLine(c)
    requires Parser.IsContinuation(a)
    requires !Parser.IsContinuation(b) && !Parser.IsContinuation(c)
    requires b != TrimEnd(c)
    ensures var source := JoinLines([a, b, c]);
      && GetLine(Parser.Preprocessed(source), 2) == Some(TrimEnd(c))
      && GetLine(source, 2) == Some(b)
      && GetLine(source, 2) != GetLine(Parser.Preprocessed(source), 2)
  {
    var source := JoinLines([a, b, c]);
    LinesOfJoinLines([a, b, c]);
    SecondLogicalLine(a, b, c);
    Parser.PreprocessedLines(source);
  }

  /** The line a parse error points at, taken from the text the grammar read. */
  function ShownLine(source: string, lineNumber: nat): Option<string> {
    GetLine(Parser.Preprocessed(source), lineNumber)
  }

  /** The shown line is the logical line the grammar rejected. */
  lemma ShownLineIsParsedLine(source: string, lineNumber: nat)
    ensures var logical := Parser.LogicalLines(Lines(source));
      && (1 <= lineNumber <= |logical| ==> ShownLine(source, lineNumber) == Some(logical[lineNumber - 1]))
      && (lineNumber > |logical| ==> ShownLine(source, lineNumber) == None)
  {
    Parser.PreprocessedLines(source);
  }

  /** Without continued lines, the shown line is the written line, right-trimmed. */
  lemma ShownLineWithoutContinuations(source: string, lineNumber: nat)
    requires forall k :: 0 <= k < |Lines(source)| ==> !Parser.IsContinuation(Lines(source)[k])
    ensures ShownLine(source, lineNumber) ==
              match GetLine(source, lineNumber)
              case None => None
              case Some(l) => Some(TrimEnd(l))
  {
    Parser.PreprocessedLines(source);
    Parser.PlainLinesPassThrough(Lines(source));
  }

  // Shell detection

  /** The shells completion can be installed for. */
  datatype Shell = Bash | Zsh | Fish

  /** The name a shell goes by on the command line and in `$SHELL`. */
  function ShellName(shell: Shell): string {
    match shell
    case Bash => "bash"
    case Zsh => "zsh"
    case Fish => "fish"
  }

  const UndetectedShell: string :=
    "Could not detect shell. Please specify: --install-completion <SHELL>\nSupported shells: bash, zsh, fish"

  /**
   * The shell asked for, or else the first of bash, zsh, fish named in
   * `$SHELL`; an error only when `$SHELL` names none of them.
   */
  function ResolveShell(requested: Option<Shell>, shellVar: string): (r: Result<Shell>)
    ensures requested.Some? ==> r == Ok(requested.value)
    ensures requested.None? && r.Ok? ==> Contains(shellVar, ShellName(r.value))
    ensures r.Err? ==> r.message == UndetectedShell
    ensures r.Err? <==> requested.None? && forall shell: Shell :: !Contains(shellVar, ShellName(shell))
  {
    match requested
    case Some(shell) => Ok(shell)
    case None =>
      if Contains(shellVar, "bash") then Ok(Bash)
      else if Contains(shellVar, "zsh") then Ok(Zsh)
      else if Contains(shellVar, "fish") then Ok(Fish)
      else
        assert forall shell: Shell :: ShellName(shell) in {"bash", "zsh", "fish"};
        Err(UndetectedShell)
  }

  /** Detection only ever picks bash, zsh or fish, in that order of preference. */
  lemma DetectedShellOrder(shellVar: string)
    ensures ResolveShell(None, shellVar) == Ok(Bash) <==> Contains(shellVar, "bash")
    ensures ResolveShell(None, shellVar) == Ok(Zsh) <==>
              !Contains(shellVar, "bash") && Contains(shellVar, "zsh")
    ensures ResolveShell(None, shellVar) == Ok(Fish) <==>
              !Contains(shellVar, "bash") && !Contains(shellVar, "zsh") && Contains(shellVar, "fish")
    ensures ResolveShell(None, shellVar).Err? <==>
              !Contains(shellVar, "bash") && !Contains(shellVar, "zsh") && !Contains(shellVar, "fish")
  {
  }

  /** A `$SHELL` naming bash and zsh at once resolves to bash. */
  lemma BashPreferredOverZsh(p: string, q: string, r: string)
    ensures ResolveShell(None, p + "bash" + q + "zsh" + r) == Ok(Bash)
  {
    var v := p + "bash" + q + "zsh" + r;
    assert v[|p|..|p| + 4] == "bash";
    assert MatchesAt(v, "bash", |p|);
  }

  // zsh configuration

  /**
   * A line that, once its leading whitespace is dropped, is neither blank
   * nor a comment and mentions both `fpath` and `~/.zsh/completion`.
   */
  function ConfiguresFpath(line: string): (b: bool)
    ensures b ==> Contains(line, "fpath") && Contains(line, "~/.zsh/completion")
  {
    var t := TrimStart(line);
    ContainsInSuffix(t, line, "fpath");
    ContainsInSuffix(t, line, "~/.zsh/completion");
    && !(IsPrefix("#", t) || t == [])
    && Contains(t, "fpath")
    && Contains(t, "~/.zsh/completion")
  }

  /** Some line configures the fpath. */
  ghost predicate HasFpathLine(lines: seq<string>) {
    exists k :: 0 <= k < |lines| && ConfiguresFpath(lines[k])
  }

  /** Some line configures the fpath exactly when the first does or a later one does. */
  lemma HasFpathLineCons(lines: seq<string>)
    requires lines != []
    ensures HasFpathLine(lines) <==> ConfiguresFpath(lines[0]) || HasFpathLine(lines[1..])
  {
    if HasFpathLine(lines[1..]) {
      var k :| 0 <= k < |lines[1..]| && ConfiguresFpath(lines[1..][k]);
      assert lines[k + 1] == lines[1..][k];
    }
    if HasFpathLine(lines) && !ConfiguresFpath(lines[0]) {
      var k :| 0 <= k < |lines| && ConfiguresFpath(lines[k]);
      assert lines[1..][k - 1] == lines[k];
    }
  }

  /** `lines.any(ConfiguresFpath)`. */
  function AnyConfiguresFpath(lines: seq<string>): (b: bool)
    ensures b <==> HasFpathLine(lines)
    decreases |lines|
  {
    if lines == [] then false
    else
      HasFpathLineCons(lines);
      ConfiguresFpath(lines[0]) || AnyConfiguresFpath(lines[1..])
  }

  /**
   * The fpath line is suggested when there is no `.zshrc`, or when no line
   * of it configures the fpath already.
   */
  function NeedsFpath(zshrc: Option<string>): (b: bool)
    ensures zshrc.None? ==> b
    ensures zshrc.Some? ==> (!b <==> HasFpathLine(Lines(zshrc.value)))
  {
    match zshrc
    case None => true
    case Some(content) =>
      !AnyConfiguresFpath(Lines(content))
  }

  /**
   * The compinit line is suggested when there is no `.zshrc`, or when it
   * does not hold `autoload -Uz compinit` anywhere.
   */
  function NeedsCompinit(zshrc: Option<string>): (b: bool)
    ensures zshrc.None? ==> b
    ensures zshrc.Some? ==> (!b <==> exists p, q :: zshrc.value == p + "autoload -Uz compinit" + q)
  {
    match zshrc
    case None => true
    case Some(content) =>
      ContainsIffSplit(content, "autoload -Uz compinit");
      !Contains(content, "autoload -Uz compinit")
  }

  /** A commented-out fpath line does not count. */
  lemma CommentedFpathIgnored(line: string)
    requires IsPrefix("#", TrimStart(line))
    ensures !ConfiguresFpath(line)
  {
  }

  /** A line starting with `fpath` and naming `~/.zsh/completion` configures the fpath. */
  lemma FpathLineConfigures(m: string, q: string)
    ensures ConfiguresFpath("fpath" + m + "~/.zsh/completion" + q)
  {
    var l := "fpath" + m + "~/.zsh/completion" + q;
    assert l[0] == 'f';
    assert TrimStart(l) == l;
    assert l[..1] != "#";
    assert l[0..5] == "fpath";
    assert MatchesAt(l, "fpath", 0);
    assert l[5 + |m|..5 + |m| + 17] == "~/.zsh/completion";
    assert MatchesAt(l, "~/.zsh/completion", 5 + |m|);
  }

  // Listing functions

  /** The names of the simple function definitions, in order. */
  function FunctionNames(statements: seq<Ast.Statement>): (names: seq<string>)
    ensures |names| <= |statements|
    ensures names == [] <==> forall k :: 0 <= k < |statements| ==> !statements[k].SimpleFunctionDef?
    decreases |statements|
  {
    if statements == [] then []
    else
      var init := statements[..|statements| - 1];
      var last := statements[|statements| - 1];
      assert forall k :: 0 <= k < |init| ==> init[k] == statements[k];
      FunctionNames(init) + if last.SimpleFunctionDef? then [last.name] else []
  }

  method CollectFunctionNames(statements: seq<Ast.Statement>) returns (names: seq<string>)
    ensures names == FunctionNames(statements)
  {
    names := [];
    for i := 0 to |statements|
      invariant names == FunctionNames(statements[..i])
    {
      assert statements[..i + 1][..i] == statements[..i];
      match statements[i] {
        case SimpleFunctionDef(name, _) =>
          names := names + [name];
        case _ =>
      }
    }
    assert statements[..|statements|] == statements;
  }

  predicate Defines(statement: Ast.Statement, name: string) {
    statement.SimpleFunctionDef? && statement.name == name
  }

  /** A name is listed exactly when some statement defines it. */
  lemma {:induction false} FunctionNamesListed(statements: seq<Ast.Statement>, name: string)
    ensures name in FunctionNames(statements) <==>
              exists k :: 0 <= k < |statements| && Defines(statements[k], name)
    decreases |statements|
  {
    if statements != [] {
      var init := statements[..|statements| - 1];
      FunctionNamesListed(init, name);
      if exists k :: 0 <= k < |init| && Defines(init[k], name) {
        var k :| 0 <= k < |init| && Defines(init[k], name);
        assert statements[k] == init[k];
      }
      if exists k :: 0 <= k < |statements| && Defines(statements[k], name) {
        var k :| 0 <= k < |statements| && Defines(statements[k], name);
        if k < |init| {
          assert init[k] == statements[k];
        }
      }
    }
  }

  /** Listing follows the order of the definitions and keeps repeated names. */
  lemma {:induction false} FunctionNamesAppend(a: seq<Ast.Statement>, b: seq<Ast.Statement>)
    ensures FunctionNames(a + b) == FunctionNames(a) + FunctionNames(b)
    decreases |b|
  {
    if b == [] {
      assert a + b == a;
    } else {
      var b', last := b[..|b| - 1], b[|b| - 1];
      var named := if last.SimpleFunctionDef? then [last.name] else [];
      assert FunctionNames(a + b) == FunctionNames(a + b') + named by {
        assert (a + b)[..|a + b| - 1] == a + b';
        assert (a + b)[|a + b| - 1] == last;
      }
      assert FunctionNames(a + b') == FunctionNames(a) + FunctionNames(b') by {
        FunctionNamesAppend(a, b');
      }
      assert FunctionNames(b) == FunctionNames(b') + named;
      assert FunctionNames(a) + FunctionNames(b') + named == FunctionNames(a) + (FunctionNames(b') + named);
    }
  }

  /** What listing reports: the outcome that decides the message and exit status. */
  datatype Listing =
    | NoRunfile
    | ParseFailed(message: string)
    | NoFunctions
    | Available(names: seq<string>)

  /**
   * Lists the functions of the Runfile whose text is `config` (`None` when
   * no Runfile was found), parsed with `grammar`.
   */
  method ListFunctions(config: Option<string>, grammar: string -> Result<seq<Parser.Pair>>)
    returns (listing: Listing)
    ensures config.None? ==> listing == NoRunfile
    ensures config.Some? && grammar(Parser.Preprocessed(config.value)).Err? ==>
              listing == ParseFailed(grammar(Parser.Preprocessed(config.value)).message)
    ensures config.Some? && grammar(Parser.Preprocessed(config.value)).Ok? ==>
              var names := FunctionNames(Parser.StatementsOf(grammar(Parser.Preprocessed(config.value)).value));
              listing == if names == [] then NoFunctions else Available(names)
  {
    if config.None? {
      return NoRunfile;
    }
    var program := Parser.ParseScript(config.value, grammar);
    if program.Err? {
      return ParseFailed(program.message);
    }
    var names := CollectFunctionNames(program.value);
    if names == [] {
      listing := NoFunctions;
    } else {
      listing := Available(names);
    }
  }
}
