/**
 * The Runfile parser: the preprocessor that joins lines continued with a
 * backslash, and the walk that turns the grammar's parse tree into
 * statements. The grammar itself is not modelled: a parse is a tree of
 * `Pair`s, each with its rule, the text it spans and its children.
 */
module Parser {
  import opened Wrappers
  import opened Text
  import Ast

  /** The grammar rules the walk looks at; `Other` stands for every other rule. */
  datatype Rule =
    | Program | Item | Comment
    | Assignment | FunctionDef | FunctionCall | Command
    | ArgumentList | Argument | QuotedString | Variable | ArgumentWord
    | Operator | Word | EndOfInput | Other

  /** A node of the parse tree: its rule, the text it matched, its children. */
  datatype Pair = Pair(rule: Rule, text: string, inner: seq<Pair>)

  // Joining continued lines

  /** A line whose right-trimmed text ends with a backslash. */
  predicate IsContinuation(line: string) {
    var t := TrimEnd(line);
    t != [] && t[|t| - 1] == '\\'
  }

  /** The preprocessor's state: the lines it has emitted and the pending buffer. */
  datatype Joiner = Joiner(done: seq<string>, buffer: string)

  /**
   * One input line: a continued line goes into the buffer without its
   * backslash and with one space; any other line completes the buffer.
   */
  function Feed(j: Joiner, line: string): Joiner {
    var t := TrimEnd(line);
    if t != [] && t[|t| - 1] == '\\' then Joiner(j.done, j.buffer + t[..|t| - 1] + " ")
    else Joiner(j.done + [TrimEnd(j.buffer + t)], "")
  }

  function FeedAll(lines: seq<string>): Joiner
    decreases |lines|
  {
    if lines == [] then Joiner([], "")
    else Feed(FeedAll(lines[..|lines| - 1]), lines[|lines| - 1])
  }

  /** The logical lines: everything fed, then a pending buffer flushed. */
  function LogicalLines(lines: seq<string>): seq<string> {
    var j := FeedAll(lines);
    if j.buffer == "" then j.done else j.done + [TrimEnd(j.buffer)]
  }

  /** The text the grammar is given. */
  function Preprocessed(input: string): string {
    JoinLines(LogicalLines(Lines(input)))
  }

  method PreprocessEscapedNewlines(input: string) returns (result: string)
    ensures result == Preprocessed(input)
  {
    var lines := Lines(input);
    result := "";
    var buffer := "";
    ghost var done: seq<string> := [];
    var i := 0;
    while i < |lines|
      invariant 0 <= i <= |lines|
      invariant FeedAll(lines[..i]) == Joiner(done, buffer)
      invariant result == JoinLines(done)
    {
      assert lines[..i + 1][..i] == lines[..i];
      var trimmed := TrimEnd(lines[i]);
      if |trimmed| > 0 && trimmed[|trimmed| - 1] == '\\' {
        buffer := buffer + trimmed[..|trimmed| - 1] + " ";
      } else {
        buffer := buffer + trimmed;
        JoinLinesAppend(done, TrimEnd(buffer));
        result := result + TrimEnd(buffer) + "\n";
        done := done + [TrimEnd(buffer)];
        buffer := "";
      }
      i := i + 1;
    }
    assert lines[..i] == lines;
    if buffer != "" {
      JoinLinesAppend(done, TrimEnd(buffer));
      result := result + TrimEnd(buffer) + "\n";
    }
  }

  /** Lines with no `\n` feed a joiner whose buffer and output have none either. */
  lemma {:induction false} FeedAllHasNoNewline(lines: seq<string>)
    requires forall k :: 0 <= k < |lines| ==> '\n' !in lines[k]
    ensures '\n' !in FeedAll(lines).buffer
    ensures forall k :: 0 <= k < |FeedAll(lines).done| ==> '\n' !in FeedAll(lines).done[k]
    decreases |lines|
  {
    if lines != [] {
      var init := lines[..|lines| - 1];
      var line := lines[|lines| - 1];
      FeedAllHasNoNewline(init);
      var j := FeedAll(init);
      var t := TrimEnd(line);
      assert t == line[..|t|];
      assert '\n' !in t by {
        forall k | 0 <= k < |t| ensures t[k] != '\n' {
          assert t[k] == line[k];
        }
      }
      if t != [] && t[|t| - 1] == '\\' {
        var u := t[..|t| - 1];
        assert '\n' !in u by {
          forall k | 0 <= k < |u| ensures u[k] != '\n' {
            assert u[k] == t[k];
          }
        }
        assert '\n' !in j.buffer + u + " ";
      } else {
        var b := j.buffer + t;
        var l := TrimEnd(b);
        assert '\n' !in l by {
          forall k | 0 <= k < |l| ensures l[k] != '\n' {
            assert l[k] == b[k];
          }
        }
      }
    }
  }

  /** Right-trimming a text without `\n` gives a line `Lines` keeps as it is. */
  lemma TrimmedLineIsPlain(b: string)
    requires '\n' !in b
    ensures var l := TrimEnd(b); IsPlainLine(l) && NoTrailingSpace(l)
  {
    var l := TrimEnd(b);
    forall i | 0 <= i < |l| ensures l[i] != '\n' {
      assert l[i] == b[i];
    }
  }

  /** The logical lines of lines without `\n` are plain and right-trimmed. */
  lemma LogicalLinesArePlain(lines: seq<string>)
    requires forall k :: 0 <= k < |lines| ==> '\n' !in lines[k]
    ensures forall k :: 0 <= k < |LogicalLines(lines)| ==>
              var l := LogicalLines(lines)[k]; IsPlainLine(l) && NoTrailingSpace(l)
  {
    FeedAllHasNoNewline(lines);
    FeedAllTrimmed(lines);
    var j := FeedAll(lines);
    var ls := LogicalLines(lines);
    if j.buffer != "" {
      TrimmedLineIsPlain(j.buffer);
    }
    forall k | 0 <= k < |ls| ensures IsPlainLine(ls[k]) && NoTrailingSpace(ls[k]) {
      if k < |j.done| {
        assert ls[k] == j.done[k];
      }
    }
  }

  /**
   * Every logical line is free of `\n` and of trailing whitespace, so the
   * preprocessed text splits back into exactly the logical lines and is
   * empty or ends with a newline.
   */
  lemma PreprocessedLines(input: string)
    ensures var out := Preprocessed(input);
      && (out == [] || out[|out| - 1] == '\n')
      && Lines(out) == LogicalLines(Lines(input))
    ensures var ls := LogicalLines(Lines(input));
      forall k :: 0 <= k < |ls| ==> NoTrailingSpace(ls[k])
  {
    var lines := Lines(input);
    JoinedLogicalLines(lines);
    assert Preprocessed(input) == JoinLines(LogicalLines(lines));
  }

  /** `PreprocessedLines` for any lines without `\n`. */
  lemma JoinedLogicalLines(lines: seq<string>)
    requires forall k :: 0 <= k < |lines| ==> '\n' !in lines[k]
    ensures var ls := LogicalLines(lines);
      && Lines(JoinLines(ls)) == ls
      && forall k :: 0 <= k < |ls| ==> NoTrailingSpace(ls[k])
  {
    LogicalLinesArePlain(lines);
    LinesOfJoinLines(LogicalLines(lines));
  }

  /** Every completed line is right-trimmed. */
  lemma {:induction false} FeedAllTrimmed(lines: seq<string>)
    ensures forall k :: 0 <= k < |FeedAll(lines).done| ==>
              NoTrailingSpace(FeedAll(lines).done[k])
    decreases |lines|
  {
    if lines != [] {
      FeedAllTrimmed(lines[..|lines| - 1]);
    }
  }

  /** A line that is not continued, fed with an empty buffer, is emitted right-trimmed. */
  lemma FeedPlainLine(j: Joiner, line: string)
    requires j.buffer == "" && !IsContinuation(line)
    ensures Feed(j, line) == Joiner(j.done + [TrimEnd(line)], "")
  {
    assert "" + TrimEnd(line) == TrimEnd(line);
    TrimEndIdempotent(line);
  }

  /** Without continuations, each line is only right-trimmed. */
  lemma {:induction false} PlainLinesPassThrough(lines: seq<string>)
    requires forall k :: 0 <= k < |lines| ==> !IsContinuation(lines[k])
    ensures FeedAll(lines).buffer == ""
    ensures |LogicalLines(lines)| == |lines|
    ensures forall k :: 0 <= k < |lines| ==> LogicalLines(lines)[k] == TrimEnd(lines[k])
    decreases |lines|
  {
    if lines != [] {
      var init, last := lines[..|lines| - 1], lines[|lines| - 1];
      var j := FeedAll(init);
      assert j.buffer == "" && j.done == LogicalLines(init) by {
        assert forall k :: 0 <= k < |init| ==> init[k] == lines[k];
        PlainLinesPassThrough(init);
      }
      assert |j.done| == |init| && forall k :: 0 <= k < |init| ==> j.done[k] == TrimEnd(lines[k]) by {
        assert forall k :: 0 <= k < |init| ==> init[k] == lines[k];
        PlainLinesPassThrough(init);
      }
      assert FeedAll(lines) == Joiner(j.done + [TrimEnd(last)], "") by {
        FeedPlainLine(j, last);
      }
      var d := FeedAll(lines).done;
      forall k | 0 <= k < |lines| ensures d[k] == TrimEnd(lines[k]) {
        if k < |init| {
          assert d[k] == j.done[k];
        }
      }
    }
  }

  /** The number of lines that are not continued. */
  function CountEnding(lines: seq<string>): (n: nat)
    ensures n <= |lines|
    decreases |lines|
  {
    if lines == [] then 0
    else CountEnding(lines[..|lines| - 1]) + (if IsContinuation(lines[|lines| - 1]) then 0 else 1)
  }

  /**
   * One logical line per line that is not continued, plus one for a
   * dangling continuation at the end; never more lines than went in.
   */
  lemma {:induction false} LogicalLineCount(lines: seq<string>)
    ensures |FeedAll(lines).done| == CountEnding(lines)
    ensures FeedAll(lines).buffer != "" <==> lines != [] && IsContinuation(lines[|lines| - 1])
    ensures |LogicalLines(lines)| ==
              CountEnding(lines) + if lines != [] && IsContinuation(lines[|lines| - 1]) then 1 else 0
    ensures |LogicalLines(lines)| <= |lines|
    decreases |lines|
  {
    if lines != [] {
      var init := lines[..|lines| - 1];
      LogicalLineCount(init);
      assert CountEnding(init) <= |init|;
    }
  }

  /**
   * What a continued line adds to the buffer: its right-trimmed text
   * without the final backslash, then one space.
   */
  function Unescaped(line: string): string {
    var t := TrimEnd(line);
    (if t == [] then t else t[..|t| - 1]) + " "
  }

  /** What a run of continued lines adds to the buffer, in order. */
  function ContinuedText(lines: seq<string>): string
    decreases |lines|
  {
    if lines == [] then ""
    else ContinuedText(lines[..|lines| - 1]) + Unescaped(lines[|lines| - 1])
  }

  /** A continued line goes into the buffer. */
  lemma FeedContinuation(j: Joiner, c: string)
    requires IsContinuation(c)
    ensures Feed(j, c) == Joiner(j.done, j.buffer + Unescaped(c))
  {
  }

  /** A line that is not continued flushes the buffer with it. */
  lemma FeedEnding(j: Joiner, b: string)
    requires !IsContinuation(b)
    ensures Feed(j, b) == Joiner(j.done + [TrimEnd(j.buffer + TrimEnd(b))], "")
  {
  }

  /** Feeding one more line. */
  lemma FeedAllSnoc(ls: seq<string>, x: string)
    ensures FeedAll(ls + [x]) == Feed(FeedAll(ls), x)
  {
    assert (ls + [x])[..|ls|] == ls;
  }

  /** A continued line fed to a buffer that already holds `x` past `j`'s. */
  lemma FeedContinuedStep(j: Joiner, before: Joiner, x: string, c: string)
    requires IsContinuation(c)
    requires before == Joiner(j.done, j.buffer + x)
    ensures Feed(before, c) == Joiner(j.done, j.buffer + (x + Unescaped(c)))
  {
    FeedContinuation(before, c);
    assert (j.buffer + x) + Unescaped(c) == j.buffer + (x + Unescaped(c));
  }

  /** Continued lines only grow the buffer; nothing is emitted. */
  lemma {:induction false} FeedContinued(ls: seq<string>, cs: seq<string>)
    requires forall k :: 0 <= k < |cs| ==> IsContinuation(cs[k])
    ensures FeedAll(ls + cs) == Joiner(FeedAll(ls).done, FeedAll(ls).buffer + ContinuedText(cs))
    decreases |cs|
  {
    if cs == [] {
      assert ls + cs == ls;
    } else {
      var init, c := cs[..|cs| - 1], cs[|cs| - 1];
      var j, before := FeedAll(ls), FeedAll(ls + init);
      var x := ContinuedText(init);
      assert before == Joiner(j.done, j.buffer + x) by {
        FeedContinued(ls, init);
      }
      assert FeedAll(ls + cs) == Feed(before, c) by {
        assert ls + cs == (ls + init) + [c];
        FeedAllSnoc(ls + init, c);
      }
      assert Feed(before, c) == Joiner(j.done, j.buffer + (x + Unescaped(c))) by {
        FeedContinuedStep(j, before, x, c);
      }
    }
  }

  /**
   * A run of continued lines and the line that ends it become one logical
   * line, wherever they stand in the file.
   */
  lemma ContinuedLinesJoin(ls: seq<string>, cs: seq<string>, b: string)
    requires forall k :: 0 <= k < |cs| ==> IsContinuation(cs[k])
    requires !IsContinuation(b)
    ensures var j := FeedAll(ls);
      FeedAll(ls + cs + [b]) == Joiner(j.done + [TrimEnd(j.buffer + ContinuedText(cs) + TrimEnd(b))], "")
  {
    FeedContinued(ls, cs);
    FeedAllSnoc(ls + cs, b);
    FeedEnding(FeedAll(ls + cs), b);
  }

  /** A continued line and the line after it become one logical line. */
  lemma ContinuationJoinsNextLine(ls: seq<string>, a: string, b: string)
    requires IsContinuation(a) && !IsContinuation(b)
    ensures var j := FeedAll(ls); var t := TrimEnd(a);
      FeedAll(ls + [a, b]) == Joiner(j.done + [TrimEnd(j.buffer + t[..|t| - 1] + " " + TrimEnd(b))], "")
  {
    var j := FeedAll(ls);
    var t := TrimEnd(a);
    assert ls + [a, b] == (ls + [a]) + [b];
    FeedAllSnoc(ls, a);
    FeedContinuation(j, a);
    FeedAllSnoc(ls + [a], b);
    FeedEnding(FeedAll(ls + [a]), b);
    assert j.buffer + Unescaped(a) + TrimEnd(b) == j.buffer + t[..|t| - 1] + " " + TrimEnd(b);
  }

  // Commands

  /** What one part of a command contributes before its trailing space. */
  function Piece(part: Pair): string {
    match part.rule
    case QuotedString => "\"" + TrimMatches(part.text, '"') + "\""
    case Operator => " " + part.text + " "
    case _ => part.text
  }

  function RawCommand(parts: seq<Pair>): string
    decreases |parts|
  {
    if parts == [] then ""
    else RawCommand(parts[..|parts| - 1]) + Piece(parts[|parts| - 1]) + " "
  }

  /** The command text built from a command's parts. */
  function CommandText(parts: seq<Pair>): string {
    Trim(RawCommand(parts))
  }

  /** One more part of the command. */
  lemma RawCommandSnoc(parts: seq<Pair>, i: nat)
    requires i < |parts|
    ensures RawCommand(parts[..i + 1]) == RawCommand(parts[..i]) + Piece(parts[i]) + " "
  {
    assert parts[..i + 1][..i] == parts[..i];
  }

  method ParseCommand(pair: Pair) returns (command: string)
    ensures command == CommandText(pair.inner)
  {
    var result := "";
    for i := 0 to |pair.inner|
      invariant result == RawCommand(pair.inner[..i])
    {
      RawCommandSnoc(pair.inner, i);
      var part := pair.inner[i];
      var piece;
      match part.rule {
        case QuotedString =>
          piece := "\"" + TrimMatches(part.text, '"') + "\"";
        case Variable =>
          piece := part.text;
        case Operator =>
          piece := " " + part.text + " ";
        case Word =>
          piece := part.text;
        case _ =>
          piece := part.text;
      }
      assert piece == Piece(part);
      result := result + piece + " ";
    }
    assert pair.inner[..|pair.inner|] == pair.inner;
    command := Trim(result);
  }

  /** A command text never starts or ends with whitespace, and no parts give an empty command. */
  lemma CommandTextTrimmed(parts: seq<Pair>)
    ensures var c := CommandText(parts); c == [] || (!IsWhitespace(c[0]) && !IsWhitespace(c[|c| - 1]))
    ensures CommandText([]) == ""
  {
  }

  /** A part that is neither quoted nor an operator, with non-blank text free of whitespace. */
  predicate IsBareWord(part: Pair) {
    && part.rule != QuotedString
    && part.rule != Operator
    && part.text != []
    && forall i :: 0 <= i < |part.text| ==> !IsWhitespace(part.text[i])
  }

  function Texts(parts: seq<Pair>): seq<string> {
    seq(|parts|, k requires 0 <= k < |parts| => parts[k].text)
  }

  lemma {:induction false} RawCommandOfWords(parts: seq<Pair>)
    requires parts != []
    requires forall k :: 0 <= k < |parts| ==> IsBareWord(parts[k])
    ensures var j := Join(Texts(parts), " ");
      && RawCommand(parts) == j + " "
      && j != [] && !IsWhitespace(j[0]) && !IsWhitespace(j[|j| - 1])
    decreases |parts|
  {
    var init := parts[..|parts| - 1];
    var last := parts[|parts| - 1];
    assert Texts(parts) == Texts(init) + [last.text];
    if init == [] {
      assert RawCommand(init) == "";
      assert Texts(parts) == [last.text];
    } else {
      RawCommandOfWords(init);
      JoinAppend(Texts(init), last.text, " ");
      var ji := Join(Texts(init), " ");
      var j := ji + " " + last.text;
      assert Piece(last) == last.text;
      assert RawCommand(parts) == (ji + " ") + last.text + " ";
      assert j[0] == ji[0];
      assert j[|j| - 1] == last.text[|last.text| - 1];
    }
  }

  /** A command text with a space after it trims back to itself. */
  lemma TrimPadded(body: string)
    requires body != [] && !IsWhitespace(body[0]) && !IsWhitespace(body[|body| - 1])
    ensures Trim(body + " ") == body
  {
    assert (body + " ")[..|body|] == body;
    assert TrimEnd(body + " ") == TrimEnd(body);
  }

  /** Bare words are joined by single spaces. */
  lemma CommandOfWords(parts: seq<Pair>)
    requires forall k :: 0 <= k < |parts| ==> IsBareWord(parts[k])
    ensures CommandText(parts) == Join(Texts(parts), " ")
  {
    if parts != [] {
      RawCommandOfWords(parts);
      TrimPadded(Join(Texts(parts), " "));
    }
  }

  /** An operator between two words keeps two spaces on each side. */
  lemma OperatorSpacing(a: Pair, op: Pair, b: Pair)
    requires IsBareWord(a) && IsBareWord(b)
    requires op.rule == Operator
    ensures CommandText([a, op, b]) == a.text + "  " + op.text + "  " + b.text
  {
    var parts := [a, op, b];
    assert parts[..2][..1] == [a];
    assert parts[..2] == [a, op];
    assert [a][..0] == [];
    assert RawCommand([a]) == a.text + " ";
    assert Piece(op) == " " + op.text + " ";
    var r2 := a.text + " " + (" " + op.text + " ") + " ";
    assert RawCommand([a, op]) == RawCommand([a]) + Piece(op) + " ";
    assert RawCommand([a, op]) == r2;
    var body := a.text + "  " + op.text + "  " + b.text;
    assert RawCommand(parts) == body + " " by {
      assert r2 + b.text + " " == body + " ";
    }
    assert body[|body| - 1] == b.text[|b.text| - 1];
    assert body[0] == a.text[0];
    TrimPadded(body);
  }

  /** A quoted part keeps exactly one pair of quotes. */
  lemma QuotedPartKeepsQuotes(s: string, inner: seq<Pair>)
    requires s == [] || (s[0] != '"' && s[|s| - 1] != '"')
    ensures CommandText([Pair(QuotedString, ['"'] + s + ['"'], inner)]) == ['"'] + s + ['"']
  {
    var q := ['"'] + s + ['"'];
    var part := Pair(QuotedString, q, inner);
    assert [part][..0] == [];
    TrimMatchesOfQuoted(s);
    assert RawCommand([part]) == q + " ";
    TrimPadded(q);
  }

  // Statements

  /** An argument's value: its first child's text, unquoted when it is a quoted string. */
  function ArgumentValue(arg: Pair): string {
    if arg.inner == [] then arg.text
    else if arg.inner[0].rule == QuotedString then TrimMatches(arg.inner[0].text, '"')
    else arg.inner[0].text
  }

  /** The values of the `argument` children of an argument list, in order. */
  function ArgumentValues(children: seq<Pair>): seq<string>
    decreases |children|
  {
    if children == [] then []
    else
      var init := ArgumentValues(children[..|children| - 1]);
      var last := children[|children| - 1];
      if last.rule == Argument then init + [ArgumentValue(last)] else init
  }

  method CollectArguments(list: Pair) returns (args: seq<string>)
    ensures args == ArgumentValues(list.inner)
  {
    args := [];
    for i := 0 to |list.inner|
      invariant args == ArgumentValues(list.inner[..i])
    {
      assert list.inner[..i + 1][..i] == list.inner[..i];
      var arg := list.inner[i];
      if arg.rule == Argument {
        var value: string;
        if arg.inner != [] {
          var first := arg.inner[0];
          match first.rule {
            case QuotedString =>
              value := TrimMatches(first.text, '"');
            case Variable =>
              value := first.text;
            case ArgumentWord =>
              value := first.text;
            case _ =>
              value := first.text;
          }
        } else {
          value := arg.text;
        }
        args := args + [value];
      }
    }
    assert list.inner[..|list.inner|] == list.inner;
  }

  /** The statement a parse-tree node stands for, if any. */
  function StatementOf(pair: Pair): Option<Ast.Statement> {
    match pair.rule
    case Assignment =>
      if |pair.inner| < 2 then None
      else Some(Ast.Assignment(pair.inner[0].text, pair.inner[1].text))
    case FunctionDef =>
      if |pair.inner| < 2 then None
      else Some(Ast.SimpleFunctionDef(pair.inner[0].text, CommandText(pair.inner[1].inner)))
    case FunctionCall =>
      if pair.inner == [] then None
      else
        var args :=
          if |pair.inner| >= 2 && pair.inner[1].rule == ArgumentList
          then ArgumentValues(pair.inner[1].inner) else [];
        Some(Ast.FunctionCall(pair.inner[0].text, args))
    case Command => Some(Ast.Command(CommandText(pair.inner)))
    case _ => None
  }

  method ParseStatement(pair: Pair) returns (r: Option<Ast.Statement>)
    ensures r == StatementOf(pair)
  {
    match pair.rule {
      case Assignment =>
        if |pair.inner| < 2 {
          return None;
        }
        r := Some(Ast.Assignment(pair.inner[0].text, pair.inner[1].text));
      case FunctionDef =>
        if |pair.inner| < 2 {
          return None;
        }
        var template := ParseCommand(pair.inner[1]);
        r := Some(Ast.SimpleFunctionDef(pair.inner[0].text, template));
      case FunctionCall =>
        if pair.inner == [] {
          return None;
        }
        var args := [];
        if |pair.inner| >= 2 && pair.inner[1].rule == ArgumentList {
          args := CollectArguments(pair.inner[1]);
        }
        r := Some(Ast.FunctionCall(pair.inner[0].text, args));
      case Command =>
        var command := ParseCommand(pair);
        r := Some(Ast.Command(command));
      case _ =>
        r := None;
    }
  }

  /** Argument lists concatenate: each argument keeps its place. */
  lemma {:induction false} ArgumentValuesAppend(a: seq<Pair>, b: seq<Pair>)
    ensures ArgumentValues(a + b) == ArgumentValues(a) + ArgumentValues(b)
    decreases |b|
  {
    if b == [] {
      assert a + b == a;
    } else {
      var b' := b[..|b| - 1];
      assert (a + b)[..|a + b| - 1] == a + b';
      ArgumentValuesAppend(a, b');
    }
  }

  /** When every child is an argument, there is one value per child, in order. */
  lemma {:induction false} ArgumentsInOrder(children: seq<Pair>)
    requires forall k :: 0 <= k < |children| ==> children[k].rule == Argument
    ensures |ArgumentValues(children)| == |children|
    ensures forall k :: 0 <= k < |children| ==> ArgumentValues(children)[k] == ArgumentValue(children[k])
    decreases |children|
  {
    if children != [] {
      ArgumentsInOrder(children[..|children| - 1]);
    }
  }

  /** A quoted argument reaches the call without its quotes. */
  lemma QuotedArgumentUnquoted(text: string, s: string, quotedInner: seq<Pair>, rest: seq<Pair>)
    requires s == [] || (s[0] != '"' && s[|s| - 1] != '"')
    ensures ArgumentValue(Pair(Argument, text, [Pair(QuotedString, ['"'] + s + ['"'], quotedInner)] + rest)) == s
  {
    TrimMatchesOfQuoted(s);
  }

  /** A variable or bare-word argument is taken verbatim; a bare argument node gives its own text. */
  lemma UnquotedArgumentVerbatim(text: string, first: Pair, rest: seq<Pair>)
    requires first.rule != QuotedString
    ensures ArgumentValue(Pair(Argument, text, [first] + rest)) == first.text
    ensures ArgumentValue(Pair(Argument, text, [])) == text
  {
  }

  // Scripts

  /** The statement an item contributes: none for a comment or an unrecognised node. */
  function ItemStatements(item: Pair): seq<Ast.Statement> {
    if item.rule != Item || item.inner == [] || item.inner[0].rule == Comment then []
    else
      match StatementOf(item.inner[0])
      case None => []
      case Some(s) => [s]
  }

  function ProgramStatements(items: seq<Pair>): seq<Ast.Statement>
    decreases |items|
  {
    if items == [] then []
    else ProgramStatements(items[..|items| - 1]) + ItemStatements(items[|items| - 1])
  }

  /** The statements of the top-level nodes of a parse: only `program` nodes count. */
  function StatementsOf(pairs: seq<Pair>): seq<Ast.Statement>
    decreases |pairs|
  {
    if pairs == [] then []
    else
      var last := pairs[|pairs| - 1];
      StatementsOf(pairs[..|pairs| - 1]) + if last.rule == Program then ProgramStatements(last.inner) else []
  }

  /** The walk over the items of one `program` node. */
  method CollectItems(items: seq<Pair>) returns (statements: seq<Ast.Statement>)
    ensures statements == ProgramStatements(items)
  {
    statements := [];
    for k := 0 to |items|
      invariant statements == ProgramStatements(items[..k])
    {
      assert items[..k + 1][..k] == items[..k];
      var item := items[k];
      var found := [];
      if item.rule == Item && item.inner != [] {
        var content := item.inner[0];
        if content.rule != Comment {
          var stmt := ParseStatement(content);
          if stmt.Some? {
            found := [stmt.value];
          }
        }
      }
      assert found == ItemStatements(item);
      statements := statements + found;
    }
    assert items[..|items|] == items;
  }

  method CollectStatements(pairs: seq<Pair>) returns (statements: seq<Ast.Statement>)
    ensures statements == StatementsOf(pairs)
  {
    statements := [];
    for i := 0 to |pairs|
      invariant statements == StatementsOf(pairs[..i])
    {
      assert pairs[..i + 1][..i] == pairs[..i];
      var pair := pairs[i];
      if pair.rule == Program {
        var found := CollectItems(pair.inner);
        statements := statements + found;
      }
    }
    assert pairs[..|pairs|] == pairs;
  }

  /**
   * Preprocesses the input, hands it to the grammar and walks the tree;
   * a grammar error is passed on unchanged.
   */
  method ParseScript(input: string, grammar: string -> Result<seq<Pair>>)
    returns (r: Result<seq<Ast.Statement>>)
    ensures grammar(Preprocessed(input)).Err? ==> r == Err(grammar(Preprocessed(input)).message)
    ensures grammar(Preprocessed(input)).Ok? ==> r == Ok(StatementsOf(grammar(Preprocessed(input)).value))
  {
    var preprocessed := PreprocessEscapedNewlines(input);
    var parsed := grammar(preprocessed);
    if parsed.Err? {
      return Err(parsed.message);
    }
    var statements := CollectStatements(parsed.value);
    return Ok(statements);
  }

  /** Items contribute their statements in source order. */
  lemma {:induction false} ProgramStatementsAppend(a: seq<Pair>, b: seq<Pair>)
    ensures ProgramStatements(a + b) == ProgramStatements(a) + ProgramStatements(b)
    decreases |b|
  {
    if b == [] {
      assert a + b == a;
    } else {
      var b' := b[..|b| - 1];
      var last := b[|b| - 1];
      assert (a + b)[..|a + b| - 1] == a + b';
      assert (a + b)[|a + b| - 1] == last;
      ProgramStatementsAppend(a, b');
      var x, y, z := ProgramStatements(a), ProgramStatements(b'), ItemStatements(last);
      assert ProgramStatements(a + b) == (x + y) + z;
      assert ProgramStatements(b) == y + z;
      assert (x + y) + z == x + (y + z);
    }
  }

  /** A program made only of comments has no statements. */
  lemma {:induction false} CommentsProduceNothing(items: seq<Pair>)
    requires forall k :: 0 <= k < |items| ==> items[k].inner != [] && items[k].inner[0].rule == Comment
    ensures ProgramStatements(items) == []
    decreases |items|
  {
    if items != [] {
      CommentsProduceNothing(items[..|items| - 1]);
    }
  }

  /**
   * Each item gives at most one statement; an item whose node is not
   * recognised gives none, and every item counts only when each one holds
   * a statement.
   */
  lemma {:induction false} AtMostOneStatementPerItem(items: seq<Pair>)
    ensures |ProgramStatements(items)| <= |items|
    ensures forall k :: 0 <= k < |items| && items[k].inner != [] && StatementOf(items[k].inner[0]).None? ==>
              ItemStatements(items[k]) == []
    ensures |ProgramStatements(items)| == |items| <==> forall k :: 0 <= k < |items| ==> ItemStatements(items[k]) != []
    decreases |items|
  {
    if items != [] {
      var prefix, last := items[..|items| - 1], items[|items| - 1];
      AtMostOneStatementPerItem(prefix);
      assert |ItemStatements(last)| <= 1;
      assert forall k :: 0 <= k < |prefix| ==> prefix[k] == items[k];
    }
  }

  /** An item holding a recognised statement gives exactly that statement. */
  lemma ItemWithStatement(item: Pair)
    requires item.rule == Item && item.inner != []
    requires item.inner[0].rule != Comment && StatementOf(item.inner[0]).Some?
    ensures ItemStatements(item) == [StatementOf(item.inner[0]).value]
  {
  }

  /** When every item holds a recognised statement, the program lists them all in order. */
  lemma {:induction false} StatementsInSourceOrder(items: seq<Pair>)
    requires forall k :: 0 <= k < |items| ==>
               items[k].rule == Item && items[k].inner != [] &&
               items[k].inner[0].rule != Comment && StatementOf(items[k].inner[0]).Some?
    ensures |ProgramStatements(items)| == |items|
    ensures forall k :: 0 <= k < |items| ==>
              ProgramStatements(items)[k] == StatementOf(items[k].inner[0]).value
    decreases |items|
  {
    if items != [] {
      var init := items[..|items| - 1];
      var last := items[|items| - 1];
      assert forall k :: 0 <= k < |init| ==> init[k] == items[k];
      StatementsInSourceOrder(init);
      ItemWithStatement(last);
      var ps := ProgramStatements(items);
      assert ps == ProgramStatements(init) + [StatementOf(last.inner[0]).value];
      forall k | 0 <= k < |items| ensures ps[k] == StatementOf(items[k].inner[0]).value {
        if k < |init| {
          assert ps[k] == ProgramStatements(init)[k];
        }
      }
    }
  }
}
