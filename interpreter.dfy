/**
 * The interpreter: three tables (variables, full function bodies and
 * one-line command templates), statement execution, and the two ways of
 * resolving a function call by name.
 *
 * Running a command on the host shell is modelled as appending the
 * substituted command string to `log` and succeeding: a non-zero exit
 * status is only reported, never turned into an error.
 *
 * The pure functions below (`RunStatements`, `RunStatement`,
 * `CallWithArgs`, `CallWithoutParens`) are the specification; the class
 * `Interpreter` at the end holds the tables as fields and is proved to
 * behave as they say.
 */
module Interp {
  import opened Wrappers
  import opened Text
  import opened Ast
  import opened Substitution

  /** The order in which iterating the variable table visits its entries. */
  type Iteration = map<string, string> -> Bindings

  /** Iteration visits every entry of every table exactly once. */
  ghost predicate IteratesEveryTable(iteration: Iteration) {
    forall vars :: IsIterationOf(iteration(vars), vars)
  }

  /**
   * How running statements ends. `DepthExhausted` stands for nesting of
   * full function bodies deeper than the fuel allows (the program would
   * exhaust its stack); it cannot arise while no full function exists.
   */
  datatype Outcome = Done | Failed(message: string) | DepthExhausted

  /** The interpreter's tables and the commands run so far. */
  datatype Machine = Machine(
    variables: map<string, string>,
    functions: map<string, seq<Statement>>,
    simpleFunctions: map<string, string>,
    log: seq<string>)

  datatype Step = Step(machine: Machine, outcome: Outcome)

  function NotFoundMessage(name: string): string {
    "Function '" + name + "' not found"
  }

  /** `execute_command`: the command is handed to the shell. */
  function RunCommand(m: Machine, command: string): Machine {
    m.(log := m.log + [command])
  }

  /** A simple function's template, substituted and run. */
  function RunTemplate(m: Machine, template: string, args: seq<string>, it: Iteration): Step {
    Step(RunCommand(m, Substitute(template, args, it(m.variables))), Done)
  }

  /** Running statements in order, stopping at the first that does not finish with `Done`. */
  function RunStatements(m: Machine, stmts: seq<Statement>, it: Iteration, fuel: nat): Step
    decreases fuel, 2, |stmts|
  {
    if stmts == [] then Step(m, Done)
    else
      var before := RunStatements(m, stmts[..|stmts| - 1], it, fuel);
      if before.outcome != Done then before
      else RunStatement(before.machine, stmts[|stmts| - 1], it, fuel)
  }

  function RunStatement(m: Machine, s: Statement, it: Iteration, fuel: nat): Step
    decreases fuel, 1, 0
  {
    match s
    case Assignment(name, value) => Step(m.(variables := m.variables[name := value]), Done)
    case SimpleFunctionDef(name, template) =>
      Step(m.(simpleFunctions := m.simpleFunctions[name := template]), Done)
    case FunctionCall(name, args) => CallWithArgs(m, name, args, it, fuel)
    case Command(command) => Step(RunCommand(m, Substitute(command, [], it(m.variables))), Done)
  }

  /** A full function's statements, one level of fuel deeper. */
  function RunBody(m: Machine, body: seq<Statement>, it: Iteration, fuel: nat): Step
    decreases fuel, 0, 0
  {
    if fuel == 0 then Step(m, DepthExhausted) else RunStatements(m, body, it, fuel - 1)
  }

  /** `call_function_with_args`: a `name(args)` call inside a script. */
  function CallWithArgs(m: Machine, name: string, args: seq<string>, it: Iteration, fuel: nat): Step
    decreases fuel, 0, 1
  {
    if name in m.simpleFunctions then RunTemplate(m, m.simpleFunctions[name], args, it)
    else if name in m.functions then RunBody(m, m.functions[name], it, fuel)
    else Step(m, Failed(NotFoundMessage(name)))
  }

  /** `call_function_without_parens`: a call from the command line, `name args...`. */
  function CallWithoutParens(m: Machine, name: string, args: seq<string>, it: Iteration, fuel: nat): Step
    decreases fuel, 0, 1
  {
    var sf := m.simpleFunctions;
    if name in sf then
      RunTemplate(m, sf[name], args, it)
    else if |args| > 0 && name + ":" + args[0] in sf then
      RunTemplate(m, sf[name + ":" + args[0]], args[1..], it)
    else if ReplaceChar(name, '_', ':') != name && ReplaceChar(name, '_', ':') in sf then
      RunTemplate(m, sf[ReplaceChar(name, '_', ':')], args, it)
    else if name in m.functions then
      RunBody(m, m.functions[name], it, fuel)
    else
      Step(m, Failed(NotFoundMessage(name)))
  }

  // The resolution strategies as an ordered list, each a pure function of
  // the name and the arguments.

  /** A template to run and the arguments to substitute into it. */
  datatype Target = Target(template: string, args: seq<string>)

  function DirectMatch(sf: map<string, string>, name: string, args: seq<string>): Option<Target> {
    if name in sf then Some(Target(sf[name], args)) else None
  }

  function SubcommandMatch(sf: map<string, string>, name: string, args: seq<string>): Option<Target> {
    if |args| > 0 && name + ":" + args[0] in sf then Some(Target(sf[name + ":" + args[0]], args[1..])) else None
  }

  function UnderscoreMatch(sf: map<string, string>, name: string, args: seq<string>): Option<Target> {
    var colons := ReplaceChar(name, '_', ':');
    if colons != name && colons in sf then Some(Target(sf[colons], args)) else None
  }

  /** The first strategy that matches. */
  function FirstMatch(candidates: seq<Option<Target>>): (r: Option<Target>)
    ensures r.Some? <==> exists i :: 0 <= i < |candidates| && candidates[i].Some?
    ensures r.Some? ==> exists i :: 0 <= i < |candidates| && candidates[i] == r
                          && forall j :: 0 <= j < i ==> candidates[j].None?
  {
    if candidates == [] then None
    else if candidates[0].Some? then candidates[0]
    else
      var r := FirstMatch(candidates[1..]);
      assert forall i :: 1 <= i < |candidates| ==> candidates[i] == candidates[1..][i - 1];
      r
  }

  /**
   * Resolution without parentheses is the first of: direct name, name and
   * first argument joined by `:`, underscores read as colons; then a full
   * function body; else the error.
   */
  lemma CallWithoutParensTriesStrategiesInOrder(m: Machine, name: string, args: seq<string>, it: Iteration, fuel: nat)
    ensures CallWithoutParens(m, name, args, it, fuel) ==
      match FirstMatch([DirectMatch(m.simpleFunctions, name, args),
                        SubcommandMatch(m.simpleFunctions, name, args),
                        UnderscoreMatch(m.simpleFunctions, name, args)])
      case Some(target) => RunTemplate(m, target.template, target.args, it)
      case None =>
        if name in m.functions then RunBody(m, m.functions[name], it, fuel)
        else Step(m, Failed(NotFoundMessage(name)))
  {
    var d := DirectMatch(m.simpleFunctions, name, args);
    var s := SubcommandMatch(m.simpleFunctions, name, args);
    var u := UnderscoreMatch(m.simpleFunctions, name, args);
    var c := [d, s, u];
    assert c[1..] == [s, u] && c[1..][1..] == [u] && [u][1..] == [];
    if d.None? {
      assert FirstMatch(c) == FirstMatch([s, u]);
      if s.None? {
        assert FirstMatch([s, u]) == FirstMatch([u]);
        assert FirstMatch([u]) == u;
      }
    }
  }

  /** A direct hit in the simple-function table wins, with the full argument list. */
  lemma DirectHitWins(m: Machine, name: string, args: seq<string>, it: Iteration, fuel: nat)
    requires name in m.simpleFunctions
    ensures CallWithoutParens(m, name, args, it, fuel) ==
              Step(m.(log := m.log + [Substitute(m.simpleFunctions[name], args, it(m.variables))]), Done)
    ensures CallWithArgs(m, name, args, it, fuel) == CallWithoutParens(m, name, args, it, fuel)
  {
  }

  /** Without a direct hit, `name:args[0]` is tried next and gets only the remaining arguments. */
  lemma SubcommandGetsRemainingArgs(m: Machine, name: string, args: seq<string>, it: Iteration, fuel: nat)
    requires name !in m.simpleFunctions
    requires |args| > 0 && name + ":" + args[0] in m.simpleFunctions
    ensures CallWithoutParens(m, name, args, it, fuel) ==
              Step(m.(log := m.log + [Substitute(m.simpleFunctions[name + ":" + args[0]], args[1..], it(m.variables))]), Done)
  {
  }

  /** Underscores become colons only when there is an underscore, and the full arguments are passed. */
  lemma UnderscoreGetsAllArgs(m: Machine, name: string, args: seq<string>, it: Iteration, fuel: nat)
    requires name !in m.simpleFunctions
    requires |args| == 0 || name + ":" + args[0] !in m.simpleFunctions
    ensures ReplaceChar(name, '_', ':') != name <==> '_' in name
    ensures '_' in name && ReplaceChar(name, '_', ':') in m.simpleFunctions ==>
              CallWithoutParens(m, name, args, it, fuel) ==
                Step(m.(log := m.log + [Substitute(m.simpleFunctions[ReplaceChar(name, '_', ':')], args, it(m.variables))]), Done)
    ensures '_' !in name ==>
              CallWithoutParens(m, name, args, it, fuel) ==
                if name in m.functions then RunBody(m, m.functions[name], it, fuel)
                else Step(m, Failed(NotFoundMessage(name)))
  {
    if '_' in name {
      var i :| 0 <= i < |name| && name[i] == '_';
      assert ReplaceChar(name, '_', ':')[i] == ':';
    } else {
      assert ReplaceChar(name, '_', ':') == name;
    }
  }

  /**
   * When no strategy matches and there is no full function of that name,
   * the call fails with `Function '<name>' not found` and changes nothing.
   */
  lemma UnknownFunctionFails(m: Machine, name: string, args: seq<string>, it: Iteration, fuel: nat)
    requires name !in m.simpleFunctions && name !in m.functions
    requires |args| == 0 || name + ":" + args[0] !in m.simpleFunctions
    requires '_' !in name || ReplaceChar(name, '_', ':') !in m.simpleFunctions
    ensures CallWithoutParens(m, name, args, it, fuel) == Step(m, Failed(NotFoundMessage(name)))
  {
  }

  /**
   * A `name(args)` call in a script tries only the direct name and then the
   * full-function table: `name:args[0]` and underscore spellings are never
   * tried.
   */
  lemma CallWithArgsNeverPromotes(m: Machine, name: string, args: seq<string>, it: Iteration, fuel: nat)
    requires name !in m.simpleFunctions && name !in m.functions
    ensures CallWithArgs(m, name, args, it, fuel) == Step(m, Failed(NotFoundMessage(name)))
  {
  }

  /** An assignment or a simple definition writes one key of one table and nothing else. */
  lemma DefinitionsWriteOneKey(m: Machine, name: string, text: string, it: Iteration, fuel: nat)
    ensures RunStatement(m, Assignment(name, text), it, fuel) ==
              Step(Machine(m.variables[name := text], m.functions, m.simpleFunctions, m.log), Done)
    ensures RunStatement(m, SimpleFunctionDef(name, text), it, fuel) ==
              Step(Machine(m.variables, m.functions, m.simpleFunctions[name := text], m.log), Done)
  {
  }

  /** Running `a + b` runs `a`, and then `b` only if `a` finished with `Done`. */
  lemma {:induction false} RunStatementsAppend(m: Machine, a: seq<Statement>, b: seq<Statement>, it: Iteration, fuel: nat)
    ensures RunStatements(m, a + b, it, fuel) ==
              var first := RunStatements(m, a, it, fuel);
              if first.outcome != Done then first else RunStatements(first.machine, b, it, fuel)
    decreases |b|
  {
    if b == [] {
      assert a + b == a;
    } else {
      var ab := a + b;
      assert ab[..|ab| - 1] == a + b[..|b| - 1];
      assert ab[|ab| - 1] == b[|b| - 1];
      RunStatementsAppend(m, a, b[..|b| - 1], it, fuel);
    }
  }

  /**
   * When running statements does not finish with `Done`, the statements
   * before some index `i` all finished with `Done` and their table updates
   * are kept, statement `i` produced the result, and nothing after it ran.
   */
  lemma {:induction false} RunStatementsStopAtFirstFailure(m: Machine, stmts: seq<Statement>, it: Iteration, fuel: nat)
    requires RunStatements(m, stmts, it, fuel).outcome != Done
    ensures exists i :: 0 <= i < |stmts|
              && RunStatements(m, stmts[..i], it, fuel).outcome == Done
              && RunStatements(m, stmts, it, fuel) == RunStatement(RunStatements(m, stmts[..i], it, fuel).machine, stmts[i], it, fuel)
    decreases |stmts|
  {
    var n := |stmts|;
    var init := stmts[..n - 1];
    if RunStatements(m, init, it, fuel).outcome != Done {
      RunStatementsStopAtFirstFailure(m, init, it, fuel);
      var i :| 0 <= i < |init|
              && RunStatements(m, init[..i], it, fuel).outcome == Done
              && RunStatements(m, init, it, fuel) == RunStatement(RunStatements(m, init[..i], it, fuel).machine, init[i], it, fuel);
      assert init[..i] == stmts[..i];
    } else {
      assert stmts[..n - 1] == init;
    }
  }

  // What running statements can and cannot change.

  /** Every step keeps the full-function table and only appends to the log. */
  predicate Frames(m: Machine, r: Step) {
    r.machine.functions == m.functions && m.log <= r.machine.log
  }

  lemma {:induction false} RunStatementsFrame(m: Machine, stmts: seq<Statement>, it: Iteration, fuel: nat)
    ensures Frames(m, RunStatements(m, stmts, it, fuel))
    decreases fuel, 2, |stmts|
  {
    if stmts != [] {
      var before := RunStatements(m, stmts[..|stmts| - 1], it, fuel);
      RunStatementsFrame(m, stmts[..|stmts| - 1], it, fuel);
      if before.outcome == Done {
        RunStatementFrame(before.machine, stmts[|stmts| - 1], it, fuel);
      }
    }
  }

  lemma {:induction false} RunStatementFrame(m: Machine, s: Statement, it: Iteration, fuel: nat)
    ensures Frames(m, RunStatement(m, s, it, fuel))
    decreases fuel, 1, 0
  {
    if s.FunctionCall? {
      CallWithArgsFrame(m, s.name, s.args, it, fuel);
    }
  }

  lemma {:induction false} RunBodyFrame(m: Machine, body: seq<Statement>, it: Iteration, fuel: nat)
    ensures Frames(m, RunBody(m, body, it, fuel))
    decreases fuel, 0, 0
  {
    if fuel > 0 {
      RunStatementsFrame(m, body, it, fuel - 1);
    }
  }

  lemma {:induction false} CallWithArgsFrame(m: Machine, name: string, args: seq<string>, it: Iteration, fuel: nat)
    ensures Frames(m, CallWithArgs(m, name, args, it, fuel))
    decreases fuel, 0, 1
  {
    if name !in m.simpleFunctions && name in m.functions {
      RunBodyFrame(m, m.functions[name], it, fuel);
    }
  }

  lemma CallWithoutParensFrame(m: Machine, name: string, args: seq<string>, it: Iteration, fuel: nat)
    ensures Frames(m, CallWithoutParens(m, name, args, it, fuel))
  {
    if name in m.functions {
      RunBodyFrame(m, m.functions[name], it, fuel);
    }
  }

  /**
   * Nothing ever adds a full function, so with an empty full-function
   * table the fuel is never consulted: the result is the same for every
   * fuel and is never `DepthExhausted`.
   */
  lemma {:induction false} NoBodiesNoDepthLimit(m: Machine, stmts: seq<Statement>, it: Iteration, fuel: nat, fuel': nat)
    requires m.functions == map[]
    ensures RunStatements(m, stmts, it, fuel) == RunStatements(m, stmts, it, fuel')
    ensures RunStatements(m, stmts, it, fuel).outcome != DepthExhausted
    ensures RunStatements(m, stmts, it, fuel).machine.functions == map[]
    decreases |stmts|
  {
    if stmts != [] {
      var init := stmts[..|stmts| - 1];
      var last := stmts[|stmts| - 1];
      NoBodiesNoDepthLimit(m, init, it, fuel, fuel');
      var before := RunStatements(m, init, it, fuel);
      assert RunStatements(m, init, it, fuel') == before;
      if before.outcome == Done {
        StatementNoBodies(before.machine, last, it, fuel, fuel');
        assert RunStatements(m, stmts, it, fuel) == RunStatement(before.machine, last, it, fuel);
        assert RunStatements(m, stmts, it, fuel') == RunStatement(before.machine, last, it, fuel');
      }
    }
  }

  /** One statement, with no full functions: fuel plays no part. */
  lemma StatementNoBodies(m: Machine, s: Statement, it: Iteration, fuel: nat, fuel': nat)
    requires m.functions == map[]
    ensures RunStatement(m, s, it, fuel) == RunStatement(m, s, it, fuel')
    ensures RunStatement(m, s, it, fuel).outcome != DepthExhausted
    ensures RunStatement(m, s, it, fuel).machine.functions == map[]
  {
    if s.FunctionCall? {
      assert s.name !in m.functions;
    }
  }

  /**
   * With no full functions, a command-line call either runs exactly one
   * command and succeeds, or fails with the not-found error and changes
   * nothing.
   */
  lemma CallWithoutParensRunsAtMostOne(m: Machine, name: string, args: seq<string>, it: Iteration, fuel: nat)
    requires m.functions == map[]
    ensures var r := CallWithoutParens(m, name, args, it, fuel);
            || (r.outcome == Done && r.machine.log[..|m.log|] == m.log && |r.machine.log| == |m.log| + 1
                && r.machine.(log := m.log) == m)
            || r == Step(m, Failed(NotFoundMessage(name)))
  {
  }

  /** Defining a simple function twice: the later template is the one a call runs. */
  lemma LastDefinitionWins(m: Machine, name: string, first: string, second: string, args: seq<string>,
                           it: Iteration, fuel: nat)
    ensures var r := RunStatements(m, [SimpleFunctionDef(name, first), SimpleFunctionDef(name, second), FunctionCall(name, args)], it, fuel);
            r.outcome == Done
            && r.machine.simpleFunctions == m.simpleFunctions[name := second]
            && r.machine.log == m.log + [Substitute(second, args, it(m.variables))]
  {
    var prog := [SimpleFunctionDef(name, first), SimpleFunctionDef(name, second), FunctionCall(name, args)];
    var m1 := m.(simpleFunctions := m.simpleFunctions[name := first]);
    var m2 := m.(simpleFunctions := m.simpleFunctions[name := second]);
    assert prog[..1][..0] == [];
    assert RunStatements(m, prog[..1], it, fuel) == Step(m1, Done);
    assert prog[..2][..1] == prog[..1];
    assert m1.(simpleFunctions := m1.simpleFunctions[name := second]) == m2;
    assert RunStatements(m, prog[..2], it, fuel) == Step(m2, Done);
    assert prog[..3][..2] == prog[..2] && prog[..3] == prog;
    assert RunStatements(m, prog, it, fuel) == CallWithArgs(m2, name, args, it, fuel);
  }

  lemma DockerShellTexts()
    ensures "echo \"Opening Docker shell for $1\"" == "echo \"Opening Docker shell for " + Placeholder(1) + "\""
    ensures "echo \"Opening Docker shell for " + "myapp" + "\"" == "echo \"Opening Docker shell for myapp\""
    ensures NoDollar("echo \"Opening Docker shell for ") && NoDollar("\"") && NoDollar("myapp")
    ensures "docker" + ":" + "shell" == "docker:shell"
  {
    assert DecimalString(1) == "1";
    assert NoDollar("echo \"Opening Docker shell for ") by {}
  }

  /**
   * The command-line call `docker shell myapp` with only `docker:shell`
   * defined runs that template with the remaining argument `myapp` as `$1`.
   */
  lemma NestedCallExample(m: Machine, it: Iteration, fuel: nat)
    requires "docker" !in m.simpleFunctions
    requires "docker:shell" in m.simpleFunctions
    requires m.simpleFunctions["docker:shell"] == "echo \"Opening Docker shell for $1\""
    ensures CallWithoutParens(m, "docker", ["shell", "myapp"], it, fuel) ==
              Step(m.(log := m.log + ["echo \"Opening Docker shell for myapp\""]), Done)
  {
    var args := ["shell", "myapp"];
    DockerShellTexts();
    assert args[0] == "shell" && args[1..] == ["myapp"];
    SubcommandGetsRemainingArgs(m, "docker", args, it, fuel);
    SubstitutePlaceholder("echo \"Opening Docker shell for ", 1, "\"", ["myapp"], it(m.variables));
  }

  /** `a_b` with underscore-free `a` and `b` is read as `a:b`. */
  lemma UnderscoreSpelling(a: string, b: string)
    requires '_' !in a && '_' !in b
    ensures ReplaceChar(a + "_" + b, '_', ':') == a + ":" + b
    ensures a + ":" + b != a + "_" + b
  {
    var s := a + "_" + b;
    var t := a + ":" + b;
    var r := ReplaceChar(s, '_', ':');
    forall i | 0 <= i < |s|
      ensures r[i] == t[i]
    {
      if i < |a| {
        assert s[i] == a[i] == t[i];
      } else if i > |a| {
        assert s[i] == b[i - |a| - 1] == t[i];
      }
    }
    assert s[|a|] != t[|a|];
  }

  /**
   * A command-line call such as `docker_shell` with no arguments, where only
   * `docker:shell` is defined, runs that template by reading underscores as
   * colons.
   */
  lemma UnderscoreExample(m: Machine, a: string, b: string, template: string, it: Iteration, fuel: nat)
    requires '_' !in a && '_' !in b
    requires m.simpleFunctions == map[a + ":" + b := template]
    requires NoDollar(template)
    ensures CallWithoutParens(m, a + "_" + b, [], it, fuel) == Step(m.(log := m.log + [template]), Done)
  {
    UnderscoreSpelling(a, b);
    SubstituteWithoutDollar(template, [], it(m.variables));
  }

  /**
   * The interpreter object. The three tables are fields that statements
   * update in place; `log` records the commands handed to the shell.
   */
  class Interpreter {
    var variables: map<string, string>
    var functions: map<string, seq<Statement>>
    var simpleFunctions: map<string, string>
    var log: seq<string>
    /** The iteration order of the variable table. */
    const iteration: Iteration

    function State(): Machine
      reads this
    {
      Machine(variables, functions, simpleFunctions, log)
    }

    constructor (iteration: Iteration)
      requires IteratesEveryTable(iteration)
      ensures State() == Machine(map[], map[], map[], [])
      ensures this.iteration == iteration
    {
      this.iteration := iteration;
      variables := map[];
      functions := map[];
      simpleFunctions := map[];
      log := [];
    }

    /** `execute`: runs the statements in order and returns the first failure. */
    method Execute(program: seq<Statement>, fuel: nat) returns (outcome: Outcome)
      modifies this
      ensures Step(State(), outcome) == RunStatements(old(State()), program, iteration, fuel)
      decreases fuel, 2
    {
      for i := 0 to |program|
        invariant RunStatements(old(State()), program[..i], iteration, fuel) == Step(State(), Done)
      {
        assert program[..i + 1][..i] == program[..i];
        outcome := ExecuteStatement(program[i], fuel);
        if outcome != Done {
          RunStatementsAppend(old(State()), program[..i + 1], program[i + 1..], iteration, fuel);
          assert program[..i + 1] + program[i + 1..] == program;
          return;
        }
      }
      assert program[..|program|] == program;
      outcome := Done;
    }

    /** `execute_statement`. */
    method ExecuteStatement(s: Statement, fuel: nat) returns (outcome: Outcome)
      modifies this
      ensures Step(State(), outcome) == RunStatement(old(State()), s, iteration, fuel)
      decreases fuel, 1
    {
      match s
      case Assignment(name, value) =>
        variables := variables[name := value];
        outcome := Done;
      case SimpleFunctionDef(name, template) =>
        simpleFunctions := simpleFunctions[name := template];
        outcome := Done;
      case FunctionCall(name, args) =>
        outcome := CallFunctionWithArgs(name, args, fuel);
      case Command(command) =>
        var substituted := SubstituteArgs(command, []);
        ExecuteCommand(substituted);
        outcome := Done;
    }

    /** `call_function_with_args`. */
    method CallFunctionWithArgs(name: string, args: seq<string>, fuel: nat) returns (outcome: Outcome)
      modifies this
      ensures Step(State(), outcome) == CallWithArgs(old(State()), name, args, iteration, fuel)
      decreases fuel, 0
    {
      if name in simpleFunctions {
        var command := SubstituteArgs(simpleFunctions[name], args);
        ExecuteCommand(command);
        return Done;
      }
      if name in functions {
        if fuel == 0 {
          return DepthExhausted;
        }
        outcome := Execute(functions[name], fuel - 1);
        return;
      }
      return Failed(NotFoundMessage(name));
    }

    /** `call_function_without_parens`. */
    method CallFunctionWithoutParens(name: string, args: seq<string>, fuel: nat) returns (outcome: Outcome)
      modifies this
      ensures Step(State(), outcome) == CallWithoutParens(old(State()), name, args, iteration, fuel)
      decreases fuel, 0
    {
      if name in simpleFunctions {
        var command := SubstituteArgs(simpleFunctions[name], args);
        ExecuteCommand(command);
        return Done;
      }
      if |args| > 0 {
        var nested := name + ":" + args[0];
        if nested in simpleFunctions {
          var command := SubstituteArgs(simpleFunctions[nested], args[1..]);
          ExecuteCommand(command);
          return Done;
        }
      }
      var colons := ReplaceChar(name, '_', ':');
      if colons != name && colons in simpleFunctions {
        var command := SubstituteArgs(simpleFunctions[colons], args);
        ExecuteCommand(command);
        return Done;
      }
      if name in functions {
        if fuel == 0 {
          return DepthExhausted;
        }
        outcome := Execute(functions[name], fuel - 1);
        return;
      }
      return Failed(NotFoundMessage(name));
    }

    /** `substitute_args`: positional placeholders, then `$@`, then variables. */
    method SubstituteArgs(template: string, args: seq<string>) returns (result: string)
      ensures result == Substitute(template, args, iteration(variables))
    {
      result := template;
      for i := 0 to |args|
        invariant result == ReplacePositional(template, args[..i])
      {
        assert args[..i + 1][..i] == args[..i];
        result := ReplaceAll(result, Placeholder(i + 1), args[i]);
      }
      assert args[..|args|] == args;
      if Contains(result, "$@") {
        result := ReplaceAll(result, "$@", Join(args, " "));
      }
      ghost var afterArgs := result;
      var bindings := iteration(variables);
      for j := 0 to |bindings|
        invariant result == ReplaceVariables(afterArgs, bindings[..j])
      {
        assert bindings[..j + 1][..j] == bindings[..j];
        var (name, value) := bindings[j];
        result := ReplaceAll(result, "$" + name, value);
      }
      assert bindings[..|bindings|] == bindings;
    }

    /** `execute_command`: hands the command to the shell; a failing command is not an error. */
    method ExecuteCommand(command: string)
      modifies this`log
      ensures log == old(log) + [command]
    {
      log := log + [command];
    }
  }
}
