/**
 * `substitute_args`: how a command template becomes the command string
 * handed to the shell. Three passes of global replacement, in this order:
 * `$1`, `$2`, ... up to the number of arguments; `$@`; then `$name` for
 * every variable, visited in the variable table's iteration order.
 */
module Substitution {
  import opened Text

  /** The (name, value) pairs of the variable table, in iteration order. */
  type Bindings = seq<(string, string)>

  /**
   * `bindings` visits every entry of `vars` exactly once: what iterating
   * a hash map yields, in an order the model leaves open.
   */
  ghost predicate IsIterationOf(bindings: Bindings, vars: map<string, string>) {
    && (forall i :: 0 <= i < |bindings| ==> bindings[i].0 in vars && vars[bindings[i].0] == bindings[i].1)
    && (forall i, j :: 0 <= i < j < |bindings| ==> bindings[i].0 != bindings[j].0)
    && (forall k :: k in vars ==> exists i :: 0 <= i < |bindings| && bindings[i].0 == k)
  }

  /** The positional placeholder `$k`. */
  function Placeholder(k: nat): string {
    "$" + DecimalString(k)
  }

  /** First pass: `$1` is replaced by `args[0]`, then `$2` by `args[1]`, and so on. */
  function ReplacePositional(s: string, args: seq<string>): string
    decreases |args|
  {
    if args == [] then s
    else ReplaceAll(ReplacePositional(s, args[..|args| - 1]), Placeholder(|args|), args[|args| - 1])
  }

  /** Second pass: `$@` becomes all arguments joined by single spaces. */
  function ReplaceAllArgs(s: string, args: seq<string>): string {
    if Contains(s, "$@") then ReplaceAll(s, "$@", Join(args, " ")) else s
  }

  /** Third pass: `$name` becomes the variable's value, one variable after the other. */
  function ReplaceVariables(s: string, bindings: Bindings): string
    decreases |bindings|
  {
    if bindings == [] then s
    else
      var (name, value) := bindings[|bindings| - 1];
      ReplaceAll(ReplaceVariables(s, bindings[..|bindings| - 1]), "$" + name, value)
  }

  /** The command `substitute_args` builds from `template`. */
  function Substitute(template: string, args: seq<string>, bindings: Bindings): string {
    ReplaceVariables(ReplaceAllArgs(ReplacePositional(template, args), args), bindings)
  }

  predicate NoDollar(s: string) {
    '$' !in s
  }

  // Each pass leaves text without `$` alone.

  lemma {:induction false} PositionalWithoutDollar(s: string, args: seq<string>)
    requires NoDollar(s)
    ensures ReplacePositional(s, args) == s
    decreases |args|
  {
    if args != [] {
      PositionalWithoutDollar(s, args[..|args| - 1]);
      ReplaceAllAbsentHead(s, Placeholder(|args|), args[|args| - 1]);
    }
  }

  lemma AllArgsWithoutDollar(s: string, args: seq<string>)
    requires NoDollar(s)
    ensures ReplaceAllArgs(s, args) == s
  {
    ReplaceAllAbsentHead(s, "$@", Join(args, " "));
  }

  lemma {:induction false} VariablesWithoutDollar(s: string, bindings: Bindings)
    requires NoDollar(s)
    ensures ReplaceVariables(s, bindings) == s
    decreases |bindings|
  {
    if bindings != [] {
      VariablesWithoutDollar(s, bindings[..|bindings| - 1]);
      var (name, value) := bindings[|bindings| - 1];
      ReplaceAllAbsentHead(s, "$" + name, value);
    }
  }

  /** A template without `$` is the command itself, whatever the arguments and variables. */
  lemma SubstituteWithoutDollar(template: string, args: seq<string>, bindings: Bindings)
    requires NoDollar(template)
    ensures Substitute(template, args, bindings) == template
  {
    PositionalWithoutDollar(template, args);
    AllArgsWithoutDollar(template, args);
    VariablesWithoutDollar(template, bindings);
  }

  /**
   * Replacing `$w` in `p + "$" + r`, where only the one `$` can start a
   * match: it is replaced exactly when `w` is a prefix of `r`.
   */
  lemma ReplaceAtDollar(p: string, r: string, w: string, to: string)
    requires NoDollar(p) && NoDollar(r)
    ensures ReplaceAll(p + "$" + r, "$" + w, to) ==
              if IsPrefix(w, r) then p + to + r[|w|..] else p + "$" + r
  {
    var from := "$" + w;
    assert p + "$" + r == p + ("$" + r);
    assert ReplaceAll(p + ("$" + r), from, to) == p + ReplaceAll("$" + r, from, to) by {
      assert from[0] == '$';
      ReplaceAllSkipsPrefix(p, "$" + r, from, to);
    }
    if IsPrefix(w, r) {
      assert ReplaceAll("$" + r, from, to) == to + r[|w|..] by {
        ReplaceAllAtHead('$', r, w, to);
      }
      assert p + (to + r[|w|..]) == p + to + r[|w|..];
    } else {
      assert ReplaceAll("$" + r, from, to) == "$" + r by {
        ReplaceAllAtHead('$', r, w, to);
      }
      assert p + ("$" + r) == p + "$" + r;
    }
  }

  /** The `$@` pass on `p + "$" + r`, whose only `$` is the one shown. */
  lemma AllArgsAtDollar(p: string, r: string, args: seq<string>)
    requires NoDollar(p) && NoDollar(r)
    ensures ReplaceAllArgs(p + "$" + r, args) ==
              if IsPrefix("@", r) then p + Join(args, " ") + r[1..] else p + "$" + r
  {
    var s := p + "$" + r;
    assert "$" + "@" == "$@";
    ReplaceAtDollar(p, r, "@", Join(args, " "));
    if IsPrefix("@", r) {
      assert s[|p|..|p| + 2] == "$@";
      assert MatchesAt(s, "$@", |p|);
    }
  }

  lemma {:induction false} JoinWithoutDollar(parts: seq<string>, sep: string)
    requires NoDollar(sep)
    requires forall i :: 0 <= i < |parts| ==> NoDollar(parts[i])
    ensures NoDollar(Join(parts, sep))
    decreases |parts|
  {
    if |parts| > 1 {
      JoinWithoutDollar(parts[1..], sep);
    }
  }

  /** The positional pass on a single placeholder `$k`, 1 <= k <= 9. */
  lemma {:induction false} PositionalSingle(p: string, k: nat, q: string, args: seq<string>)
    requires NoDollar(p) && NoDollar(q)
    requires 1 <= k <= 9
    requires forall i :: 0 <= i < |args| ==> NoDollar(args[i])
    ensures ReplacePositional(p + Placeholder(k) + q, args) ==
              if k <= |args| then p + args[k - 1] + q else p + Placeholder(k) + q
    decreases |args|
  {
    var s := p + Placeholder(k) + q;
    assert s == p + "$" + (DecimalString(k) + q);
    var r := DecimalString(k) + q;
    assert NoDollar(r) by {
      assert forall i :: 0 <= i < |DecimalString(k)| ==> IsDigit(DecimalString(k)[i]);
    }
    if args != [] {
      var n := |args|;
      var prev := args[..n - 1];
      PositionalSingle(p, k, q, prev);
      if n < k {
        ReplaceAtDollar(p, r, DecimalString(n), args[n - 1]);
        assert DecimalString(n) == [DigitChar(n)] && DecimalString(k) == [DigitChar(k)];
        assert !IsPrefix(DecimalString(n), r);
      } else if n == k {
        ReplaceAtDollar(p, r, DecimalString(n), args[n - 1]);
        assert r[|DecimalString(n)|..] == q;
      } else {
        assert prev[k - 1] == args[k - 1];
        ReplaceAllAbsentHead(p + args[k - 1] + q, Placeholder(n), args[n - 1]);
      }
    }
  }

  /** The variable pass leaves `p + "$" + r` alone when no variable name is a prefix of `r`. */
  lemma {:induction false} VariablesMissDollar(p: string, r: string, bindings: Bindings)
    requires NoDollar(p) && NoDollar(r)
    requires forall i :: 0 <= i < |bindings| ==> !IsPrefix(bindings[i].0, r)
    ensures ReplaceVariables(p + "$" + r, bindings) == p + "$" + r
    decreases |bindings|
  {
    if bindings != [] {
      VariablesMissDollar(p, r, bindings[..|bindings| - 1]);
      var (name, value) := bindings[|bindings| - 1];
      ReplaceAtDollar(p, r, name, value);
    }
  }

  /**
   * A positional placeholder `$k` (1 <= k <= 9) becomes `args[k-1]` when
   * there are at least k arguments, and stays literally in the command
   * when there are fewer (provided no variable name reads it as `$name`).
   */
  lemma SubstitutePlaceholder(p: string, k: nat, q: string, args: seq<string>, bindings: Bindings)
    requires NoDollar(p) && NoDollar(q)
    requires 1 <= k <= 9
    requires forall i :: 0 <= i < |args| ==> NoDollar(args[i])
    requires k > |args| ==> forall i :: 0 <= i < |bindings| ==> !IsPrefix(bindings[i].0, DecimalString(k) + q)
    ensures Substitute(p + Placeholder(k) + q, args, bindings) ==
              if k <= |args| then p + args[k - 1] + q else p + Placeholder(k) + q
  {
    var s0 := p + Placeholder(k) + q;
    PositionalSingle(p, k, q, args);
    var s1 := ReplacePositional(s0, args);
    var s2 := ReplaceAllArgs(s1, args);
    assert Substitute(s0, args, bindings) == ReplaceVariables(s2, bindings);
    if k <= |args| {
      assert s1 == p + args[k - 1] + q;
      AllArgsWithoutDollar(s1, args);
      VariablesWithoutDollar(s1, bindings);
    } else {
      var r := DecimalString(k) + q;
      assert NoDollar(r) by {
        assert forall i :: 0 <= i < |DecimalString(k)| ==> IsDigit(DecimalString(k)[i]);
      }
      assert s1 == p + "$" + r;
      assert !IsPrefix("@", r) by {
        assert r[0] == DecimalString(k)[0] && IsDigit(r[0]);
      }
      AllArgsAtDollar(p, r, args);
      VariablesMissDollar(p, r, bindings);
    }
  }

  /**
   * `$10` is never filled with a tenth argument, nor left as it is: once
   * there is any argument, the `$1` pass rewrites its prefix.
   */
  lemma TenthPlaceholderReadsFirstArgument(args: seq<string>, bindings: Bindings)
    requires 1 <= |args|
    requires forall i :: 0 <= i < |args| ==> NoDollar(args[i])
    ensures Substitute("$10", args, bindings) == args[0] + "0"
  {
    assert "$10" == "" + Placeholder(1) + "0" by {
      SmallPlaceholders();
    }
    SubstitutePlaceholder("", 1, "0", args, bindings);
    assert "" + args[0] + "0" == args[0] + "0";
  }

  lemma DollarAtSplits(p: string, q: string)
    ensures p + "$@" + q == p + "$" + ("@" + q)
  {
    assert "$@" == "$" + "@";
  }

  /** `$@` becomes every argument, in order, separated by single spaces. */
  lemma SubstituteAllArgsPlaceholder(p: string, q: string, args: seq<string>, bindings: Bindings)
    requires NoDollar(p) && NoDollar(q)
    requires forall i :: 0 <= i < |args| ==> NoDollar(args[i])
    ensures Substitute(p + "$@" + q, args, bindings) == p + Join(args, " ") + q
  {
    var r := "@" + q;
    var s := p + "$" + r;
    var joined := Join(args, " ");
    DollarAtSplits(p, q);
    PositionalMissesAllArgs(p, q, args);
    var s1 := ReplacePositional(s, args);
    assert s1 == s;
    AllArgsAtDollar(p, r, args);
    assert r[1..] == q;
    var s2 := ReplaceAllArgs(s1, args);
    assert s2 == p + joined + q;
    JoinWithoutDollar(args, " ");
    VariablesWithoutDollar(s2, bindings);
    assert Substitute(s, args, bindings) == ReplaceVariables(s2, bindings);
  }

  /** The positional pass leaves `p + "$" + r` alone when no `$i` it replaces reads at that `$`. */
  lemma {:induction false} PositionalMissesDollar(p: string, r: string, args: seq<string>)
    requires NoDollar(p) && NoDollar(r)
    requires forall i :: 1 <= i <= |args| ==> !IsPrefix(DecimalString(i), r)
    ensures ReplacePositional(p + "$" + r, args) == p + "$" + r
    decreases |args|
  {
    if args != [] {
      PositionalMissesDollar(p, r, args[..|args| - 1]);
      ReplaceAtDollar(p, r, DecimalString(|args|), args[|args| - 1]);
    }
  }

  lemma PositionalMissesAllArgs(p: string, q: string, args: seq<string>)
    requires NoDollar(p) && NoDollar(q)
    ensures ReplacePositional(p + "$" + ("@" + q), args) == p + "$" + ("@" + q)
  {
    forall i | 1 <= i <= |args| ensures !IsPrefix(DecimalString(i), "@" + q) {
      assert IsDigit(DecimalString(i)[0]);
    }
    PositionalMissesDollar(p, "@" + q, args);
  }

  /** One more binding visited, in the situation of `VariablesSingle`. */
  lemma VariablesStep(p: string, name: string, q: string, v: string, bindings: Bindings, n: nat)
    requires 0 < n <= |bindings|
    requires NoDollar(p) && NoDollar(name + q) && NoDollar(v)
    requires bindings[n - 1].0 == name ==> bindings[n - 1].1 == v
    requires bindings[n - 1].0 == name ==> forall i :: 0 <= i < n - 1 ==> bindings[i].0 != name
    requires bindings[n - 1].0 != name ==> !IsPrefix(bindings[n - 1].0, name + q)
    requires ReplaceVariables(p + "$" + (name + q), bindings[..n - 1]) ==
               if exists i :: 0 <= i < n - 1 && bindings[i].0 == name then p + v + q
               else p + "$" + (name + q)
    ensures ReplaceVariables(p + "$" + (name + q), bindings[..n]) ==
              if exists i :: 0 <= i < n && bindings[i].0 == name then p + v + q
              else p + "$" + (name + q)
  {
    var r := name + q;
    var s := p + "$" + r;
    var prev := ReplaceVariables(s, bindings[..n - 1]);
    var (key, value) := bindings[n - 1];
    assert ReplaceVariables(s, bindings[..n]) == ReplaceAll(prev, "$" + key, value) by {
      assert bindings[..n][..n - 1] == bindings[..n - 1];
    }
    var seenBefore := exists i :: 0 <= i < n - 1 && bindings[i].0 == name;
    var seen := exists i :: 0 <= i < n && bindings[i].0 == name;
    if key == name {
      assert !seenBefore;
      assert seen by {
        assert bindings[n - 1].0 == name;
      }
      assert ReplaceAll(s, "$" + key, value) == p + value + q by {
        ReplaceAtDollar(p, r, key, value);
        assert r[|name|..] == q;
      }
    } else if seenBefore {
      assert seen;
      assert ReplaceAll(p + v + q, "$" + key, value) == p + v + q by {
        ReplaceAllAbsentHead(p + v + q, "$" + key, value);
      }
    } else {
      assert !seen by {
        assert forall i :: 0 <= i < n - 1 ==> bindings[i].0 != name;
      }
      assert ReplaceAll(s, "$" + key, value) == s by {
        ReplaceAtDollar(p, r, key, value);
      }
    }
  }

  /**
   * The variable pass on `p + "$" + name + q`: it becomes the value of
   * `name` when `name` is visited, and no other visit touches it.
   */
  lemma {:induction false} VariablesSingle(p: string, name: string, q: string,
                                           vars: map<string, string>, bindings: Bindings, n: nat)
    requires forall i :: 0 <= i < |bindings| ==> bindings[i].0 in vars && vars[bindings[i].0] == bindings[i].1
    requires forall i, j :: 0 <= i < j < |bindings| ==> bindings[i].0 != bindings[j].0
    requires n <= |bindings|
    requires name in vars
    requires NoDollar(p) && NoDollar(name + q) && NoDollar(vars[name])
    requires forall k :: k in vars && k != name ==> !IsPrefix(k, name + q)
    ensures ReplaceVariables(p + "$" + (name + q), bindings[..n]) ==
              if exists i :: 0 <= i < n && bindings[i].0 == name then p + vars[name] + q
              else p + "$" + (name + q)
    decreases n
  {
    if n > 0 {
      VariablesSingle(p, name, q, vars, bindings, n - 1);
      var key := bindings[n - 1].0;
      assert key in vars && vars[key] == bindings[n - 1].1;
      assert key == name ==> forall i :: 0 <= i < n - 1 ==> bindings[i].0 != name;
      VariablesStep(p, name, q, vars[name], bindings, n);
    }
  }

  /**
   * `$name` becomes the variable's value, whatever order the variable
   * table is visited in, provided no positional placeholder `$i` being
   * replaced, no `$@` and no other variable name also matches at that `$`.
   */
  lemma SubstituteVariable(p: string, name: string, q: string, args: seq<string>,
                           vars: map<string, string>, bindings: Bindings)
    requires IsIterationOf(bindings, vars)
    requires name in vars
    requires NoDollar(p) && NoDollar(name + q) && NoDollar(vars[name])
    requires forall i :: 1 <= i <= |args| ==> !IsPrefix(DecimalString(i), name + q)
    requires !IsPrefix("@", name + q)
    requires forall k :: k in vars && k != name ==> !IsPrefix(k, name + q)
    ensures Substitute(p + "$" + name + q, args, bindings) == p + vars[name] + q
  {
    var r := name + q;
    var s := p + "$" + r;
    assert p + "$" + name + q == s;
    PositionalMissesDollar(p, r, args);
    AllArgsAtDollar(p, r, args);
    VariablesSingle(p, name, q, vars, bindings, |bindings|);
    assert bindings[..|bindings|] == bindings;
    assert exists i :: 0 <= i < |bindings| && bindings[i].0 == name;
  }

  // Templates with several `$`

  /**
   * Text `t` read after a `$` stops short of the word `w`: the `$`, `t`
   * and whatever text follows could still spell `$w`.
   */
  predicate StopsShort(t: string, w: string) {
    |t| < |w| && w[..|t|] == t
  }

  /** A piece that a match of `$w` cannot run out of: no `$`, or one leading `$` whose text does not stop short of `w`. */
  predicate EndsBefore(x: string, w: string) {
    NoDollar(x) || (x != [] && x[0] == '$' && NoDollar(x[1..]) && !StopsShort(x[1..], w))
  }

  /** No word the passes look for after a `$` (`1` to `n`, `@`, a variable name) runs past the end of `t`. */
  predicate Closed(t: string, args: seq<string>, bindings: Bindings) {
    && (forall i :: 1 <= i <= |args| ==> !StopsShort(t, DecimalString(i)))
    && !StopsShort(t, "@")
    && (forall j :: 0 <= j < |bindings| ==> !StopsShort(t, bindings[j].0))
  }

  /** A piece that no match of any pass can run out of. */
  predicate Sealed(x: string, args: seq<string>, bindings: Bindings) {
    NoDollar(x) || (x != [] && x[0] == '$' && NoDollar(x[1..]) && Closed(x[1..], args, bindings))
  }

  /** The text made of the pieces, in order. */
  function Concat(xs: seq<string>): string
    decreases |xs|
  {
    if xs == [] then "" else xs[0] + Concat(xs[1..])
  }

  function ReplacedPieces(xs: seq<string>, from: string, to: string): seq<string> {
    seq(|xs|, k requires 0 <= k < |xs| => ReplaceAll(xs[k], from, to))
  }

  function PositionalPieces(xs: seq<string>, args: seq<string>): seq<string> {
    seq(|xs|, k requires 0 <= k < |xs| => ReplacePositional(xs[k], args))
  }

  function AllArgsPieces(xs: seq<string>, args: seq<string>): seq<string> {
    seq(|xs|, k requires 0 <= k < |xs| => ReplaceAllArgs(xs[k], args))
  }

  function VariablePieces(xs: seq<string>, bindings: Bindings): seq<string> {
    seq(|xs|, k requires 0 <= k < |xs| => ReplaceVariables(xs[k], bindings))
  }

  function SubstitutedPieces(xs: seq<string>, args: seq<string>, bindings: Bindings): seq<string> {
    seq(|xs|, k requires 0 <= k < |xs| => Substitute(xs[k], args, bindings))
  }

  /** No match of `$w` starts in a piece that ends before `w` and runs past it. */
  lemma NoMatchPastPiece(x: string, y: string, w: string)
    requires EndsBefore(x, w)
    ensures forall i :: 0 <= i < |x| < i + |"$" + w| ==> !MatchesAt(x + y, "$" + w, i)
  {
    var pat := "$" + w;
    forall i | 0 <= i < |x| < i + |pat| ensures !MatchesAt(x + y, pat, i) {
      MatchesAtChar(x + y, pat, i, 0);
      if i > 0 || NoDollar(x) {
        assert x[i] != '$' by {
          if i > 0 {
            assert x[i] == x[1..][i - 1];
          }
        }
        assert (x + y)[i] == x[i];
      } else {
        var t := x[1..];
        assert w[..|t|] != t;
        var m :| 0 <= m < |t| && w[m] != t[m];
        assert (x + y)[m + 1] == t[m];
        MatchesAtChar(x + y, pat, 0, m + 1);
      }
    }
  }

  /** One `replace` of `$w` over pieces that each end before `w` works piece by piece. */
  lemma {:induction false} ReplaceOverPieces(xs: seq<string>, w: string, to: string)
    requires forall k :: 0 <= k < |xs| - 1 ==> EndsBefore(xs[k], w)
    ensures ReplaceAll(Concat(xs), "$" + w, to) == Concat(ReplacedPieces(xs, "$" + w, to))
    decreases |xs|
  {
    var from := "$" + w;
    if xs != [] {
      var rest := xs[1..];
      assert ReplacedPieces(xs, from, to)[1..] == ReplacedPieces(rest, from, to);
      if rest == [] {
        var ys := ReplacedPieces(xs, from, to);
        assert Concat(xs) == xs[0] + Concat(rest) == xs[0] + "";
        assert ys[1..] == [];
        assert Concat(ys) == ys[0] + Concat(ys[1..]) == ys[0] + "" == ys[0];
        assert Concat(xs) == xs[0];
        assert ys[0] == ReplaceAll(xs[0], from, to);
      } else {
        NoMatchPastPiece(xs[0], Concat(rest), w);
        ReplaceAllSplit(xs[0], Concat(rest), from, to);
        assert forall k :: 0 <= k < |rest| - 1 ==> rest[k] == xs[k + 1];
        ReplaceOverPieces(rest, w, to);
      }
    }
  }

  /** A sealed piece stays sealed under `replace` of any `$w` by text without `$`. */
  lemma SealedKept(x: string, w: string, to: string, args: seq<string>, bindings: Bindings)
    requires Sealed(x, args, bindings) && NoDollar(to)
    ensures Sealed(ReplaceAll(x, "$" + w, to), args, bindings)
  {
    if NoDollar(x) {
      ReplaceAllAbsentHead(x, "$" + w, to);
    } else {
      var r := x[1..];
      var y := ReplaceAll(x, "$" + w, to);
      assert x == "" + "$" + r;
      if IsPrefix(w, r) {
        assert y == to + r[|w|..] by {
          ReplaceAtDollar("", r, w, to);
          assert "" + to + r[|w|..] == to + r[|w|..];
        }
        assert NoDollar(y) by {
          assert NoDollar(r) && NoDollar(to);
          assert forall k :: 0 <= k < |r| - |w| ==> r[|w|..][k] == r[|w| + k];
        }
      } else {
        assert y == x by {
          ReplaceAtDollar("", r, w, to);
        }
      }
    }
  }

  /** The `$1 .. $n` pass works piece by piece. */
  lemma {:induction false} PositionalOverPieces(xs: seq<string>, args: seq<string>, all: seq<string>, bindings: Bindings)
    requires |args| <= |all|
    requires forall i :: 0 <= i < |args| ==> NoDollar(args[i])
    requires forall k :: 0 <= k < |xs| - 1 ==> Sealed(xs[k], all, bindings)
    ensures ReplacePositional(Concat(xs), args) == Concat(PositionalPieces(xs, args))
    ensures forall k :: 0 <= k < |xs| - 1 ==> Sealed(PositionalPieces(xs, args)[k], all, bindings)
    decreases |args|
  {
    if args == [] {
      assert PositionalPieces(xs, args) == xs;
    } else {
      var n := |args|;
      var init := args[..n - 1];
      var ys := PositionalPieces(xs, init);
      PositionalOverPieces(xs, init, all, bindings);
      assert ReplaceAll(Concat(ys), Placeholder(n), args[n - 1]) ==
             Concat(ReplacedPieces(ys, Placeholder(n), args[n - 1])) by {
        forall k | 0 <= k < |ys| - 1 ensures EndsBefore(ys[k], DecimalString(n)) {
          assert Sealed(ys[k], all, bindings);
        }
        ReplaceOverPieces(ys, DecimalString(n), args[n - 1]);
      }
      assert ReplacedPieces(ys, Placeholder(n), args[n - 1]) == PositionalPieces(xs, args);
      forall k | 0 <= k < |xs| - 1 ensures Sealed(PositionalPieces(xs, args)[k], all, bindings) {
        SealedKept(ys[k], DecimalString(n), args[n - 1], all, bindings);
      }
    }
  }

  /** The `$@` pass is a plain `replace`, which leaves text without `$@` alone. */
  lemma AllArgsIsReplace(s: string, args: seq<string>)
    ensures ReplaceAllArgs(s, args) == ReplaceAll(s, "$" + "@", Join(args, " "))
  {
    assert "$" + "@" == "$@";
    if !Contains(s, "$@") {
      ReplaceAllNoMatch(s, "$@", Join(args, " "));
    }
  }

  /** The `$@` pass works piece by piece. */
  lemma AllArgsOverPieces(xs: seq<string>, args: seq<string>, all: seq<string>, bindings: Bindings)
    requires forall i :: 0 <= i < |args| ==> NoDollar(args[i])
    requires forall k :: 0 <= k < |xs| - 1 ==> Sealed(xs[k], all, bindings)
    ensures ReplaceAllArgs(Concat(xs), args) == Concat(AllArgsPieces(xs, args))
    ensures forall k :: 0 <= k < |xs| - 1 ==> Sealed(AllArgsPieces(xs, args)[k], all, bindings)
  {
    var joined := Join(args, " ");
    JoinWithoutDollar(args, " ");
    AllArgsIsReplace(Concat(xs), args);
    forall k | 0 <= k < |xs| - 1 ensures EndsBefore(xs[k], "@") {
      assert Sealed(xs[k], all, bindings);
    }
    ReplaceOverPieces(xs, "@", joined);
    forall k | 0 <= k < |xs| ensures ReplaceAllArgs(xs[k], args) == ReplaceAll(xs[k], "$" + "@", joined) {
      AllArgsIsReplace(xs[k], args);
    }
    assert ReplacedPieces(xs, "$" + "@", joined) == AllArgsPieces(xs, args);
    forall k | 0 <= k < |xs| - 1 ensures Sealed(AllArgsPieces(xs, args)[k], all, bindings) {
      SealedKept(xs[k], "@", joined, all, bindings);
    }
  }

  /** The variable pass works piece by piece. */
  lemma {:induction false} VariablesOverPieces(xs: seq<string>, bindings: Bindings, args: seq<string>, all: Bindings)
    requires |bindings| <= |all| && bindings == all[..|bindings|]
    requires forall j :: 0 <= j < |bindings| ==> NoDollar(bindings[j].1)
    requires forall k :: 0 <= k < |xs| - 1 ==> Sealed(xs[k], args, all)
    ensures ReplaceVariables(Concat(xs), bindings) == Concat(VariablePieces(xs, bindings))
    ensures forall k :: 0 <= k < |xs| - 1 ==> Sealed(VariablePieces(xs, bindings)[k], args, all)
    decreases |bindings|
  {
    if bindings == [] {
      assert VariablePieces(xs, bindings) == xs;
    } else {
      var n := |bindings|;
      var init := bindings[..n - 1];
      var (name, value) := bindings[n - 1];
      var ys := VariablePieces(xs, init);
      assert init == all[..n - 1];
      VariablesOverPieces(xs, init, args, all);
      forall k | 0 <= k < |ys| - 1 ensures EndsBefore(ys[k], name) {
        assert Sealed(ys[k], args, all);
        assert all[n - 1].0 == name;
      }
      ReplaceOverPieces(ys, name, value);
      assert ReplacedPieces(ys, "$" + name, value) == VariablePieces(xs, bindings);
      forall k | 0 <= k < |xs| - 1 ensures Sealed(VariablePieces(xs, bindings)[k], args, all) {
        SealedKept(ys[k], name, value, args, all);
      }
    }
  }

  /**
   * A template cut into sealed pieces is substituted piece by piece: the
   * command is the pieces' own substitutions, in order.
   */
  lemma SubstituteOverPieces(xs: seq<string>, args: seq<string>, bindings: Bindings)
    requires forall i :: 0 <= i < |args| ==> NoDollar(args[i])
    requires forall j :: 0 <= j < |bindings| ==> NoDollar(bindings[j].1)
    requires forall k :: 0 <= k < |xs| - 1 ==> Sealed(xs[k], args, bindings)
    ensures Substitute(Concat(xs), args, bindings) == Concat(SubstitutedPieces(xs, args, bindings))
  {
    var ys := PositionalPieces(xs, args);
    PositionalOverPieces(xs, args, args, bindings);
    var zs := AllArgsPieces(ys, args);
    AllArgsOverPieces(ys, args, args, bindings);
    assert bindings == bindings[..|bindings|];
    VariablesOverPieces(zs, bindings, args, bindings);
    assert VariablePieces(zs, bindings) == SubstitutedPieces(xs, args, bindings);
  }

  lemma ConcatThree(a: string, b: string, c: string)
    ensures Concat([a, b, c]) == a + b + c
  {
    assert [c][1..] == [];
    assert Concat([c]) == c + Concat([]) == c;
    assert [b, c][1..] == [c];
    assert Concat([b, c]) == b + Concat([c]) == b + c;
    assert [a, b, c][1..] == [b, c];
    assert Concat([a, b, c]) == a + Concat([b, c]) == a + (b + c);
  }

  /** What a placeholder `$k` (1 <= k <= 9) turns into: argument k, or itself when there is none. */
  function Filled(k: nat, args: seq<string>): string {
    if 1 <= k <= |args| then args[k - 1] else Placeholder(k)
  }

  /** The first character of an identifier: a letter or `_`. */
  predicate IsNameStart(c: char) {
    'a' <= c <= 'z' || 'A' <= c <= 'Z' || c == '_'
  }

  /** Every variable name is an identifier: it is not empty and starts with a letter or `_`. */
  predicate NamesAreIdentifiers(bindings: Bindings) {
    forall j :: 0 <= j < |bindings| ==> bindings[j].0 != [] && IsNameStart(bindings[j].0[0])
  }

  /** A `$` that starts no placeholder stays in the command as it is. */
  lemma SubstituteLiteralDollar(p: string, r: string, args: seq<string>, bindings: Bindings)
    requires NoDollar(p) && NoDollar(r)
    requires forall i :: 1 <= i <= |args| ==> !IsPrefix(DecimalString(i), r)
    requires !IsPrefix("@", r)
    requires forall j :: 0 <= j < |bindings| ==> !IsPrefix(bindings[j].0, r)
    ensures Substitute(p + "$" + r, args, bindings) == p + "$" + r
  {
    PositionalMissesDollar(p, r, args);
    AllArgsAtDollar(p, r, args);
    VariablesMissDollar(p, r, bindings);
  }

  /**
   * Text put in by one pass is read again by the later ones: an argument
   * `$2` put in for `$1` is itself replaced by the second argument.
   */
  lemma PositionalRescansArguments(a: string, bindings: Bindings)
    requires NoDollar(a)
    ensures Substitute("$1", ["$2", a], bindings) == a
  {
    SmallPlaceholders();
    assert "$1" == "" + "$" + "1" && "$2" == "" + "$" + "2";
    assert ["$2", a][..1] == ["$2"] && ["$2"][..0] == [];
    assert ReplacePositional("$1", ["$2"]) == "$2" by {
      ReplaceAtDollar("", "1", "1", "$2");
      assert "" + "$2" + "1"[1..] == "$2";
    }
    assert ReplacePositional("$1", ["$2", a]) == a by {
      ReplaceAtDollar("", "2", "2", a);
      assert "" + a + "2"[1..] == a;
    }
    AllArgsWithoutDollar(a, ["$2", a]);
    VariablesWithoutDollar(a, bindings);
  }

  /** A variable reference put in by `$@` is replaced by the variable pass. */
  lemma VariablesRescanAllArgs(name: string, value: string)
    requires NoDollar(name) && NoDollar(value) && name != []
    ensures Substitute("$@", ["$" + name], [(name, value)]) == value
  {
    var args, bindings := ["$" + name], [(name, value)];
    assert "$@" == "" + "$" + "@";
    assert ReplacePositional("$@", args) == "$@" by {
      SmallPlaceholders();
      assert args[..0] == [];
      ReplaceAtDollar("", "@", "1", args[0]);
      assert !IsPrefix("1", "@");
    }
    assert ReplaceAllArgs("$@", args) == "$" + name by {
      AllArgsAtDollar("", "@", args);
      assert Join(args, " ") == "$" + name;
      assert "" + ("$" + name) + "@"[1..] == "$" + name;
    }
    assert ReplaceVariables("$" + name, bindings) == value by {
      assert bindings[..0] == [];
      assert "$" + name == "" + "$" + name;
      ReplaceAtDollar("", name, name, value);
      assert name[|name|..] == [];
      assert "" + value + [] == value;
    }
  }

  /** `$@ r` as a piece of a template: the arguments joined by single spaces, followed by `r`. */
  lemma AllArgsPiece(r: string, args: seq<string>, bindings: Bindings)
    requires NoDollar(r)
    requires forall i :: 0 <= i < |args| ==> NoDollar(args[i])
    ensures Substitute("$@" + r, args, bindings) == Join(args, " ") + r
  {
    var joined := Join(args, " ");
    SubstituteAllArgsPlaceholder("", r, args, bindings);
    EmptyPrefix("$@", r);
    EmptyPrefix(joined, r);
  }

  lemma EmptyPrefix(x: string, y: string)
    ensures "" + x + y == x + y
  {
  }

  /** The piece `$@ r` is sealed. */
  lemma AllArgsPieceSealed(r: string, args: seq<string>, bindings: Bindings)
    requires NoDollar(r)
    requires NamesAreIdentifiers(bindings)
    ensures Sealed("$@" + r, args, bindings)
  {
    var t := "@" + r;
    assert "$@" + r == "$" + t;
    assert ("$" + t)[1..] == t;
    assert NoDollar(t);
    forall i | 1 <= i <= |args| ensures !StopsShort(t, DecimalString(i)) {
      var w := DecimalString(i);
      assert IsDigit(w[0]);
      if |t| < |w| {
        assert w[..|t|][0] == w[0];
      }
    }
    forall j | 0 <= j < |bindings| ensures !StopsShort(t, bindings[j].0) {
      var w := bindings[j].0;
      if |t| < |w| {
        assert w[..|t|][0] == w[0];
      }
    }
  }

  /** The piece `$k r` of a template, with identifiers for names, is filled on its own. */
  lemma PlaceholderPiece(k: nat, r: string, args: seq<string>, bindings: Bindings)
    requires 1 <= k <= 9 && NoDollar(r)
    requires forall i :: 0 <= i < |args| ==> NoDollar(args[i])
    requires NamesAreIdentifiers(bindings)
    ensures Substitute("$" + (DecimalString(k) + r), args, bindings) == Filled(k, args) + r
  {
    var s := "" + Placeholder(k) + r;
    assert "$" + (DecimalString(k) + r) == s by { PlaceholderPieceText(k, r); }
    assert Substitute(s, args, bindings) == (if k <= |args| then "" + args[k - 1] + r else s) by {
      PlaceholderPieceNoName(k, r, bindings);
      SubstitutePlaceholder("", k, r, args, bindings);
    }
    FilledText(k, r, args);
  }

  lemma FilledText(k: nat, r: string, args: seq<string>)
    requires 1 <= k
    ensures Filled(k, args) + r == if k <= |args| then "" + args[k - 1] + r else "" + Placeholder(k) + r
  {
    if k <= |args| {
      assert "" + args[k - 1] == args[k - 1];
    } else {
      assert "" + Placeholder(k) == Placeholder(k);
    }
  }

  lemma PlaceholderPieceText(k: nat, r: string)
    ensures "$" + (DecimalString(k) + r) == "" + Placeholder(k) + r
  {
  }

  lemma PlaceholderPieceNoName(k: nat, r: string, bindings: Bindings)
    requires 1 <= k <= 9
    requires NamesAreIdentifiers(bindings)
    ensures forall j :: 0 <= j < |bindings| ==> !IsPrefix(bindings[j].0, DecimalString(k) + r)
  {
    var t := DecimalString(k) + r;
    forall j | 0 <= j < |bindings| ensures !IsPrefix(bindings[j].0, t) {
      assert t[0] == DecimalString(k)[0];
    }
  }

  /** The piece `$k r` is sealed, unless ten or more arguments could read its digits further. */
  lemma PlaceholderPieceSealed(k: nat, r: string, args: seq<string>, bindings: Bindings)
    requires 1 <= k <= 9 && NoDollar(r)
    requires |args| < 10 || !AllDigits(r)
    requires NamesAreIdentifiers(bindings)
    ensures Sealed("$" + (DecimalString(k) + r), args, bindings)
  {
    var t := DecimalString(k) + r;
    assert ("$" + t)[1..] == t;
    assert NoDollar(t) by {
      assert forall i :: 0 <= i < |DecimalString(k)| ==> IsDigit(t[i]);
    }
    forall i | 1 <= i <= |args| ensures !StopsShort(t, DecimalString(i)) {
      var w := DecimalString(i);
      if |args| >= 10 && |t| < |w| {
        var m :| 0 <= m < |r| && !IsDigit(r[m]);
        assert t[1 + m] == r[m];
        assert w[..|t|][1 + m] == w[1 + m];
      }
    }
    forall j | 0 <= j < |bindings| ensures !StopsShort(t, bindings[j].0) {
      assert t[0] == DecimalString(k)[0];
    }
  }

  /** The piece `$name r` of a template is sealed when `name + r` runs into no longer name. */
  lemma VariablePieceSealed(name: string, r: string, args: seq<string>, vars: map<string, string>, bindings: Bindings)
    requires IsIterationOf(bindings, vars)
    requires name != [] && IsNameStart(name[0]) && NoDollar(name + r)
    requires forall v :: v in vars ==> !StopsShort(name + r, v)
    ensures Sealed("$" + (name + r), args, bindings)
  {
    var t := name + r;
    assert ("$" + t)[1..] == t;
    forall i | 1 <= i <= |args| ensures !StopsShort(t, DecimalString(i)) {
      assert t[0] == name[0];
    }
    forall j | 0 <= j < |bindings| ensures !StopsShort(t, bindings[j].0) {
      assert bindings[j].0 in vars;
    }
  }

  /** The piece `$name r` of a template becomes the variable's value followed by `r`. */
  lemma VariablePiece(name: string, r: string, args: seq<string>, vars: map<string, string>, bindings: Bindings)
    requires IsIterationOf(bindings, vars)
    requires name in vars && name != [] && IsNameStart(name[0])
    requires NoDollar(name + r) && NoDollar(vars[name])
    requires forall v :: v in vars && v != name ==> !IsPrefix(v, name + r)
    ensures Substitute("$" + (name + r), args, bindings) == vars[name] + r
  {
    var t := name + r;
    assert "$" + t == "" + "$" + name + r;
    forall i | 1 <= i <= |args| ensures !IsPrefix(DecimalString(i), t) {
      assert t[0] == name[0];
    }
    assert t[0] == name[0];
    SubstituteVariable("", name, r, args, vars, bindings);
  }

  /** Identifier names with values free of `$`, as a table gives them in any iteration order. */
  lemma IdentifierBindings(vars: map<string, string>, bindings: Bindings)
    requires IsIterationOf(bindings, vars)
    requires forall v :: v in vars ==> v != [] && IsNameStart(v[0]) && NoDollar(vars[v])
    ensures NamesAreIdentifiers(bindings)
    ensures forall j :: 0 <= j < |bindings| ==> NoDollar(bindings[j].1)
  {
    assert forall j :: 0 <= j < |bindings| ==> bindings[j].0 in vars;
  }

  /**
   * A template of three pieces, the first two sealed, is substituted piece by
   * piece.
   */
  lemma SubstituteThreePieces(p: string, a: string, b: string, args: seq<string>, bindings: Bindings)
    requires forall i :: 0 <= i < |args| ==> NoDollar(args[i])
    requires forall j :: 0 <= j < |bindings| ==> NoDollar(bindings[j].1)
    requires Sealed(p, args, bindings) && Sealed(a, args, bindings)
    ensures Substitute(p + a + b, args, bindings) ==
              Substitute(p, args, bindings) + Substitute(a, args, bindings) + Substitute(b, args, bindings)
  {
    var xs := [p, a, b];
    var ys := SubstitutedPieces(xs, args, bindings);
    assert Concat(xs) == p + a + b by {
      ConcatThree(p, a, b);
    }
    SubstituteOverPieces(xs, args, bindings);
    assert Concat(ys) == ys[0] + ys[1] + ys[2] by {
      assert ys == [ys[0], ys[1], ys[2]];
      ConcatThree(ys[0], ys[1], ys[2]);
    }
  }

  /** The text of a template with two `$` regrouped into its three pieces. */
  lemma RegroupPieces(p: string, u: string, r: string, v: string, q: string)
    ensures p + "$" + u + r + "$" + v + q == p + ("$" + (u + r)) + ("$" + (v + q))
    ensures p + "$" + u + r + ("$" + v) + q == p + ("$" + (u + r)) + ("$" + (v + q))
    ensures p + ("$" + u) + r + ("$" + v) + q == p + ("$" + (u + r)) + ("$" + (v + q))
  {
  }

  lemma RegroupResult(p: string, s: string, r: string, t: string, q: string)
    ensures p + (s + r) + (t + q) == p + s + r + t + q
  {
  }

  /**
   * Two placeholders `$j` and `$k` (1 to 9) are each filled with their
   * argument, or kept when it is missing.
   */
  lemma SubstituteTwoPlaceholders(p: string, j: nat, r: string, k: nat, q: string,
                                  args: seq<string>, bindings: Bindings)
    requires NoDollar(p) && NoDollar(r) && NoDollar(q)
    requires 1 <= j <= 9 && 1 <= k <= 9
    requires forall i :: 0 <= i < |args| ==> NoDollar(args[i])
    requires NamesAreIdentifiers(bindings)
    requires forall i :: 0 <= i < |bindings| ==> NoDollar(bindings[i].1)
    requires |args| < 10 || !AllDigits(r)
    ensures Substitute(p + Placeholder(j) + r + Placeholder(k) + q, args, bindings) ==
              p + Filled(j, args) + r + Filled(k, args) + q
  {
    var a, b := "$" + (DecimalString(j) + r), "$" + (DecimalString(k) + q);
    assert p + Placeholder(j) + r + Placeholder(k) + q == p + a + b by {
      RegroupPieces(p, DecimalString(j), r, DecimalString(k), q);
    }
    PlaceholderPieceSealed(j, r, args, bindings);
    SubstituteThreePieces(p, a, b, args, bindings);
    SubstituteWithoutDollar(p, args, bindings);
    PlaceholderPiece(j, r, args, bindings);
    PlaceholderPiece(k, q, args, bindings);
    RegroupResult(p, Filled(j, args), r, Filled(k, args), q);
  }

  /** A variable and a placeholder in one template are both filled. */
  lemma SubstituteVariableAndPlaceholder(p: string, name: string, r: string, k: nat, q: string,
                                         args: seq<string>, vars: map<string, string>, bindings: Bindings)
    requires IsIterationOf(bindings, vars)
    requires forall v :: v in vars ==> v != [] && IsNameStart(v[0]) && NoDollar(vars[v])
    requires name in vars
    requires NoDollar(p) && NoDollar(name + r) && NoDollar(q)
    requires forall v :: v in vars && v != name ==> !IsPrefix(v, name + r)
    requires forall v :: v in vars ==> !StopsShort(name + r, v)
    requires 1 <= k <= 9
    requires forall i :: 0 <= i < |args| ==> NoDollar(args[i])
    ensures Substitute(p + "$" + name + r + Placeholder(k) + q, args, bindings) ==
              p + vars[name] + r + Filled(k, args) + q
  {
    var a, b := "$" + (name + r), "$" + (DecimalString(k) + q);
    assert p + "$" + name + r + Placeholder(k) + q == p + a + b by {
      RegroupPieces(p, name, r, DecimalString(k), q);
    }
    assert Substitute(p + a + b, args, bindings) ==
           Substitute(p, args, bindings) + Substitute(a, args, bindings) + Substitute(b, args, bindings) by {
      IdentifierBindings(vars, bindings);
      VariablePieceSealed(name, r, args, vars, bindings);
      SubstituteThreePieces(p, a, b, args, bindings);
    }
    assert Substitute(p, args, bindings) == p by {
      SubstituteWithoutDollar(p, args, bindings);
    }
    assert Substitute(a, args, bindings) == vars[name] + r by {
      VariablePiece(name, r, args, vars, bindings);
    }
    assert Substitute(b, args, bindings) == Filled(k, args) + q by {
      IdentifierBindings(vars, bindings);
      PlaceholderPiece(k, q, args, bindings);
    }
    RegroupResult(p, vars[name], r, Filled(k, args), q);
  }

  /** Two variables in one template are both replaced by their values. */
  lemma SubstituteTwoVariables(p: string, a: string, r: string, b: string, q: string,
                               args: seq<string>, vars: map<string, string>, bindings: Bindings)
    requires IsIterationOf(bindings, vars)
    requires forall v :: v in vars ==> v != [] && IsNameStart(v[0]) && NoDollar(vars[v])
    requires a in vars && b in vars
    requires NoDollar(p) && NoDollar(a + r) && NoDollar(b + q)
    requires forall v :: v in vars && v != a ==> !IsPrefix(v, a + r)
    requires forall v :: v in vars ==> !StopsShort(a + r, v)
    requires forall v :: v in vars && v != b ==> !IsPrefix(v, b + q)
    requires forall i :: 0 <= i < |args| ==> NoDollar(args[i])
    ensures Substitute(p + "$" + a + r + "$" + b + q, args, bindings) == p + vars[a] + r + vars[b] + q
  {
    var x, y := "$" + (a + r), "$" + (b + q);
    assert p + "$" + a + r + "$" + b + q == p + x + y by {
      RegroupPieces(p, a, r, b, q);
    }
    assert Substitute(p + x + y, args, bindings) ==
           Substitute(p, args, bindings) + Substitute(x, args, bindings) + Substitute(y, args, bindings) by {
      IdentifierBindings(vars, bindings);
      VariablePieceSealed(a, r, args, vars, bindings);
      SubstituteThreePieces(p, x, y, args, bindings);
    }
    assert Substitute(p, args, bindings) == p by {
      SubstituteWithoutDollar(p, args, bindings);
    }
    assert Substitute(x, args, bindings) == vars[a] + r by {
      VariablePiece(a, r, args, vars, bindings);
    }
    assert Substitute(y, args, bindings) == vars[b] + q by {
      VariablePiece(b, q, args, vars, bindings);
    }
    RegroupResult(p, vars[a], r, vars[b], q);
  }

  /** A `$` followed by a character that starts no word (`(`, a space, a quote) is a sealed piece that stays as it is. */
  lemma LiteralDollarPiece(r: string, args: seq<string>, bindings: Bindings)
    requires NoDollar(r) && r != [] && !IsDigit(r[0]) && r[0] != '@' && !IsNameStart(r[0])
    requires NamesAreIdentifiers(bindings)
    ensures Sealed("$" + r, args, bindings)
    ensures Substitute("$" + r, args, bindings) == "$" + r
  {
    assert ("$" + r)[1..] == r;
    forall i | 1 <= i <= |args| ensures !IsPrefix(DecimalString(i), r) && !StopsShort(r, DecimalString(i)) {
      var w := DecimalString(i);
      assert IsDigit(w[0]);
      if |w| <= |r| {
        assert r[..|w|][0] == r[0];
      } else {
        assert w[..|r|][0] == w[0];
      }
    }
    forall j | 0 <= j < |bindings| ensures !IsPrefix(bindings[j].0, r) && !StopsShort(r, bindings[j].0) {
      var w := bindings[j].0;
      if |w| <= |r| {
        assert r[..|w|][0] == r[0];
      } else {
        assert w[..|r|][0] == w[0];
      }
    }
    assert "$" + r == "" + "$" + r;
    SubstituteLiteralDollar("", r, args, bindings);
  }

  /** A sealed piece and whatever follows it are substituted separately. */
  lemma SubstituteTwoPieces(a: string, b: string, args: seq<string>, bindings: Bindings)
    requires forall i :: 0 <= i < |args| ==> NoDollar(args[i])
    requires forall j :: 0 <= j < |bindings| ==> NoDollar(bindings[j].1)
    requires Sealed(a, args, bindings)
    ensures Substitute(a + b, args, bindings) == Substitute(a, args, bindings) + Substitute(b, args, bindings)
  {
    var x, y := Substitute(a, args, bindings), Substitute(b, args, bindings);
    assert Substitute(a + b, args, bindings) == Substitute("", args, bindings) + x + y by {
      EmptyPrefix(a, b);
      SubstituteThreePieces("", a, b, args, bindings);
    }
    assert Substitute("", args, bindings) == "" by {
      SubstituteWithoutDollar("", args, bindings);
    }
    EmptyPrefix(x, y);
  }

  lemma SmallPlaceholders()
    ensures Placeholder(1) == "$1" && Placeholder(2) == "$2"
  {
    assert DecimalString(1) == "1" && DecimalString(2) == "2";
  }

  // The pieces of the templates of the examples below, and what they become.

  lemma HelloTemplate()
    ensures "echo \"Hello, $1 and $2!\"" == "echo \"Hello, " + Placeholder(1) + " and " + Placeholder(2) + "!\""
  {
    SmallPlaceholders();
  }

  lemma HelloTexts()
    ensures "echo \"Hello, " + "Alice" + " and " + "Bob" + "!\"" == "echo \"Hello, Alice and Bob!\""
    ensures NoDollar("echo \"Hello, ") && NoDollar(" and ") && NoDollar("!\"") && NoDollar("Alice") && NoDollar("Bob")
  {
  }

  lemma MixedTemplate()
    ensures "echo \"First: $1, Second: $2\"" == "echo \"First: " + Placeholder(1) + ", Second: " + Placeholder(2) + "\""
  {
    SmallPlaceholders();
  }

  lemma MixedTexts()
    ensures "echo \"First: " + "bare" + ", Second: " + "quoted" + "\"" == "echo \"First: bare, Second: quoted\""
    ensures NoDollar("echo \"First: ") && NoDollar(", Second: ") && NoDollar("\"") && NoDollar("bare") && NoDollar("quoted")
  {
    assert NoDollar("echo \"First: ") && NoDollar(", Second: ") && NoDollar("\"") by {}
    assert NoDollar("bare") && NoDollar("quoted") by {}
    assert "echo \"First: " + "bare" + ", Second: " + "quoted" + "\"" == "echo \"First: bare, Second: quoted\"" by {}
  }

  lemma AppTemplate()
    ensures "echo \"App: $app_name, Env: $1\"" == "echo \"App: " + "$" + "app_name" + ", Env: " + Placeholder(1) + "\""
  {
    SmallPlaceholders();
  }

  lemma AppTexts()
    ensures "echo \"App: " + "myapp" + ", Env: " + "production" + "\"" == "echo \"App: myapp, Env: production\""
    ensures NoDollar("echo \"App: ") && NoDollar("app_name" + ", Env: ") && NoDollar("\"")
    ensures NoDollar("myapp") && NoDollar("production")
    ensures !StopsShort("app_name" + ", Env: ", "app_name")
  {
    assert NoDollar("echo \"App: ") && NoDollar("app_name" + ", Env: ") && NoDollar("\"") by {}
    assert NoDollar("myapp") && NoDollar("production") by {}
    assert "echo \"App: " + "myapp" + ", Env: " + "production" + "\"" == "echo \"App: myapp, Env: production\"" by {}
  }

  lemma TwoVariablesTexts()
    ensures "echo \"$first and $second\"" == "echo \"" + "$" + "first" + " and " + "$" + "second" + "\""
    ensures "echo \"" + "Alice" + " and " + "Bob" + "\"" == "echo \"Alice and Bob\""
    ensures NoDollar("echo \"") && NoDollar("first" + " and ") && NoDollar("second" + "\"")
    ensures NoDollar("Alice") && NoDollar("Bob")
    ensures !IsPrefix("second", "first" + " and ") && !IsPrefix("first", "second" + "\"")
    ensures !StopsShort("first" + " and ", "first") && !StopsShort("first" + " and ", "second")
  {
    assert ("first" + " and ")[0] != "second"[0] && ("second" + "\"")[0] != "first"[0];
  }

  /** `greet("Alice", "Bob")` with `echo "Hello, $1 and $2!"`, whatever the variables. */
  lemma HelloTwoNamesExample(bindings: Bindings)
    requires NamesAreIdentifiers(bindings)
    requires forall j :: 0 <= j < |bindings| ==> NoDollar(bindings[j].1)
    ensures Substitute("echo \"Hello, $1 and $2!\"", ["Alice", "Bob"], bindings) == "echo \"Hello, Alice and Bob!\""
  {
    HelloTemplate();
    HelloTexts();
    SubstituteTwoPlaceholders("echo \"Hello, ", 1, " and ", 2, "!\"", ["Alice", "Bob"], bindings);
  }

  /** `show(bare, "quoted")` with `echo "First: $1, Second: $2"`, whatever the variables. */
  lemma MixedArgumentsExample(bindings: Bindings)
    requires NamesAreIdentifiers(bindings)
    requires forall j :: 0 <= j < |bindings| ==> NoDollar(bindings[j].1)
    ensures Substitute("echo \"First: $1, Second: $2\"", ["bare", "quoted"], bindings) ==
              "echo \"First: bare, Second: quoted\""
  {
    MixedTemplate();
    MixedTexts();
    SubstituteTwoPlaceholders("echo \"First: ", 1, ", Second: ", 2, "\"", ["bare", "quoted"], bindings);
  }

  /** `show(production)` with `echo "App: $app_name, Env: $1"` and `app_name=myapp`. */
  lemma VariableInTemplateExample(bindings: Bindings)
    requires IsIterationOf(bindings, map["app_name" := "myapp"])
    ensures Substitute("echo \"App: $app_name, Env: $1\"", ["production"], bindings) ==
              "echo \"App: myapp, Env: production\""
  {
    var vars := map["app_name" := "myapp"];
    AppTemplate();
    AppTexts();
    assert forall v :: v in vars ==> v == "app_name";
    SubstituteVariableAndPlaceholder("echo \"App: ", "app_name", ", Env: ", 1, "\"", ["production"], vars, bindings);
  }

  /** `echo "$first and $second"` with `first=Alice` and `second=Bob`, run without arguments. */
  lemma TwoVariablesExample(bindings: Bindings)
    requires IsIterationOf(bindings, map["first" := "Alice", "second" := "Bob"])
    ensures Substitute("echo \"$first and $second\"", [], bindings) == "echo \"Alice and Bob\""
  {
    var vars := map["first" := "Alice", "second" := "Bob"];
    TwoVariablesTexts();
    assert forall v :: v in vars ==> v == "first" || v == "second";
    SubstituteTwoVariables("echo \"", "first", " and ", "second", "\"", [], vars, bindings);
  }
  lemma ArithmeticTemplate()
    ensures "echo \"$1 + $2 = $(($1 + $2))\"" ==
            "echo \"" + (("$" + (DecimalString(1) + " + ")) + (("$" + (DecimalString(2) + " = ")) +
            (("$" + "((") + (("$" + (DecimalString(1) + " + ")) + ("$" + (DecimalString(2) + "))\""))))))
  {
    assert DecimalString(1) == "1" && DecimalString(2) == "2";
  }

  lemma ArithmeticTexts()
    ensures NoDollar("echo \"") && NoDollar(" + ") && NoDollar(" = ") && NoDollar("))\"") && NoDollar("((")
    ensures !AllDigits(" + ")
  {
    assert NoDollar("echo \"") && NoDollar(" + ") && NoDollar(" = ") && NoDollar("))\"") && NoDollar("((") by {}
    assert !IsDigit(" + "[0]);
  }

  /** A template of six pieces, all but the last sealed, is substituted piece by piece. */
  lemma SubstituteSixPieces(x1: string, x2: string, x3: string, x4: string, x5: string, x6: string,
                            args: seq<string>, bindings: Bindings)
    requires forall i :: 0 <= i < |args| ==> NoDollar(args[i])
    requires forall j :: 0 <= j < |bindings| ==> NoDollar(bindings[j].1)
    requires Sealed(x1, args, bindings) && Sealed(x2, args, bindings) && Sealed(x3, args, bindings)
    requires Sealed(x4, args, bindings) && Sealed(x5, args, bindings)
    ensures Substitute(x1 + (x2 + (x3 + (x4 + (x5 + x6)))), args, bindings) ==
              Substitute(x1, args, bindings) + (Substitute(x2, args, bindings) + (Substitute(x3, args, bindings) +
              (Substitute(x4, args, bindings) + (Substitute(x5, args, bindings) + Substitute(x6, args, bindings)))))
  {
    SubstituteTwoPieces(x5, x6, args, bindings);
    SubstituteTwoPieces(x4, x5 + x6, args, bindings);
    SubstituteTwoPieces(x3, x4 + (x5 + x6), args, bindings);
    SubstituteTwoPieces(x2, x3 + (x4 + (x5 + x6)), args, bindings);
    SubstituteTwoPieces(x1, x2 + (x3 + (x4 + (x5 + x6))), args, bindings);
  }

  /** The pieces of `echo "$1 + $2 = $(($1 + $2))"` with two arguments. */
  lemma ArithmeticPieces(a: string, b: string, bindings: Bindings)
    requires NoDollar(a) && NoDollar(b)
    requires NamesAreIdentifiers(bindings)
    ensures Substitute("$" + (DecimalString(1) + " + "), [a, b], bindings) == a + " + "
    ensures Sealed("$" + (DecimalString(1) + " + "), [a, b], bindings)
    ensures Substitute("$" + (DecimalString(2) + " = "), [a, b], bindings) == b + " = "
    ensures Sealed("$" + (DecimalString(2) + " = "), [a, b], bindings)
    ensures Substitute("$" + "((", [a, b], bindings) == "$((" && Sealed("$" + "((", [a, b], bindings)
    ensures Substitute("$" + (DecimalString(2) + "))\""), [a, b], bindings) == b + "))\""
    ensures Substitute("echo \"", [a, b], bindings) == "echo \"" && Sealed("echo \"", [a, b], bindings)
  {
    var args := [a, b];
    ArithmeticTexts();
    assert args[0] == a && args[1] == b;
    PlaceholderPiece(1, " + ", args, bindings);
    PlaceholderPieceSealed(1, " + ", args, bindings);
    PlaceholderPiece(2, " = ", args, bindings);
    PlaceholderPieceSealed(2, " = ", args, bindings);
    LiteralDollarPiece("((", args, bindings);
    PlaceholderPiece(2, "))\"", args, bindings);
    SubstituteWithoutDollar("echo \"", args, bindings);
  }

  /**
   * `add a b` with `echo "$1 + $2 = $(($1 + $2))"` (`add 5 3` in the
   * tests): both placeholders are filled twice and the shell's own `$((`
   * is left alone.
   */
  lemma ArithmeticExample(a: string, b: string, bindings: Bindings)
    requires NoDollar(a) && NoDollar(b)
    requires NamesAreIdentifiers(bindings)
    requires forall j :: 0 <= j < |bindings| ==> NoDollar(bindings[j].1)
    ensures Substitute("echo \"$1 + $2 = $(($1 + $2))\"", [a, b], bindings) ==
              "echo \"" + (a + " + " + (b + " = " + ("$((" + (a + " + " + (b + "))\"")))))
  {
    var x2, x3, x4, x6 := "$" + (DecimalString(1) + " + "), "$" + (DecimalString(2) + " = "), "$" + "((",
                          "$" + (DecimalString(2) + "))\"");
    ArithmeticTemplate();
    ArithmeticPieces(a, b, bindings);
    assert forall i :: 0 <= i < |[a, b]| ==> NoDollar([a, b][i]);
    SubstituteSixPieces("echo \"", x2, x3, x4, x2, x6, [a, b], bindings);
  }
}
