/**
 * The parts of Rust's `str` API that the interpreter, the parser and the
 * command-line helpers rely on, stated over `seq<char>`: searching,
 * global replacement, trimming, line splitting and decimal numbers.
 */
module Text {
  import opened Wrappers

  /** Rust's `char::is_whitespace`: the Unicode White_Space property. */
  predicate IsWhitespace(c: char) {
    || ('\t' <= c <= '\r')
    || c == ' '
    || c == '\U{85}'
    || c == '\U{A0}'
    || c == '\U{1680}'
    || ('\U{2000}' <= c <= '\U{200A}')
    || c == '\U{2028}'
    || c == '\U{2029}'
    || c == '\U{202F}'
    || c == '\U{205F}'
    || c == '\U{3000}'
  }

  /** The text does not end with whitespace. */
  predicate NoTrailingSpace(s: string) {
    s == [] || !IsWhitespace(s[|s| - 1])
  }

  predicate IsDigit(c: char) {
    '0' <= c <= '9'
  }

  predicate AllDigits(s: string) {
    forall i :: 0 <= i < |s| ==> IsDigit(s[i])
  }

  predicate IsPrefix(p: string, s: string) {
    |p| <= |s| && s[..|p|] == p
  }

  predicate IsSuffix(p: string, s: string) {
    |p| <= |s| && s[|s| - |p|..] == p
  }

  /** `pat` occurs in `s` starting at index `i`. */
  predicate MatchesAt(s: string, pat: string, i: int) {
    0 <= i && i + |pat| <= |s| && s[i..i + |pat|] == pat
  }

  /** Rust's `str::contains` with a string pattern. */
  predicate Contains(s: string, pat: string) {
    exists i :: 0 <= i <= |s| && MatchesAt(s, pat, i)
  }

  /** Rust's `str::find`: the index of the first occurrence of `pat`. */
  function Find(s: string, pat: string): (r: Option<nat>)
    ensures r.Some? ==> MatchesAt(s, pat, r.value)
    ensures r.Some? ==> forall j :: 0 <= j < r.value ==> !MatchesAt(s, pat, j)
    ensures r.None? <==> !Contains(s, pat)
    decreases |s|
  {
    if IsPrefix(pat, s) then
      assert MatchesAt(s, pat, 0);
      Some(0)
    else if |s| == 0 then
      None
    else
      var rest := Find(s[1..], pat);
      assert forall j :: 1 <= j ==> (MatchesAt(s, pat, j) == MatchesAt(s[1..], pat, j - 1)) by {
        forall j | 1 <= j ensures MatchesAt(s, pat, j) == MatchesAt(s[1..], pat, j - 1) {
          MatchesAtTail(s, pat, j);
        }
      }
      if rest.None? then None else Some(rest.value + 1)
  }

  /** A match past the first character is a match in the tail. */
  lemma MatchesAtTail(s: string, pat: string, j: int)
    requires s != [] && 1 <= j
    ensures MatchesAt(s, pat, j) == MatchesAt(s[1..], pat, j - 1)
  {
    if j + |pat| <= |s| {
      var a := s[j..j + |pat|];
      var b := s[1..][j - 1..j - 1 + |pat|];
      forall k | 0 <= k < |pat| ensures a[k] == b[k] {
        assert a[k] == s[j + k];
        assert b[k] == s[1..][j - 1 + k];
      }
      assert a == b;
    }
  }

  /** A match fixes each character it covers. */
  lemma MatchesAtChar(s: string, pat: string, i: int, k: nat)
    requires k < |pat|
    ensures MatchesAt(s, pat, i) ==> s[i + k] == pat[k]
  {
    if 0 <= i && i + |pat| <= |s| {
      assert s[i..i + |pat|][k] == s[i + k];
    }
  }

  /** Before the first match of a one-character pattern, that character does not occur. */
  lemma NoCharBeforeMatch(s: string, c: char, n: nat)
    requires n <= |s|
    requires forall j :: 0 <= j < n ==> !MatchesAt(s, [c], j)
    ensures c !in s[..n]
  {
    forall k | 0 <= k < n ensures s[..n][k] != c {
      assert !MatchesAt(s, [c], k);
      assert s[k..k + 1] == [s[k]];
    }
  }

  /** Before the first match, a prefix holds no match at all. */
  lemma NoMatchInPrefix(s: string, pat: string, n: nat)
    requires pat != [] && n <= |s|
    requires forall j :: 0 <= j < n ==> !MatchesAt(s, pat, j)
    ensures !Contains(s[..n], pat)
  {
    forall j | 0 <= j <= n ensures !MatchesAt(s[..n], pat, j) {
      if j + |pat| <= n {
        assert !MatchesAt(s, pat, j);
        assert s[..n][j..j + |pat|] == s[j..j + |pat|];
      }
    }
  }

  /** What occurs in a suffix occurs in the whole text. */
  lemma ContainsInSuffix(t: string, s: string, pat: string)
    requires IsSuffix(t, s)
    ensures Contains(t, pat) ==> Contains(s, pat)
  {
    if Contains(t, pat) {
      var i :| 0 <= i <= |t| && MatchesAt(t, pat, i);
      var d := |s| - |t|;
      assert s[d + i..d + i + |pat|] == t[i..i + |pat|];
      assert MatchesAt(s, pat, d + i);
    }
  }

  /** `pat` occurs in `s` exactly when `s` splits around a copy of it. */
  lemma ContainsIffSplit(s: string, pat: string)
    ensures Contains(s, pat) <==> exists p, q :: s == p + pat + q
  {
    if Contains(s, pat) {
      var i :| 0 <= i <= |s| && MatchesAt(s, pat, i);
      var p, q := s[..i], s[i + |pat|..];
      assert s == p + s[i..i + |pat|] + q;
    }
    if exists p, q :: s == p + pat + q {
      var p, q :| s == p + pat + q;
      assert s[|p|..|p| + |pat|] == pat;
      assert MatchesAt(s, pat, |p|);
    }
  }

  /** The first match found is the one with no match before it. */
  lemma FindFirstMatch(s: string, pat: string, i: nat)
    requires MatchesAt(s, pat, i)
    requires forall j :: 0 <= j < i ==> !MatchesAt(s, pat, j)
    ensures Find(s, pat) == Some(i)
  {
    assert Contains(s, pat);
  }

  /**
   * Rust's `str::replace(from, to)`: every non-overlapping occurrence of
   * `from`, scanning left to right, is replaced by `to`. An empty `from`
   * matches before every character and at the end.
   */
  function ReplaceAll(s: string, from: string, to: string): string
    decreases |s|
  {
    if from == [] then
      if s == [] then to else to + [s[0]] + ReplaceAll(s[1..], from, to)
    else if IsPrefix(from, s) then
      to + ReplaceAll(s[|from|..], from, to)
    else if s == [] then
      s
    else
      [s[0]] + ReplaceAll(s[1..], from, to)
  }

  /** Rust's `str::replace` with a one-character pattern and replacement. */
  function ReplaceChar(s: string, from: char, to: char): (r: string)
    ensures |r| == |s|
    ensures forall i :: 0 <= i < |s| ==> r[i] == if s[i] == from then to else s[i]
  {
    if s == [] then [] else [if s[0] == from then to else s[0]] + ReplaceChar(s[1..], from, to)
  }

  /** Rust's `[String]::join(sep)`. */
  function Join(parts: seq<string>, sep: string): string
    decreases |parts|
  {
    if parts == [] then ""
    else if |parts| == 1 then parts[0]
    else parts[0] + sep + Join(parts[1..], sep)
  }

  lemma {:induction false} JoinAppend(parts: seq<string>, x: string, sep: string)
    requires parts != []
    ensures Join(parts + [x], sep) == Join(parts, sep) + sep + x
    decreases |parts|
  {
    if |parts| == 1 {
      assert (parts + [x])[1..] == [x];
    } else {
      assert (parts + [x])[1..] == parts[1..] + [x];
      JoinAppend(parts[1..], x, sep);
    }
  }

  /** Rust's `str::trim_end`. */
  function TrimEnd(s: string): (r: string)
    ensures IsPrefix(r, s)
    ensures r == [] || !IsWhitespace(r[|r| - 1])
    decreases |s|
  {
    if s != [] && IsWhitespace(s[|s| - 1]) then TrimEnd(s[..|s| - 1]) else s
  }

  /** `TrimEnd` removes only whitespace. */
  lemma {:induction false} TrimEndRemovesWhitespace(s: string)
    ensures forall i :: |TrimEnd(s)| <= i < |s| ==> IsWhitespace(s[i])
    decreases |s|
  {
    if s != [] && IsWhitespace(s[|s| - 1]) {
      TrimEndRemovesWhitespace(s[..|s| - 1]);
    }
  }

  /** Rust's `str::trim_start`. */
  function TrimStart(s: string): (r: string)
    ensures IsSuffix(r, s)
    ensures r == [] || !IsWhitespace(r[0])
    decreases |s|
  {
    if s != [] && IsWhitespace(s[0]) then
      var r := TrimStart(s[1..]);
      assert s[|s| - |r|..] == s[1..][|s| - 1 - |r|..];
      r
    else s
  }

  /** `TrimStart` removes only whitespace. */
  lemma {:induction false} TrimStartRemovesWhitespace(s: string)
    ensures forall i :: 0 <= i < |s| - |TrimStart(s)| ==> IsWhitespace(s[i])
    decreases |s|
  {
    if s != [] && IsWhitespace(s[0]) {
      TrimStartRemovesWhitespace(s[1..]);
      assert forall i :: 1 <= i < |s| - |TrimStart(s)| ==> s[i] == s[1..][i - 1];
    }
  }

  /** Rust's `str::trim`. */
  function Trim(s: string): (r: string)
    ensures r == [] || (!IsWhitespace(r[0]) && !IsWhitespace(r[|r| - 1]))
  {
    var e := TrimEnd(s);
    var r := TrimStart(e);
    if r == [] then r
    else
      assert r == e[|e| - |r|..];
      assert r[|r| - 1] == e[|e| - 1];
      r
  }

  /** Rust's `str::trim_start_matches(c)` for a single character `c`. */
  function TrimStartChar(s: string, c: char): (r: string)
    ensures IsSuffix(r, s)
    ensures r == [] || r[0] != c
    ensures forall k :: 0 <= k < |s| - |r| ==> s[k] == c
    decreases |s|
  {
    if s != [] && s[0] == c then TrimStartChar(s[1..], c) else s
  }

  /** Rust's `str::trim_end_matches(c)` for a single character `c`. */
  function TrimEndChar(s: string, c: char): (r: string)
    ensures IsPrefix(r, s)
    ensures r == [] || r[|r| - 1] != c
    ensures forall k :: |r| <= k < |s| ==> s[k] == c
    decreases |s|
  {
    if s != [] && s[|s| - 1] == c then TrimEndChar(s[..|s| - 1], c) else s
  }

  /** Rust's `str::trim_matches(c)` for a single character `c`. */
  function TrimMatches(s: string, c: char): (r: string)
    ensures r == [] || (r[0] != c && r[|r| - 1] != c)
  {
    TrimEndChar(TrimStartChar(s, c), c)
  }

  lemma TrimStartCharCons(c: char, t: string)
    ensures TrimStartChar([c] + t, c) == TrimStartChar(t, c)
  {
    assert ([c] + t)[1..] == t;
  }

  lemma TrimEndCharSnoc(t: string, c: char)
    ensures TrimEndChar(t + [c], c) == TrimEndChar(t, c)
  {
    assert (t + [c])[..|t|] == t;
  }

  /** Trimming the quotes off a quoted string gives back what was quoted. */
  lemma TrimMatchesOfQuoted(s: string)
    requires s == [] || (s[0] != '"' && s[|s| - 1] != '"')
    ensures TrimMatches(['"'] + s + ['"'], '"') == s
  {
    var tail := s + ['"'];
    assert ['"'] + s + ['"'] == ['"'] + tail;
    TrimStartCharCons('"', tail);
    if s == [] {
      TrimStartCharCons('"', []);
      assert tail == ['"'] + [];
    } else {
      assert tail[0] == s[0];
      assert TrimStartChar(tail, '"') == tail;
      TrimEndCharSnoc(s, '"');
    }
  }

  /** Index of the first `c` in `s`, or `|s|` when there is none. */
  function IndexOf(s: string, c: char): (i: nat)
    ensures i <= |s|
    ensures i < |s| ==> s[i] == c
    ensures forall k :: 0 <= k < i ==> s[k] != c
  {
    if s == [] then 0 else if s[0] == c then 0 else 1 + IndexOf(s[1..], c)
  }

  /** A line terminated by `\n` also loses a `\r` just before it. */
  function StripCarriageReturn(line: string): string {
    if line != [] && line[|line| - 1] == '\r' then line[..|line| - 1] else line
  }

  /**
   * Rust's `str::lines`: split after every `\n`, drop the `\n` and a `\r`
   * before it; a final line without `\n` is kept as it is, and a final `\n`
   * does not start an empty line.
   */
  function Lines(s: string): (ls: seq<string>)
    ensures forall k :: 0 <= k < |ls| ==> '\n' !in ls[k]
    ensures |ls| <= |s|
    decreases |s|
  {
    if s == [] then []
    else
      var i := IndexOf(s, '\n');
      if i == |s| then [s]
      else [StripCarriageReturn(s[..i])] + Lines(s[i + 1..])
  }

  /** Each line followed by `\n`: the inverse of `Lines` on well-formed lines. */
  function JoinLines(ls: seq<string>): (r: string)
    ensures r == [] <==> ls == []
    ensures r != [] ==> r[|r| - 1] == '\n'
  {
    if ls == [] then [] else ls[0] + "\n" + JoinLines(ls[1..])
  }

  /** A line that `Lines` can give back unchanged. */
  predicate IsPlainLine(l: string) {
    '\n' !in l && (l == [] || l[|l| - 1] != '\r')
  }

  lemma {:induction false} JoinLinesAppend(ls: seq<string>, l: string)
    ensures JoinLines(ls + [l]) == JoinLines(ls) + l + "\n"
    decreases |ls|
  {
    if ls == [] {
      assert [l][1..] == [];
      assert JoinLines([l]) == l + "\n" + JoinLines([]);
    } else {
      var t := ls + [l];
      assert t[0] == ls[0];
      assert t[1..] == ls[1..] + [l];
      JoinLinesAppend(ls[1..], l);
      calc {
        JoinLines(t);
        ls[0] + "\n" + JoinLines(ls[1..] + [l]);
        ls[0] + "\n" + (JoinLines(ls[1..]) + l + "\n");
        (ls[0] + "\n" + JoinLines(ls[1..])) + l + "\n";
      }
    }
  }

  /** `IndexOf` is pinned down by the first occurrence. */
  lemma IndexOfIs(s: string, c: char, i: nat)
    requires i < |s| && s[i] == c
    requires forall k :: 0 <= k < i ==> s[k] != c
    ensures IndexOf(s, c) == i
  {
  }

  /** A plain line followed by `\n` is split off as the first line. */
  lemma LinesOfLineThenRest(h: string, rest: string)
    requires IsPlainLine(h)
    ensures Lines(h + "\n" + rest) == [h] + Lines(rest)
  {
    var s := h + "\n" + rest;
    forall k | 0 <= k < |h| ensures s[k] != '\n' {
      assert s[k] == h[k];
      assert h[k] in h;
    }
    assert s[|h|] == '\n';
    IndexOfIs(s, '\n', |h|);
    assert s[..|h|] == h;
    assert s[|h| + 1..] == rest;
  }

  /** Splitting joined lines gives the lines back. */
  lemma {:induction false} LinesOfJoinLines(ls: seq<string>)
    requires forall k :: 0 <= k < |ls| ==> IsPlainLine(ls[k])
    ensures Lines(JoinLines(ls)) == ls
    decreases |ls|
  {
    if ls != [] {
      LinesOfLineThenRest(ls[0], JoinLines(ls[1..]));
      LinesOfJoinLines(ls[1..]);
      assert ls == [ls[0]] + ls[1..];
    }
  }

  lemma {:induction false} TrimEndIdempotent(s: string)
    ensures TrimEnd(TrimEnd(s)) == TrimEnd(s)
  {
  }

  // Decimal numbers

  function DigitChar(d: nat): (c: char)
    requires d < 10
    ensures IsDigit(c)
  {
    (48 + d) as char
  }

  function DigitValue(c: char): nat
    requires IsDigit(c)
  {
    (c as int) - 48
  }

  /** The value of a string of decimal digits, most significant first. */
  function DecimalValue(ds: string): nat
    requires AllDigits(ds)
    decreases |ds|
  {
    if ds == [] then 0 else 10 * DecimalValue(ds[..|ds| - 1]) + DigitValue(ds[|ds| - 1])
  }

  /** Rust's `Display` for an unsigned integer. */
  function DecimalString(n: nat): (s: string)
    ensures |s| >= 1
    ensures AllDigits(s)
    ensures n < 10 <==> |s| == 1
    decreases n
  {
    if n < 10 then [DigitChar(n)] else DecimalString(n / 10) + [DigitChar(n % 10)]
  }

  const UsizeMax: nat := 0xFFFF_FFFF_FFFF_FFFF

  /**
   * Rust's `str::parse::<usize>()` on a 64-bit target: an optional `+`
   * followed by at least one decimal digit, and nothing else, whose value
   * fits in 64 bits.
   */
  function ParseUsize(t: string): Option<nat> {
    var ds := if |t| > 0 && t[0] == '+' then t[1..] else t;
    if ds == [] || !AllDigits(ds) then None
    else if DecimalValue(ds) <= UsizeMax then Some(DecimalValue(ds))
    else None
  }

  /** Printing a number and reading it back gives the number. */
  lemma {:induction false} DecimalRoundTrip(n: nat)
    ensures DecimalValue(DecimalString(n)) == n
    decreases n
  {
    if n >= 10 {
      var s := DecimalString(n);
      assert s[..|s| - 1] == DecimalString(n / 10);
      DecimalRoundTrip(n / 10);
    }
  }

  lemma ParseUsizeOfDecimal(n: nat)
    requires n <= UsizeMax
    ensures ParseUsize(DecimalString(n)) == Some(n)
  {
    DecimalRoundTrip(n);
  }

  // Replacement facts used by the substitution lemmas

  /** A prefix without the pattern's first character passes through a replacement. */
  lemma {:induction false} ReplaceAllSkipsPrefix(p: string, x: string, from: string, to: string)
    requires from != []
    requires from[0] !in p
    ensures ReplaceAll(p + x, from, to) == p + ReplaceAll(x, from, to)
    decreases |p|
  {
    if p != [] {
      var s := p + x;
      assert s[0] == p[0];
      assert !IsPrefix(from, s);
      assert s[1..] == p[1..] + x;
      assert ReplaceAll(s, from, to) == [s[0]] + ReplaceAll(s[1..], from, to);
      ReplaceAllSkipsPrefix(p[1..], x, from, to);
      assert p == [p[0]] + p[1..];
    } else {
      assert p + x == x;
    }
  }

  /** A string without the pattern's first character is left unchanged. */
  lemma ReplaceAllAbsentHead(s: string, from: string, to: string)
    requires from != []
    requires from[0] !in s
    ensures ReplaceAll(s, from, to) == s
  {
    ReplaceAllSkipsPrefix(s, [], from, to);
    assert s + [] == s;
  }

  /** Replacing at the head of `c + r` where `from == [c] + w`. */
  lemma ReplaceAllAtHead(c: char, r: string, w: string, to: string)
    requires c !in r
    ensures ReplaceAll([c] + r, [c] + w, to) ==
              if IsPrefix(w, r) then to + r[|w|..] else [c] + r
  {
    var s := [c] + r;
    var from := [c] + w;
    if IsPrefix(w, r) {
      assert s[..|from|] == [c] + r[..|w|];
      assert IsPrefix(from, s);
      assert s[|from|..] == r[|w|..];
      assert ReplaceAll(s, from, to) == to + ReplaceAll(r[|w|..], from, to);
      assert c !in r[|w|..] by {
        assert forall k :: 0 <= k < |r[|w|..]| ==> r[|w|..][k] == r[|w| + k];
      }
      ReplaceAllAbsentHead(r[|w|..], from, to);
    } else {
      assert s[1..] == r;
      assert ReplaceAll(s, from, to) == [c] + ReplaceAll(r, from, to);
      ReplaceAllAbsentHead(r, from, to);
    }
  }

  /** A match in a suffix is a match in the whole text, shifted by the cut. */
  lemma MatchesAtDrop(s: string, pat: string, d: nat, j: nat)
    requires d <= |s|
    ensures MatchesAt(s[d..], pat, j) == MatchesAt(s, pat, j + d)
  {
    if j + |pat| <= |s| - d {
      assert s[d..][j..j + |pat|] == s[j + d..j + d + |pat|];
    }
  }

  /**
   * `replace` works on the two halves of a text separately when no
   * occurrence of the pattern straddles the cut.
   */
  lemma {:induction false} ReplaceAllSplit(x: string, y: string, from: string, to: string)
    requires from != []
    requires forall i :: 0 <= i < |x| < i + |from| ==> !MatchesAt(x + y, from, i)
    ensures ReplaceAll(x + y, from, to) == ReplaceAll(x, from, to) + ReplaceAll(y, from, to)
    decreases |x|
  {
    var s := x + y;
    if x == [] {
      assert s == y;
    } else {
      var d := if IsPrefix(from, s) then |from| else 1;
      if IsPrefix(from, s) {
        assert MatchesAt(s, from, 0);
        assert IsPrefix(from, x) by {
          assert x[..d] == s[..d];
        }
      } else {
        assert !IsPrefix(from, x) by {
          if |from| <= |x| {
            assert x[..|from|] == s[..|from|];
          }
        }
      }
      var rest := x[d..];
      assert s[d..] == rest + y;
      forall i | 0 <= i < |rest| < i + |from| ensures !MatchesAt(rest + y, from, i) {
        MatchesAtDrop(s, from, d, i);
      }
      ReplaceAllSplit(rest, y, from, to);
    }
  }

  /** Without an occurrence of the pattern, `replace` changes nothing. */
  lemma {:induction false} ReplaceAllNoMatch(s: string, from: string, to: string)
    requires from != [] && !Contains(s, from)
    ensures ReplaceAll(s, from, to) == s
    decreases |s|
  {
    if s != [] {
      assert !IsPrefix(from, s) by {
        if IsPrefix(from, s) {
          assert MatchesAt(s, from, 0);
        }
      }
      ContainsInSuffix(s[1..], s, from);
      ReplaceAllNoMatch(s[1..], from, to);
      assert s == [s[0]] + s[1..];
    }
  }
}
