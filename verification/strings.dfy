/**
 * String operations shared by the site's TypeScript components and its Python maintenance
 * scripts, with the character classes their regular expressions use written as predicates.
 */
module Strings {

  // ---------------------------------------------------------------------------
  // Character classes
  // ---------------------------------------------------------------------------

  predicate IsAsciiDigit(c: char) { '0' <= c <= '9' }

  predicate IsAsciiLower(c: char) { 'a' <= c <= 'z' }

  predicate IsAsciiUpper(c: char) { 'A' <= c <= 'Z' }

  /** JavaScript `\w` (no `u` flag): `[A-Za-z0-9_]`. */
  predicate IsJsWord(c: char) { IsAsciiLower(c) || IsAsciiUpper(c) || IsAsciiDigit(c) || c == '_' }

  /** JavaScript `\s` and the characters `String.prototype.trim` removes (WhiteSpace and LineTerminator). */
  predicate IsJsSpace(c: char) {
    var n := c as int;
    || (0x09 <= n <= 0x0D) || n == 0x20 || n == 0xA0 || n == 0x1680 || (0x2000 <= n <= 0x200A)
    || n == 0x2028 || n == 0x2029 || n == 0x202F || n == 0x205F || n == 0x3000 || n == 0xFEFF
  }

  /** Python 3 `\s` for `str` patterns (the characters for which `str.isspace()` holds). */
  predicate IsPySpace(c: char) {
    var n := c as int;
    || (0x09 <= n <= 0x0D) || (0x1C <= n <= 0x20) || n == 0x85 || n == 0xA0 || n == 0x1680
    || (0x2000 <= n <= 0x200A) || n == 0x2028 || n == 0x2029 || n == 0x202F || n == 0x205F || n == 0x3000
  }

  /** The regular-expression class `[\u4e00-\u9fff]` (CJK Unified Ideographs). */
  predicate IsCjk(c: char) { 0x4E00 <= c as int <= 0x9FFF }

  predicate IsDash(c: char) { c == '-' }

  predicate HasCjk(s: string) { exists i | 0 <= i < |s| :: IsCjk(s[i]) }

  // ---------------------------------------------------------------------------
  // Prefixes, substrings, replacement
  // ---------------------------------------------------------------------------

  predicate StartsWith(s: string, prefix: string) {
    |prefix| <= |s| && s[..|prefix|] == prefix
  }

  predicate EndsWith(s: string, suffix: string) {
    |suffix| <= |s| && s[|s| - |suffix|..] == suffix
  }

  /** Substring test (Python `pat in s`, JavaScript `s.includes(pat)`); the empty pattern occurs everywhere. */
  predicate Contains(s: string, pat: string)
    decreases |s|
  {
    StartsWith(s, pat) || (|s| > 0 && Contains(s[1..], pat))
  }

  /** A word with a CJK character does not occur in a string without CJK characters. */
  lemma {:induction false} CjkWordAbsent(s: string, w: string)
    requires HasCjk(w) && !HasCjk(s)
    ensures !Contains(s, w)
    decreases |s|
  {
    if |s| > 0 {
      assert !HasCjk(s[1..]) by {
        forall i | 0 <= i < |s[1..]| ensures !IsCjk(s[1..][i]) {
          assert s[1..][i] == s[i + 1];
        }
      }
      CjkWordAbsent(s[1..], w);
    }
  }

  /** `rep` before every character of `s` and once more at the end: Python's `s.replace('', rep)`. */
  function Interleave(s: string, rep: string): (r: string)
    ensures |r| == |s| + (|s| + 1) * |rep|
    decreases |s|
  {
    if |s| == 0 then rep else rep + [s[0]] + Interleave(s[1..], rep)
  }

  /**
   * Python `s.replace(pat, rep)`: every occurrence of `pat`, found left to right without overlap,
   * is replaced by `rep`.
   */
  function ReplaceAll(s: string, pat: string, rep: string): (r: string)
    ensures !Contains(s, pat) ==> r == s
    ensures pat != [] && rep == pat ==> r == s
    decreases |s|
  {
    if pat == [] then Interleave(s, rep)
    else if |s| == 0 then []
    else if StartsWith(s, pat) then rep + ReplaceAll(s[|pat|..], pat, rep)
    else [s[0]] + ReplaceAll(s[1..], pat, rep)
  }

  /** JavaScript `s.replace(pat, rep)` with a string pattern: only the first occurrence is replaced. */
  function ReplaceFirst(s: string, pat: string, rep: string): (r: string)
    ensures StartsWith(s, pat) ==> r == rep + s[|pat|..]
    ensures !Contains(s, pat) ==> r == s
    decreases |s|
  {
    if StartsWith(s, pat) then rep + s[|pat|..]
    else if |s| == 0 then s
    else [s[0]] + ReplaceFirst(s[1..], pat, rep)
  }

  // ---------------------------------------------------------------------------
  // Per-character rewriting, trimming and run collapsing
  // ---------------------------------------------------------------------------

  /** ASCII model of `toLowerCase`. */
  function LowerChar(c: char): char {
    if IsAsciiUpper(c) then (c as int + 32) as char else c
  }

  /** ASCII model of JavaScript `String.prototype.toLowerCase`. */
  function Lower(s: string): (r: string)
    ensures |r| == |s|
    ensures forall i | 0 <= i < |r| :: r[i] == LowerChar(s[i]) && !IsAsciiUpper(r[i])
  {
    seq(|s|, i requires 0 <= i < |s| => LowerChar(s[i]))
  }

  /** Every character of `s` outside `keep` replaced by `-` (a substitution `[^…]` -> '-'). */
  function DashOutside(s: string, keep: char -> bool): (r: string)
    ensures |r| == |s|
    ensures forall i | 0 <= i < |r| :: r[i] == (if keep(s[i]) then s[i] else '-')
  {
    seq(|s|, i requires 0 <= i < |s| => if keep(s[i]) then s[i] else '-')
  }

  /** `s` without its longest prefix of characters satisfying `p`. */
  function DropWhile(s: string, p: char -> bool): (r: string)
    ensures |r| <= |s| && r == s[|s| - |r|..]
    ensures r == [] || !p(r[0])
    ensures forall i | 0 <= i < |s| - |r| :: p(s[i])
    decreases |s|
  {
    if |s| > 0 && p(s[0]) then DropWhile(s[1..], p) else s
  }

  /** `s` without its longest suffix of characters satisfying `p`. */
  function DropWhileEnd(s: string, p: char -> bool): (r: string)
    ensures |r| <= |s| && r == s[..|r|]
    ensures r == [] || !p(r[|r| - 1])
    ensures forall i | |r| <= i < |s| :: p(s[i])
    decreases |s|
  {
    if |s| > 0 && p(s[|s| - 1]) then DropWhileEnd(s[..|s| - 1], p) else s
  }

  /** Where `Strip(s, p)` starts inside `s`. */
  function StripStart(s: string, p: char -> bool): nat
    ensures StripStart(s, p) <= |s|
  {
    |s| - |DropWhile(s, p)|
  }

  /**
   * Leading and trailing characters satisfying `p` removed: Python `s.strip(chars)`,
   * JavaScript `s.trim()` and the JavaScript substitution `/^x+|x+$/g` -> ''.
   */
  function Strip(s: string, p: char -> bool): (r: string)
    ensures StripStart(s, p) + |r| <= |s|
    ensures r == s[StripStart(s, p)..StripStart(s, p) + |r|]
    ensures r == [] || (!p(r[0]) && !p(r[|r| - 1]))
  {
    DropWhileEnd(DropWhile(s, p), p)
  }

  /** Stripping removes everything exactly when every character is stripped. */
  lemma StripEmpty(s: string, p: char -> bool)
    ensures Strip(s, p) == [] <==> forall i | 0 <= i < |s| :: p(s[i])
  {
    var t := DropWhile(s, p);
    if DropWhileEnd(t, p) == [] {
      assert t == [];
    }
  }

  /** A string that neither starts nor ends with a stripped character is left alone. */
  lemma StripNothing(s: string, p: char -> bool)
    requires s == [] || (!p(s[0]) && !p(s[|s| - 1]))
    ensures Strip(s, p) == s
  {
  }

  /** No two adjacent dashes. */
  predicate NoDoubleDash(s: string) {
    forall i | 0 <= i < |s| - 1 :: !(s[i] == '-' && s[i + 1] == '-')
  }

  /** No `--`, and no dash at either end: the shape every cleanup pass below produces. */
  predicate DashTidy(s: string) {
    NoDoubleDash(s) && (s == [] || (s[0] != '-' && s[|s| - 1] != '-'))
  }

  /** Every maximal run of characters satisfying `isSep` replaced by a single `-` (`/[…]+/g` -> '-'). */
  function CollapseRuns(s: string, isSep: char -> bool): (r: string)
    ensures |r| == 0 <==> |s| == 0
    ensures forall i | 0 <= i < |r| :: r[i] == '-' || !isSep(r[i])
    ensures isSep('-') ==> NoDoubleDash(r)
    decreases |s|
  {
    if |s| == 0 then []
    else if isSep(s[0]) then ['-'] + CollapseRuns(DropWhile(s, isSep), isSep)
    else [s[0]] + CollapseRuns(s[1..], isSep)
  }

  /** A property of the dash and of every character of `s` holds for every character of the result. */
  lemma {:induction false} CollapseRunsPreserves(s: string, isSep: char -> bool, q: char -> bool)
    requires q('-') && forall i | 0 <= i < |s| :: q(s[i])
    ensures forall i | 0 <= i < |CollapseRuns(s, isSep)| :: q(CollapseRuns(s, isSep)[i])
    decreases |s|
  {
    if |s| > 0 {
      if isSep(s[0]) {
        var t := DropWhile(s, isSep);
        assert forall i | 0 <= i < |t| :: t[i] == s[|s| - |t| + i];
        CollapseRunsPreserves(t, isSep, q);
      } else {
        CollapseRunsPreserves(s[1..], isSep, q);
      }
    }
  }

  /** A string whose separators are single dashes is left alone. */
  lemma {:induction false} CollapseRunsFixed(s: string, isSep: char -> bool)
    requires forall i | 0 <= i < |s| :: isSep(s[i]) ==> s[i] == '-'
    requires forall i | 0 <= i < |s| - 1 :: !(isSep(s[i]) && isSep(s[i + 1]))
    ensures CollapseRuns(s, isSep) == s
    decreases |s|
  {
    if |s| > 0 {
      if isSep(s[0]) {
        DropOne(s, isSep);
      }
      CollapseRunsFixed(s[1..], isSep);
      assert s == [s[0]] + s[1..];
    }
  }

  /** A run of exactly one dropped character. */
  lemma DropOne(s: string, p: char -> bool)
    requires |s| > 0 && p(s[0]) && (|s| == 1 || !p(s[1]))
    ensures DropWhile(s, p) == s[1..]
  {
  }

  /** Stripping dashes from a string without `--` leaves it dash-tidy. */
  lemma StripDashesTidies(s: string)
    requires NoDoubleDash(s)
    ensures DashTidy(Strip(s, IsDash))
  {
    var r := Strip(s, IsDash);
    SliceNoDoubleDash(s, StripStart(s, IsDash), StripStart(s, IsDash) + |r|);
  }

  /** A slice of a string without `--` has none either. */
  lemma SliceNoDoubleDash(s: string, a: nat, b: nat)
    requires a <= b <= |s| && NoDoubleDash(s)
    ensures NoDoubleDash(s[a..b])
  {
    var t := s[a..b];
    forall i | 0 <= i < |t| - 1 ensures !(t[i] == '-' && t[i + 1] == '-') {
      assert t[i] == s[a + i] && t[i + 1] == s[a + i + 1];
    }
  }

  // ---------------------------------------------------------------------------
  // Decimal numerals
  // ---------------------------------------------------------------------------

  function DigitChar(d: nat): (c: char)
    requires d < 10
    ensures IsAsciiDigit(c)
  {
    "0123456789"[d]
  }

  function DigitValue(c: char): nat
    requires IsAsciiDigit(c)
  {
    c as int - '0' as int
  }

  predicate AllDigits(s: string) { forall i | 0 <= i < |s| :: IsAsciiDigit(s[i]) }

  /** The decimal numeral of `n` (Python `str(n)` / an f-string field). */
  function Dec(n: nat): (r: string)
    ensures |r| > 0 && AllDigits(r)
    decreases n
  {
    if n < 10 then [DigitChar(n)] else Dec(n / 10) + [DigitChar(n % 10)]
  }

  /** The value of a decimal numeral. */
  function ParseDec(s: string): nat
    requires AllDigits(s)
    decreases |s|
  {
    if |s| == 0 then 0 else ParseDec(s[..|s| - 1]) * 10 + DigitValue(s[|s| - 1])
  }

  /** Reading back a rendered numeral gives the number. */
  lemma {:induction false} ParseDecOfDec(n: nat)
    ensures ParseDec(Dec(n)) == n
    decreases n
  {
    if n >= 10 {
      var s := Dec(n);
      assert s[..|s| - 1] == Dec(n / 10);
      ParseDecOfDec(n / 10);
    }
  }

  /** Distinct numbers have distinct numerals. */
  lemma DecInjective(m: nat, n: nat)
    requires Dec(m) == Dec(n)
    ensures m == n
  {
    ParseDecOfDec(m);
    ParseDecOfDec(n);
  }

  // ---------------------------------------------------------------------------
  // Splitting and joining on a separator character
  // ---------------------------------------------------------------------------

  /** JavaScript `s.split(sep)` for a one-character separator: always at least one piece. */
  function SplitOn(s: string, sep: char): (r: seq<string>)
    ensures |r| >= 1
    ensures forall i | 0 <= i < |r| :: sep !in r[i]
    decreases |s|
  {
    if |s| == 0 then [[]]
    else
      var rest := SplitOn(s[1..], sep);
      if s[0] == sep then [[]] + rest else [[s[0]] + rest[0]] + rest[1..]
  }

  /** JavaScript `parts.join(sep)`. */
  function JoinWith(parts: seq<string>, sep: char): string
    decreases |parts|
  {
    if |parts| == 0 then []
    else if |parts| == 1 then parts[0]
    else parts[0] + [sep] + JoinWith(parts[1..], sep)
  }

  /** Joining the pieces of a split restores the string. */
  lemma {:induction false} JoinSplit(s: string, sep: char)
    ensures JoinWith(SplitOn(s, sep), sep) == s
    decreases |s|
  {
    if |s| > 0 {
      var rest := SplitOn(s[1..], sep);
      JoinSplit(s[1..], sep);
      if s[0] == sep {
        assert SplitOn(s, sep)[1..] == rest;
      } else {
        var r := SplitOn(s, sep);
        if |rest| == 1 {
          assert r == [[s[0]] + rest[0]];
        } else {
          assert r[1..] == rest[1..];
          assert JoinWith(rest, sep) == rest[0] + [sep] + JoinWith(rest[1..], sep);
        }
      }
    }
  }

  /** A string without the separator is a single piece. */
  lemma {:induction false} SplitWithoutSep(p: string, sep: char)
    requires sep !in p
    ensures SplitOn(p, sep) == [p]
    decreases |p|
  {
    if |p| > 0 {
      SplitWithoutSep(p[1..], sep);
      assert [p[0]] + p[1..] == p;
    }
  }

  /** A piece followed by the separator splits off as the first piece. */
  lemma {:induction false} SplitFirstPiece(p: string, sep: char, t: string)
    requires sep !in p
    ensures SplitOn(p + [sep] + t, sep) == [p] + SplitOn(t, sep)
    decreases |p|
  {
    if |p| == 0 {
      assert (p + [sep] + t)[1..] == t;
    } else {
      assert (p + [sep] + t)[1..] == p[1..] + [sep] + t;
      SplitFirstPiece(p[1..], sep, t);
      assert [p[0]] + p[1..] == p;
    }
  }

  /** Splitting a join of separator-free pieces gives the pieces back. */
  lemma {:induction false} SplitJoin(parts: seq<string>, sep: char)
    requires |parts| >= 1
    requires forall i | 0 <= i < |parts| :: sep !in parts[i]
    ensures SplitOn(JoinWith(parts, sep), sep) == parts
    decreases |parts|
  {
    if |parts| == 1 {
      SplitWithoutSep(parts[0], sep);
    } else {
      SplitJoin(parts[1..], sep);
      SplitFirstPiece(parts[0], sep, JoinWith(parts[1..], sep));
      assert [parts[0]] + parts[1..] == parts;
    }
  }
}
