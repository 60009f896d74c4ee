/**
  The Python 2 `str` built-ins the CPU collector relies on, over `string`
  (a sequence of characters): `isspace`, `split()`, `startswith` (written
  with Dafny's prefix operator `<=`), the substring test `p in s`, and
  `long()` applied to a string of decimal digits.
 */
module PyStrings {

  /** `str.isspace` on one character of a Python 2 byte string. */
  predicate IsSpace(c: char) {
    c == ' ' || c == '\t' || c == '\n' || c == '\r' || c == '\U{0B}' || c == '\U{0C}'
  }

  predicate NoSpace(s: string) {
    forall j :: 0 <= j < |s| ==> !IsSpace(s[j])
  }

  /** The characters of `s` that are not whitespace, in order. */
  function Visible(s: string): string {
    if s == [] then []
    else if IsSpace(s[0]) then Visible(s[1..])
    else [s[0]] + Visible(s[1..])
  }

  /** Concatenation of a sequence of strings. */
  function Concat(ss: seq<string>): string {
    if ss == [] then [] else ss[0] + Concat(ss[1..])
  }

  /** The longest prefix of `s` that holds no whitespace. */
  function Word(s: string): (w: string)
    ensures |w| <= |s|
  {
    if s == [] || IsSpace(s[0]) then [] else [s[0]] + Word(s[1..])
  }

  /**
    `str.split()` without a separator: leading whitespace is skipped, then
    the next maximal run of non-whitespace characters is a token, and so on.
   */
  function Split(s: string): seq<string>
    decreases |s|
  {
    if s == [] then []
    else if IsSpace(s[0]) then Split(s[1..])
    else
      var w := Word(s);
      [w] + Split(s[|w|..])
  }

  /** The first word of `s` is a prefix of it, holds no whitespace, and is followed by whitespace or the end. */
  lemma {:induction false} WordFacts(s: string)
    ensures Word(s) <= s && NoSpace(Word(s))
    ensures |Word(s)| < |s| ==> IsSpace(s[|Word(s)|])
    ensures s != [] && !IsSpace(s[0]) ==> Word(s) != []
    decreases |s|
  {
    if s != [] && !IsSpace(s[0]) {
      WordFacts(s[1..]);
    }
  }

  /** Every token of `split()` is non-empty and holds no whitespace. */
  lemma {:induction false} SplitTokens(s: string)
    ensures forall t :: t in Split(s) ==> t != [] && NoSpace(t)
    decreases |s|
  {
    if s != [] {
      if IsSpace(s[0]) {
        SplitTokens(s[1..]);
      } else {
        var w := Word(s);
        WordFacts(s);
        SplitTokens(s[|w|..]);
      }
    }
  }

  lemma {:induction false} VisibleAppend(a: string, b: string)
    ensures Visible(a + b) == Visible(a) + Visible(b)
    decreases |a|
  {
    if a != [] {
      assert (a + b)[1..] == a[1..] + b;
      VisibleAppend(a[1..], b);
    } else {
      assert a + b == b;
    }
  }

  lemma {:induction false} VisibleOfWord(s: string)
    requires NoSpace(s)
    ensures Visible(s) == s
    decreases |s|
  {
    if s != [] {
      VisibleOfWord(s[1..]);
      assert s == [s[0]] + s[1..];
    }
  }

  /** Splitting loses exactly the whitespace: the tokens, put back together, are the visible text. */
  lemma {:induction false} SplitKeepsText(s: string)
    ensures Concat(Split(s)) == Visible(s)
    decreases |s|
  {
    if s != [] {
      if IsSpace(s[0]) {
        SplitKeepsText(s[1..]);
      } else {
        var w := Word(s);
        var rest := s[|w|..];
        WordFacts(s);
        assert s == w + rest;
        VisibleAppend(w, rest);
        VisibleOfWord(w);
        SplitKeepsText(rest);
        assert Split(s) == [w] + Split(rest);
        assert Concat(Split(s)) == w + Concat(Split(rest));
      }
    }
  }

  lemma {:induction false} WordBeforeSpace(w: string, c: char, rest: string)
    requires NoSpace(w) && IsSpace(c)
    ensures Word(w + [c] + rest) == w
    decreases |w|
  {
    if w == [] {
      assert (w + [c] + rest)[0] == c;
    } else {
      assert (w + [c] + rest)[1..] == w[1..] + [c] + rest;
      WordBeforeSpace(w[1..], c, rest);
    }
  }

  /** A word followed by whitespace is the first token, and splitting goes on after it. */
  lemma SplitWord(w: string, c: char, rest: string)
    requires w != [] && NoSpace(w) && IsSpace(c)
    ensures Split(w + [c] + rest) == [w] + Split(rest)
  {
    var s := w + [c] + rest;
    WordBeforeSpace(w, c, rest);
    assert s[0] == w[0];
    assert s[|w|..] == [c] + rest;
    assert ([c] + rest)[1..] == rest;
  }

  /** A run of whitespace before a string yields no token of its own. */
  lemma {:induction false} SplitSkipsSpaces(sp: string, rest: string)
    requires forall j :: 0 <= j < |sp| ==> IsSpace(sp[j])
    ensures Split(sp + rest) == Split(rest)
    decreases |sp|
  {
    if sp == [] {
      assert sp + rest == rest;
    } else {
      assert (sp + rest)[0] == sp[0];
      assert (sp + rest)[1..] == sp[1..] + rest;
      SplitSkipsSpaces(sp[1..], rest);
    }
  }

  /**
    Tokens are maximal: a word followed by any non-empty run of whitespace is
    one token, and splitting goes on after the run.
   */
  lemma SplitWordSpaces(w: string, sp: string, rest: string)
    requires w != [] && NoSpace(w)
    requires sp != [] && forall j :: 0 <= j < |sp| ==> IsSpace(sp[j])
    ensures Split(w + sp + rest) == [w] + Split(rest)
  {
    assert w + sp + rest == w + [sp[0]] + (sp[1..] + rest);
    SplitWord(w, sp[0], sp[1..] + rest);
    SplitSkipsSpaces(sp[1..], rest);
  }

  /** The tokens written out as one line: separated by single blanks and ended by a newline. */
  function Line(tokens: seq<string>): string
    requires tokens != []
  {
    if |tokens| == 1 then tokens[0] + ['\n'] else tokens[0] + [' '] + Line(tokens[1..])
  }

  /** Splitting a line written from whitespace-free, non-empty tokens gives back exactly those tokens. */
  lemma {:induction false} SplitLine(tokens: seq<string>)
    requires tokens != []
    requires forall t :: t in tokens ==> t != [] && NoSpace(t)
    ensures Split(Line(tokens)) == tokens
    decreases |tokens|
  {
    assert tokens[0] in tokens;
    if |tokens| == 1 {
      assert tokens[0] + ['\n'] == tokens[0] + ['\n'] + [];
      SplitWord(tokens[0], '\n', []);
      assert Split([]) == [];
    } else {
      forall t | t in tokens[1..]
        ensures t != [] && NoSpace(t)
      {
        assert t in tokens;
      }
      SplitLine(tokens[1..]);
      SplitWord(tokens[0], ' ', Line(tokens[1..]));
      assert tokens == [tokens[0]] + tokens[1..];
    }
  }

  /** `p` occurs in `s` starting at index `i`. */
  predicate OccursAt(s: string, p: string, i: int) {
    0 <= i && i + |p| <= |s| && s[i..i + |p|] == p
  }

  /** Python's `p in s` for two strings. */
  predicate Contains(s: string, p: string) {
    exists i | 0 <= i <= |s| :: OccursAt(s, p, i)
  }

  predicate IsDigits(s: string) {
    |s| > 0 && forall j :: 0 <= j < |s| ==> '0' <= s[j] <= '9'
  }

  /** The value of a string of decimal digits. */
  function DecimalValue(s: string): nat
    requires forall j :: 0 <= j < |s| ==> '0' <= s[j] <= '9'
  {
    if s == [] then 0 else 10 * DecimalValue(s[..|s| - 1]) + (s[|s| - 1] as int - '0' as int)
  }

  /** The shortest decimal digit string of `n`. */
  function Decimal(n: nat): string {
    if n < 10 then [('0' as int + n) as char] else Decimal(n / 10) + [('0' as int + n % 10) as char]
  }

  /** Reading the digits of `n` gives back `n`. */
  lemma {:induction false} DecimalRoundTrip(n: nat)
    ensures IsDigits(Decimal(n)) && DecimalValue(Decimal(n)) == n
    decreases n
  {
    if n >= 10 {
      DecimalRoundTrip(n / 10);
      var d := Decimal(n / 10);
      assert (d + [('0' as int + n % 10) as char])[..|d|] == d;
    }
  }

  /** `s` without a leading `+` or `-`. */
  function Unsigned(s: string): string {
    if s != [] && (s[0] == '+' || s[0] == '-') then s[1..] else s
  }

  /** The digits of a `long()` literal: no sign, and no `L` or `l` suffix. */
  function DigitsOf(s: string): string {
    var u := Unsigned(s);
    if u != [] && (u[|u| - 1] == 'L' || u[|u| - 1] == 'l') then u[..|u| - 1] else u
  }

  /**
    What Python 2's `long()` accepts from a whitespace-free string: an
    optional sign, one or more decimal digits, and an optional `L` or `l`.
   */
  predicate IsLongLiteral(s: string) {
    IsDigits(DigitsOf(s))
  }

  /** `long(s)` for a string it accepts. */
  function LongValue(s: string): int
    requires IsLongLiteral(s)
  {
    if s[0] == '-' then -(DecimalValue(DigitsOf(s)) as int) else DecimalValue(DigitsOf(s))
  }

  /** `long()` reads a digit string as its decimal value, with either sign and either suffix. */
  lemma LongOfDigits(d: string)
    requires IsDigits(d)
    ensures IsLongLiteral(d) && LongValue(d) == DecimalValue(d)
    ensures IsLongLiteral("-" + d) && LongValue("-" + d) == -(DecimalValue(d) as int)
    ensures IsLongLiteral("+" + d) && LongValue("+" + d) == DecimalValue(d)
    ensures IsLongLiteral(d + "L") && LongValue(d + "L") == DecimalValue(d)
  {
    DigitsOfForms(d);
  }

  lemma DigitsOfForms(d: string)
    requires IsDigits(d)
    ensures DigitsOf(d) == d && DigitsOf("-" + d) == d && DigitsOf("+" + d) == d && DigitsOf(d + "L") == d
  {
    assert d[0] != '+' && d[0] != '-' && d[|d| - 1] != 'L' && d[|d| - 1] != 'l';
    assert Unsigned("-" + d) == ("-" + d)[1..] == d;
    assert Unsigned("+" + d) == ("+" + d)[1..] == d;
    assert (d + "L")[0] == d[0];
    assert Unsigned(d + "L") == d + "L";
    assert (d + "L")[..|d|] == d;
  }

  /** `long()` inverts printing an integer in decimal, for either sign. */
  lemma LongRoundTrip(n: int)
    ensures var s := if n < 0 then "-" + Decimal(-n) else Decimal(n);
      IsLongLiteral(s) && LongValue(s) == n
  {
    if n < 0 {
      DecimalRoundTrip(-n);
      LongOfDigits(Decimal(-n));
    } else {
      DecimalRoundTrip(n);
      LongOfDigits(Decimal(n));
    }
  }

  /** `long()` rejects an empty string, a bare sign, a bare suffix and a string with a non-digit inside. */
  lemma LongRejects()
    ensures !IsLongLiteral("") && !IsLongLiteral("-") && !IsLongLiteral("+") && !IsLongLiteral("L")
    ensures !IsLongLiteral("1.5") && !IsLongLiteral("--1")
  {
    assert DigitsOf("1.5")[1] == '.';
    assert DigitsOf("--1")[0] == '-';
  }
}
