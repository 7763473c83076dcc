/**
 * The parts of java.lang.String, Character, Integer and Long that the
 * simulator's parsers rely on, written out with Java's exact rules:
 * `trim` strips code points <= U+0020, `Character.isWhitespace` and the
 * regex class `\s` are different character sets, `parseInt` accepts an
 * optional sign and is range-checked, `long` arithmetic wraps, and `/`
 * truncates toward zero.
 */
module JavaText {
  import opened Wrappers

  // ---------------------------------------------------------------------
  // Character classes

  /** Characters removed by `String.trim()`. */
  predicate IsTrimmable(c: char) { c <= ' ' }

  /**
   * `Character.isWhitespace`: the Unicode space, line and paragraph
   * separators except the non-breaking ones, plus the ASCII controls
   * U+0009..U+000D and U+001C..U+001F.
   */
  predicate IsJavaWhitespace(c: char) {
    ('\t' <= c <= '\r') || ('\U{1C}' <= c <= ' ')
    || c == '\U{1680}' || ('\U{2000}' <= c <= '\U{2006}') || ('\U{2008}' <= c <= '\U{200A}')
    || c == '\U{2028}' || c == '\U{2029}' || c == '\U{205F}' || c == '\U{3000}'
  }

  /** The default (non-Unicode) regex class `\s`: [ \t\n\x0B\f\r]. */
  predicate IsRegexSpace(c: char) {
    c == ' ' || ('\t' <= c <= '\r')
  }

  predicate IsAsciiDigit(c: char) { '0' <= c <= '9' }

  // ---------------------------------------------------------------------
  // Trimming and blankness

  function TrimLeft(s: string): (r: string)
    ensures |r| <= |s| && r == s[|s| - |r|..]
    ensures r == [] || !IsTrimmable(r[0])
    ensures forall i :: 0 <= i < |s| - |r| ==> IsTrimmable(s[i])
  {
    if s != [] && IsTrimmable(s[0]) then TrimLeft(s[1..]) else s
  }

  function TrimRight(s: string): (r: string)
    ensures |r| <= |s| && r == s[..|r|]
    ensures r == [] || !IsTrimmable(r[|r| - 1])
    ensures forall i :: |r| <= i < |s| ==> IsTrimmable(s[i])
  {
    if s != [] && IsTrimmable(s[|s| - 1]) then TrimRight(s[..|s| - 1]) else s
  }

  /** `String.trim()`. */
  function Trim(s: string): (r: string)
    ensures |r| <= |s|
    ensures r == [] || (!IsTrimmable(r[0]) && !IsTrimmable(r[|r| - 1]))
  {
    TrimRight(TrimLeft(s))
  }

  /** A string with nothing to strip at either end is its own trim. */
  lemma TrimOfTrimmed(s: string)
    requires s == [] || (!IsTrimmable(s[0]) && !IsTrimmable(s[|s| - 1]))
    ensures Trim(s) == s
  {
  }

  lemma TrimIdempotent(s: string)
    ensures Trim(Trim(s)) == Trim(s)
  {
    TrimOfTrimmed(Trim(s));
  }

  /** `trim().isEmpty()`: every character is <= U+0020. */
  lemma {:induction false} TrimEmptyIff(s: string)
    ensures Trim(s) == [] <==> forall i :: 0 <= i < |s| ==> IsTrimmable(s[i])
  {
    if s != [] && IsTrimmable(s[0]) {
      TrimEmptyIff(s[1..]);
      assert forall i :: 1 <= i < |s| ==> s[i] == s[1..][i - 1];
    }
  }

  /** `String.isBlank()`: empty or only `Character.isWhitespace` characters. */
  predicate IsBlank(s: string) {
    forall i :: 0 <= i < |s| ==> IsJavaWhitespace(s[i])
  }

  // ---------------------------------------------------------------------
  // Case mapping (ASCII letters only)

  function UpperChar(c: char): char {
    if 'a' <= c <= 'z' then (c as int - 32) as char else c
  }

  function LowerChar(c: char): char {
    if 'A' <= c <= 'Z' then (c as int + 32) as char else c
  }

  function ToUpper(s: string): (r: string)
    ensures |r| == |s| && forall i :: 0 <= i < |s| ==> r[i] == UpperChar(s[i])
  {
    seq(|s|, i requires 0 <= i < |s| => UpperChar(s[i]))
  }

  function ToLower(s: string): (r: string)
    ensures |r| == |s| && forall i :: 0 <= i < |s| ==> r[i] == LowerChar(s[i])
  {
    seq(|s|, i requires 0 <= i < |s| => LowerChar(s[i]))
  }

  lemma ToLowerAppend(a: string, b: string)
    ensures ToLower(a + b) == ToLower(a) + ToLower(b)
  {
    var l := ToLower(a + b);
    var m := ToLower(a) + ToLower(b);
    forall i | 0 <= i < |l|
      ensures l[i] == m[i]
    {
      if i < |a| {
        assert (a + b)[i] == a[i];
      } else {
        assert (a + b)[i] == b[i - |a|];
      }
    }
  }

  /** A string begins with what was put in front of it, and the rest follows. */
  lemma StartsWithAppend(prefix: string, s: string)
    ensures StartsWith(prefix + s, prefix) && (prefix + s)[|prefix|..] == s
  {
    assert (prefix + s)[..|prefix|] == prefix;
  }

  /** `equalsIgnoreCase` for ASCII text. */
  predicate EqualsIgnoreCase(a: string, b: string) {
    ToLower(a) == ToLower(b)
  }

  predicate StartsWith(s: string, prefix: string) {
    |prefix| <= |s| && s[..|prefix|] == prefix
  }

  predicate EndsWith(s: string, suffix: string) {
    |suffix| <= |s| && s[|s| - |suffix|..] == suffix
  }

  /** `replace(a, b)` for single characters: every `a` becomes `b`. */
  function ReplaceChar(s: string, a: char, b: char): (r: string)
    ensures |r| == |s|
    ensures forall i :: 0 <= i < |s| ==> r[i] == if s[i] == a then b else s[i]
  {
    seq(|s|, i requires 0 <= i < |s| => if s[i] == a then b else s[i])
  }

  // ---------------------------------------------------------------------
  // Searching

  /** `indexOf(c)`: the first position of `c`, or -1. */
  function IndexOfChar(s: string, c: char): (r: int)
    ensures -1 <= r < |s|
    ensures r >= 0 ==> s[r] == c && forall i :: 0 <= i < r ==> s[i] != c
    ensures r == -1 <==> forall i :: 0 <= i < |s| ==> s[i] != c
  {
    if s == [] then -1
    else if s[0] == c then 0
    else
      var k := IndexOfChar(s[1..], c);
      if k < 0 then -1 else k + 1
  }

  /** `lastIndexOf(c)`: the last position of `c`, or -1. */
  function LastIndexOfChar(s: string, c: char): (r: int)
    ensures -1 <= r < |s|
    ensures r >= 0 ==> s[r] == c && forall i :: r < i < |s| ==> s[i] != c
    ensures r == -1 <==> forall i :: 0 <= i < |s| ==> s[i] != c
  {
    if s == [] then -1
    else if s[|s| - 1] == c then |s| - 1
    else LastIndexOfChar(s[..|s| - 1], c)
  }

  // ---------------------------------------------------------------------
  // Splitting into words

  /** The length of the leading run of characters that are not separators. */
  function RunLength(s: string, isSep: char -> bool): (n: nat)
    ensures n <= |s|
    ensures forall i :: 0 <= i < n ==> !isSep(s[i])
    ensures n < |s| ==> isSep(s[n])
  {
    if s == [] || isSep(s[0]) then 0 else 1 + RunLength(s[1..], isSep)
  }

  /**
   * The words of `s`: its maximal runs of non-separator characters, in
   * order. Splitting on a separator class and dropping the empty pieces
   * gives these, and so does scanning past separators and then to the
   * next separator.
   */
  function Words(s: string, isSep: char -> bool): (ws: seq<string>)
    ensures forall k :: 0 <= k < |ws| ==> ws[k] != []
    decreases |s|
  {
    if s == [] then []
    else if isSep(s[0]) then Words(s[1..], isSep)
    else
      var n := RunLength(s, isSep);
      [s[..n]] + Words(s[n..], isSep)
  }

  /** No word contains a separator. */
  lemma {:induction false} WordsSeparatorFree(s: string, isSep: char -> bool)
    ensures var ws := Words(s, isSep);
      forall k, i :: 0 <= k < |ws| && 0 <= i < |ws[k]| ==> !isSep(ws[k][i])
    decreases |s|
  {
    if s != [] {
      if isSep(s[0]) {
        WordsSeparatorFree(s[1..], isSep);
        assert Words(s, isSep) == Words(s[1..], isSep);
      } else {
        var n := RunLength(s, isSep);
        WordsSeparatorFree(s[n..], isSep);
        var ws := Words(s, isSep);
        forall k, i | 0 <= k < |ws| && 0 <= i < |ws[k]|
          ensures !isSep(ws[k][i])
        {
          if k > 0 {
            assert ws[k] == Words(s[n..], isSep)[k - 1];
          }
        }
      }
    }
  }

  /** One character of one word is not a separator. */
  lemma WordHasNoSeparator(s: string, isSep: char -> bool, k: nat, i: nat)
    requires k < |Words(s, isSep)| && i < |Words(s, isSep)[k]|
    ensures !isSep(Words(s, isSep)[k][i])
  {
    WordsSeparatorFree(s, isSep);
    var ws := Words(s, isSep);
    assert !isSep(ws[k][i]);
  }

  /** A non-empty string without separators is a single word. */
  lemma WordsOfWord(w: string, isSep: char -> bool)
    requires w != [] && forall i :: 0 <= i < |w| ==> !isSep(w[i])
    ensures Words(w, isSep) == [w]
  {
    assert RunLength(w, isSep) == |w| by {
      RunLengthExact(w, 0, |w|, isSep);
      assert w[0..] == w;
    }
    assert !isSep(w[0]);
    assert w[..|w|] == w && w[|w|..] == [];
    assert Words(w, isSep) == [w[..|w|]] + Words(w[|w|..], isSep);
  }

  /** Words are separated: a word, a separator, then the words of the rest. */
  lemma WordsCons(w: string, c: char, rest: string, isSep: char -> bool)
    requires w != [] && forall i :: 0 <= i < |w| ==> !isSep(w[i])
    requires isSep(c)
    ensures Words(w + [c] + rest, isSep) == [w] + Words(rest, isSep)
  {
    var s := w + [c] + rest;
    assert RunLength(s, isSep) == |w| by {
      RunLengthExact(s, 0, |w|, isSep);
    }
    assert s[..|w|] == w;
    assert s[|w|..][1..] == rest;
  }

  /** A run of non-separators from `j` ended by `k` has length k - j. */
  lemma {:induction false} RunLengthExact(s: string, j: nat, k: nat, isSep: char -> bool)
    requires j <= k <= |s|
    requires forall i :: j <= i < k ==> !isSep(s[i])
    requires k == |s| || isSep(s[k])
    ensures RunLength(s[j..], isSep) == k - j
    decreases k - j
  {
    if j < k {
      RunLengthExact(s, j + 1, k, isSep);
      assert s[j..][1..] == s[j + 1..];
    }
  }

  /** Scanning past a separator at `i` leaves the remaining words unchanged. */
  lemma WordsSkipSeparator(s: string, i: nat, isSep: char -> bool)
    requires i < |s| && isSep(s[i])
    ensures Words(s[i..], isSep) == Words(s[i + 1..], isSep)
  {
    assert s[i..][1..] == s[i + 1..];
  }

  /** A maximal run [j, k) of non-separators is the next word. */
  lemma WordsTakeRun(s: string, j: nat, k: nat, isSep: char -> bool)
    requires j < k <= |s|
    requires forall i :: j <= i < k ==> !isSep(s[i])
    requires k == |s| || isSep(s[k])
    ensures Words(s[j..], isSep) == [s[j..k]] + Words(s[k..], isSep)
  {
    RunLengthExact(s, j, k, isSep);
    assert s[j..][..k - j] == s[j..k];
    assert s[j..][k - j..] == s[k..];
  }

  // ---------------------------------------------------------------------
  // Integer parsing and printing

  predicate AllDigits(s: string) {
    forall i :: 0 <= i < |s| ==> IsAsciiDigit(s[i])
  }

  function DigitsValue(s: string): nat
    requires AllDigits(s)
  {
    if s == [] then 0
    else DigitsValue(s[..|s| - 1]) * 10 + (s[|s| - 1] as int - '0' as int)
  }

  const INT_MIN: int := -0x8000_0000
  const INT_MAX: int := 0x7FFF_FFFF
  const LONG_MIN: int := -0x8000_0000_0000_0000
  const LONG_MAX: int := 0x7FFF_FFFF_FFFF_FFFF

  /**
   * Decimal parsing as `Integer.parseInt` / `Long.parseLong` do it: an
   * optional '+' or '-', then one or more digits, and the value must lie
   * in [lo, hi]; anything else is a NumberFormatException (`None`).
   */
  function ParseDecimal(s: string, lo: int, hi: int): (r: Option<int>)
    ensures r.Some? ==> lo <= r.value <= hi
    ensures s == [] ==> r.None?
  {
    if s == [] then None
    else
      var signed := s[0] == '-' || s[0] == '+';
      var body := if signed then s[1..] else s;
      if body == [] || !AllDigits(body) then None
      else
        var v: int := if s[0] == '-' then 0 - (DigitsValue(body) as int) else DigitsValue(body);
        if lo <= v <= hi then Some(v) else None
  }

  function ParseInt(s: string): (r: Option<int>)
    ensures r.Some? ==> INT_MIN <= r.value <= INT_MAX
  {
    ParseDecimal(s, INT_MIN, INT_MAX)
  }

  function ParseLong(s: string): (r: Option<int>)
    ensures r.Some? ==> LONG_MIN <= r.value <= LONG_MAX
  {
    ParseDecimal(s, LONG_MIN, LONG_MAX)
  }

  function DigitChar(d: nat): char
    requires d < 10
  {
    ('0' as int + d) as char
  }

  /** The decimal text of a natural number, as `String.valueOf(int)` prints it. */
  function NatToString(n: nat): (r: string)
    ensures r != [] && AllDigits(r)
  {
    if n < 10 then [DigitChar(n)] else NatToString(n / 10) + [DigitChar(n % 10)]
  }

  lemma {:induction false} NatToStringValue(n: nat)
    ensures DigitsValue(NatToString(n)) == n
  {
    if n >= 10 {
      NatToStringValue(n / 10);
      var s := NatToString(n);
      assert s[..|s| - 1] == NatToString(n / 10);
    }
  }

  /** Printing a non-negative int and parsing it back gives the same int. */
  lemma ParseIntOfNatToString(n: nat)
    requires n <= INT_MAX
    ensures ParseInt(NatToString(n)) == Some(n)
  {
    NatToStringValue(n);
    var s := NatToString(n);
    assert IsAsciiDigit(s[0]);
  }

  // ---------------------------------------------------------------------
  // Double.parseDouble: which strings it accepts

  /** The end of the run of ASCII digits that starts at `i` (`\d*`). */
  function SkipDigits(s: string, i: nat): (j: nat)
    requires i <= |s|
    ensures i <= j <= |s|
    ensures forall k :: i <= k < j ==> IsAsciiDigit(s[k])
    ensures j == |s| || !IsAsciiDigit(s[j])
    decreases |s| - i
  {
    if i == |s| || !IsAsciiDigit(s[i]) then i else SkipDigits(s, i + 1)
  }

  predicate IsAsciiHexDigit(c: char) {
    IsAsciiDigit(c) || ('a' <= c <= 'f') || ('A' <= c <= 'F')
  }

  /** The end of the run of ASCII hex digits that starts at `i`. */
  function SkipHexDigits(s: string, i: nat): (j: nat)
    requires i <= |s|
    ensures i <= j <= |s|
    ensures forall k :: i <= k < j ==> IsAsciiHexDigit(s[k])
    ensures j == |s| || !IsAsciiHexDigit(s[j])
    decreases |s| - i
  {
    if i == |s| || !IsAsciiHexDigit(s[i]) then i else SkipHexDigits(s, i + 1)
  }

  /** Nothing is left at `i` but at most one type suffix `f`, `F`, `d` or `D`. */
  predicate AtFloatEnd(s: string, i: nat) {
    i == |s| || (i == |s| - 1 && (s[i] == 'f' || s[i] == 'F' || s[i] == 'd' || s[i] == 'D'))
  }

  /**
   * An exponent whose marker (`e`, `E`, `p` or `P`) is at `i`: an
   * optional sign and one or more decimal digits, then the end of the
   * number.
   */
  predicate ExponentThenEnd(s: string, i: nat)
    requires i < |s|
  {
    var j := if i + 1 < |s| && (s[i + 1] == '+' || s[i + 1] == '-') then i + 2 else i + 1;
    j <= |s| && SkipDigits(s, j) > j && AtFloatEnd(s, SkipDigits(s, j))
  }

  /**
   * A decimal number from `i`: digits with at most one point and at
   * least one digit, an optional `e` exponent, an optional type suffix.
   */
  predicate IsDecimalFloatAt(s: string, i: nat)
    requires i <= |s|
  {
    var a := SkipDigits(s, i);
    var dot := a < |s| && s[a] == '.';
    var b := if dot then SkipDigits(s, a + 1) else a;
    && (a > i || b > a + 1)
    && (if b < |s| && (s[b] == 'e' || s[b] == 'E') then ExponentThenEnd(s, b) else AtFloatEnd(s, b))
  }

  /**
   * A hexadecimal number after its `0x`: hex digits with at most one
   * point and at least one hex digit, then a binary exponent `p`, which
   * is required, then an optional type suffix.
   */
  predicate IsHexFloatAt(s: string, i: nat)
    requires i <= |s|
  {
    var a := SkipHexDigits(s, i);
    var dot := a < |s| && s[a] == '.';
    var b := if dot then SkipHexDigits(s, a + 1) else a;
    && (a > i || b > a + 1)
    && b < |s| && (s[b] == 'p' || s[b] == 'P') && ExponentThenEnd(s, b)
  }

  /**
   * `Double.parseDouble` succeeds: after `trim` and an optional sign
   * come `NaN`, `Infinity`, a hexadecimal number after `0x` or `0X`, or a
   * decimal number; anything else is a NumberFormatException.
   */
  predicate IsJavaDouble(s: string) {
    var t := Trim(s);
    var i := if |t| > 0 && (t[0] == '+' || t[0] == '-') then 1 else 0;
    && i < |t|
    && if t[i] == 'N' then |t| == i + 3 && t[i + 1] == 'a' && t[i + 2] == 'N'
       else if t[i] == 'I' then
         && |t| == i + 8 && t[i + 1] == 'n' && t[i + 2] == 'f' && t[i + 3] == 'i'
         && t[i + 4] == 'n' && t[i + 5] == 'i' && t[i + 6] == 't' && t[i + 7] == 'y'
       else if t[i] == '0' && i + 1 < |t| && (t[i + 1] == 'x' || t[i + 1] == 'X') then IsHexFloatAt(t, i + 2)
       else IsDecimalFloatAt(t, i)
  }

  /** A run of decimal digits, such as a rate of `1`, is a double. */
  lemma DigitsAreDouble(s: string)
    requires s != [] && AllDigits(s)
    ensures IsJavaDouble(s)
  {
    assert IsAsciiDigit(s[0]) && IsAsciiDigit(s[|s| - 1]);
    TrimOfTrimmed(s);
    DigitsRunToEnd(s, 0);
  }

  lemma {:induction false} DigitsRunToEnd(s: string, i: nat)
    requires i <= |s| && AllDigits(s)
    ensures SkipDigits(s, i) == |s|
    decreases |s| - i
  {
    if i < |s| {
      assert IsAsciiDigit(s[i]);
      DigitsRunToEnd(s, i + 1);
    }
  }

  /** Trimming only removes characters. */
  lemma TrimKeepsChars(s: string)
    ensures forall c :: c in Trim(s) ==> c in s
  {
    var l := TrimLeft(s);
    forall c | c in Trim(s) ensures c in s {
      var k :| 0 <= k < |Trim(s)| && Trim(s)[k] == c;
      assert Trim(s)[k] == l[k];
      assert l[k] == s[|s| - |l| + k];
    }
  }

  /**
   * Text without a decimal digit and without the `N` and `I` that start
   * `NaN` and `Infinity`, such as `abc`, is never a double: a decimal
   * number needs a digit and a hexadecimal one starts with `0`.
   */
  lemma NoDigitNotDouble(s: string)
    requires forall c :: c in s ==> !IsAsciiDigit(c) && c != 'N' && c != 'I'
    ensures !IsJavaDouble(s)
  {
    TrimKeepsChars(s);
    var t := Trim(s);
    var i := if |t| > 0 && (t[0] == '+' || t[0] == '-') then 1 else 0;
    if i < |t| {
      assert t[i] in t;
      if i + 1 < |t| {
        assert t[i + 1] in t;
      }
    }
  }

  // ---------------------------------------------------------------------
  // Machine arithmetic

  /** Two's-complement wrap-around of a 64-bit `long`. */
  function Wrap64(x: int): (r: int)
    ensures LONG_MIN <= r <= LONG_MAX
    ensures LONG_MIN <= x <= LONG_MAX ==> r == x
    ensures (r - x) % 0x1_0000_0000_0000_0000 == 0
  {
    (x - LONG_MIN) % 0x1_0000_0000_0000_0000 + LONG_MIN
  }

  /** Two's-complement wrap-around of a 32-bit `int`. */
  function Wrap32(x: int): (r: int)
    ensures INT_MIN <= r <= INT_MAX
    ensures INT_MIN <= x <= INT_MAX ==> r == x
    ensures (r - x) % 0x1_0000_0000 == 0
  {
    (x - INT_MIN) % 0x1_0000_0000 + INT_MIN
  }

  /** Java's integer division, which truncates toward zero. */
  function DivTrunc(a: int, b: int): (r: int)
    requires b > 0
    ensures a >= 0 ==> r == a / b
    ensures a < 0 ==> r == -((-a) / b)
  {
    if a >= 0 then a / b else -((-a) / b)
  }
}
