/**
 * `ScenarioMdParser`: compiles the lines of a scenario file into a
 * `Plan`. The per-line syntax helpers (`preprocessLine`,
 * `parseDurationToMs`, `parseLoopCount`, the fault type and
 * `buildPayloadExcludingControlTokens`) come first, then the per-tag step
 * parsers, then `parseFile` over a sequence of lines. Every
 * `IllegalArgumentException` is `Err(IllegalArgument)` and every uncaught
 * `NumberFormatException` is `Err(NumberFormat)`.
 */
module ScenarioMdParser {
  import opened Wrappers
  import opened JavaText
  import opened ScenarioSteps
  import FrameTokenParser

  // ---------------------------------------------------------------------
  // preprocessLine: the optional "1)" / "(1)" numbering prefix

  /** The end of the run of regex spaces that starts at `i` (`\s*`). */
  function SkipSpaces(s: string, i: nat): (j: nat)
    requires i <= |s|
    ensures i <= j <= |s|
    ensures forall k :: i <= k < j ==> IsRegexSpace(s[k])
    ensures j == |s| || !IsRegexSpace(s[j])
    decreases |s| - i
  {
    if i == |s| || !IsRegexSpace(s[i]) then i else SkipSpaces(s, i + 1)
  }

  /**
   * Where a match of `^\(?\d+\)?\s*\)\s*` ends in `s`, if the pattern
   * matches at all. The digit run is always taken whole (a shorter run
   * leaves a digit where a ')' is needed); an optional ')' right after the
   * digits is kept only if another ')' follows it, which is the
   * backtracking the regex engine performs.
   */
  function NumberPrefixEnd(s: string): (e: Option<nat>)
    ensures e.Some? ==> e.value <= |s|
  {
    var p := if s != [] && s[0] == '(' then 1 else 0;
    if p == |s| || !IsAsciiDigit(s[p]) then None
    else
      var q := SkipDigits(s, p);
      var r := if q < |s| && s[q] == ')' then SkipSpaces(s, q + 1) else q;
      if q < |s| && s[q] == ')' && r < |s| && s[r] == ')' then Some(SkipSpaces(s, r + 1))
      else if q < |s| && s[q] == ')' then Some(SkipSpaces(s, q + 1))
      else
        var r' := SkipSpaces(s, q);
        if r' < |s| && s[r'] == ')' then Some(SkipSpaces(s, r' + 1)) else None
  }

  /** `preprocessLine`: trim, drop a numbering prefix, trim again. */
  function PreprocessLine(raw: string): (r: string)
    ensures |r| <= |raw|
  {
    var s := Trim(raw);
    if s == [] then []
    else
      match NumberPrefixEnd(s)
      case None => Trim(s)
      case Some(e) => Trim(s[e..])
  }

  /** A line that does not start with a digit or '(' is only trimmed. */
  lemma PreprocessPlain(raw: string)
    requires var s := Trim(raw); s == [] || (s[0] != '(' && !IsAsciiDigit(s[0]))
    ensures PreprocessLine(raw) == Trim(raw)
  {
    TrimIdempotent(raw);
  }

  /** A digit run from `i` to `j` is exactly what `SkipDigits` skips. */
  lemma {:induction false} SkipDigitsRun(s: string, i: nat, j: nat)
    requires i <= j <= |s|
    requires forall k :: i <= k < j ==> IsAsciiDigit(s[k])
    requires j == |s| || !IsAsciiDigit(s[j])
    ensures SkipDigits(s, i) == j
    decreases j - i
  {
    if i < j {
      SkipDigitsRun(s, i + 1, j);
    }
  }

  /** A run of regex spaces from `i` to `j` is exactly what `SkipSpaces` skips. */
  lemma {:induction false} SkipSpacesRun(s: string, i: nat, j: nat)
    requires i <= j <= |s|
    requires forall k :: i <= k < j ==> IsRegexSpace(s[k])
    requires j == |s| || !IsRegexSpace(s[j])
    ensures SkipSpaces(s, i) == j
    decreases j - i
  {
    if i < j {
      SkipSpacesRun(s, i + 1, j);
    }
  }

  /** A non-empty string of ASCII digits. */
  predicate Numeral(d: string) {
    d != [] && AllDigits(d)
  }

  /** A run of plain spaces, possibly empty. */
  predicate Spaces(gap: string) {
    forall i :: 0 <= i < |gap| ==> gap[i] == ' '
  }

  /** The text after a numbering prefix: trimmed, not empty, not starting with ')'. */
  predicate LineRest(rest: string) {
    rest != [] && Trim(rest) == rest && rest[0] != ')'
  }

  /**
   * In `lead + d + ")" + gap + rest`, the digits start at `|lead|` and the
   * prefix match ends where `rest` begins.
   */
  lemma PrefixMatchEnd(lead: string, d: string, gap: string, rest: string)
    requires lead == [] || lead == "("
    requires Numeral(d) && Spaces(gap) && LineRest(rest)
    ensures var s := lead + d + ")" + gap + rest;
      NumberPrefixEnd(s) == Some(|lead| + |d| + 1 + |gap|)
  {
    var s := lead + d + ")" + gap + rest;
    PrefixDigits(lead, d, gap, rest);
    PrefixGap(lead, d, gap, rest);
    NumberPrefixAt(s, |lead|, |lead| + |d|, |lead| + |d| + 1 + |gap|);
  }

  /** The optional '(' and the digit run of `lead + d + ")" + gap + rest`. */
  lemma PrefixDigits(lead: string, d: string, gap: string, rest: string)
    requires lead == [] || lead == "("
    requires Numeral(d)
    ensures var s, p, q := lead + d + ")" + gap + rest, |lead|, |lead| + |d|;
      && (s[0] == '(' <==> p == 1) && IsAsciiDigit(s[p]) && SkipDigits(s, p) == q && s[q] == ')'
  {
    var s, p, q := lead + d + ")" + gap + rest, |lead|, |lead| + |d|;
    assert s[..p] == lead && s[p..q] == d && s[q] == ')';
    SkipDigitsRun(s, p, q);
  }

  /** The spaces after the ')' of `lead + d + ")" + gap + rest`. */
  lemma PrefixGap(lead: string, d: string, gap: string, rest: string)
    requires Spaces(gap) && LineRest(rest)
    ensures var s, q, r := lead + d + ")" + gap + rest, |lead| + |d|, |lead| + |d| + 1 + |gap|;
      r < |s| && s[r] == rest[0] && SkipSpaces(s, q + 1) == r
  {
    var s, q, r := lead + d + ")" + gap + rest, |lead| + |d|, |lead| + |d| + 1 + |gap|;
    assert s[q + 1..r] == gap && s[r] == rest[0] && !IsTrimmable(rest[0]);
    SkipSpacesRun(s, q + 1, r);
  }

  /** Digits from `p` to `q`, then ')', then spaces up to a character other than ')' at `r`. */
  lemma NumberPrefixAt(s: string, p: nat, q: nat, r: nat)
    requires p < q < r < |s| && (s[0] == '(' <==> p == 1) && (p == 0 || p == 1)
    requires IsAsciiDigit(s[p]) && SkipDigits(s, p) == q && s[q] == ')'
    requires SkipSpaces(s, q + 1) == r && s[r] != ')'
    ensures NumberPrefixEnd(s) == Some(r)
  {
  }

  /** After `d)` or `(d)` and some spaces, the rest of the line is what remains. */
  lemma PreprocessNumbered(lead: string, d: string, gap: string, rest: string)
    requires lead == [] || lead == "("
    requires Numeral(d) && Spaces(gap) && LineRest(rest)
    ensures PreprocessLine(lead + d + ")" + gap + rest) == rest
  {
    var s := lead + d + ")" + gap + rest;
    PrefixMatchEnd(lead, d, gap, rest);
    assert !IsTrimmable(s[0]) by { assert s[0] == if lead == [] then d[0] else '('; }
    assert s[|s| - 1] == rest[|rest| - 1];
    TrimOfTrimmed(s);
    assert s[|lead| + |d| + 1 + |gap|..] == rest;
  }

  // ---------------------------------------------------------------------
  // parseDurationToMs

  /**
   * `parseDurationToMs`: "<n>ms" is n milliseconds, "<n>s" and a bare
   * "<n>" are n seconds. The suffix is matched after lower-casing, the
   * number is a `Long.parseLong` and the product by 1000 wraps like a
   * Java `long`.
   */
  /** `endsWith("ms")`, letter by letter. */
  predicate HasMsUnit(v: string) {
    |v| >= 2 && v[|v| - 2] == 'm' && v[|v| - 1] == 's'
  }

  /** `endsWith("s")`. */
  predicate HasSUnit(v: string) {
    |v| >= 1 && v[|v| - 1] == 's'
  }

  function ParseDurationToMs(s: string): (r: Result<int>)
    ensures r.Ok? ==> LONG_MIN <= r.value <= LONG_MAX
    ensures r.Err? ==> r.error == NumberFormat
  {
    var v := ToLower(Trim(s));
    var n := if HasMsUnit(v) then ParseLong(Trim(v[..|v| - 2]))
             else if HasSUnit(v) then ParseLong(Trim(v[..|v| - 1]))
             else ParseLong(Trim(v));
    if n.None? then Err(NumberFormat)
    else if HasMsUnit(v) then Ok(n.value)
    else Ok(Wrap64(n.value * 1000))
  }

  /** A numeral is read back as its value, and trimming leaves it alone. */
  lemma ParseLongNumeral(d: string)
    requires Numeral(d) && DigitsValue(d) <= LONG_MAX
    ensures Trim(d) == d
    ensures ParseLong(d) == Some(DigitsValue(d))
    ensures DigitsValue(d) <= INT_MAX ==> ParseInt(d) == Some(DigitsValue(d))
  {
    assert IsAsciiDigit(d[0]) && IsAsciiDigit(d[|d| - 1]);
    TrimOfTrimmed(d);
  }

  /** Lower-casing leaves digits and lower-case letters alone. */
  lemma LowerNumeralWithUnit(d: string, unit: string)
    requires Numeral(d) && (unit == "ms" || unit == "s" || unit == [])
    ensures ToLower(d + unit) == d + unit
    ensures Trim(d + unit) == d + unit
  {
    var w := d + unit;
    assert forall i :: 0 <= i < |w| ==> LowerChar(w[i]) == w[i] by {
      forall i | 0 <= i < |w| ensures LowerChar(w[i]) == w[i] {
        if i < |d| { assert IsAsciiDigit(d[i]); } else { assert w[i] == unit[i - |d|]; }
      }
    }
    assert !IsTrimmable(w[0]) by { assert w[0] == d[0] && IsAsciiDigit(d[0]); }
    assert !IsTrimmable(w[|w| - 1]) by {
      if unit == [] { assert w[|w| - 1] == d[|d| - 1] && IsAsciiDigit(d[|d| - 1]); }
    }
    TrimOfTrimmed(w);
  }

  /** "<n>ms" is n milliseconds. */
  lemma DurationMillis(d: string, unit: string)
    requires unit == "ms"
    requires Numeral(d) && DigitsValue(d) <= LONG_MAX
    ensures ParseDurationToMs(d + unit) == Ok(DigitsValue(d))
  {
    var v := d + unit;
    assert ToLower(Trim(v)) == v by { LowerNumeralWithUnit(d, unit); }
    assert HasMsUnit(v) && v[..|v| - 2] == d;
    assert ParseLong(Trim(d)) == Some(DigitsValue(d)) by { ParseLongNumeral(d); }
  }

  /** "<n>s" is n seconds, in milliseconds. */
  lemma DurationSeconds(d: string, unit: string)
    requires unit == "s"
    requires Numeral(d) && DigitsValue(d) <= LONG_MAX
    ensures ParseDurationToMs(d + unit) == Ok(Wrap64(DigitsValue(d) * 1000))
  {
    var v := d + unit;
    assert ToLower(Trim(v)) == v by { LowerNumeralWithUnit(d, unit); }
    assert !HasMsUnit(v) by { assert v[|v| - 2] == d[|d| - 1] && IsAsciiDigit(d[|d| - 1]); }
    assert HasSUnit(v) && v[..|v| - 1] == d;
    assert ParseLong(Trim(d)) == Some(DigitsValue(d)) by { ParseLongNumeral(d); }
  }

  /** A bare number is read as seconds, exactly as with the "s" suffix. */
  lemma DurationBareIsSeconds(d: string)
    requires Numeral(d) && DigitsValue(d) <= LONG_MAX
    ensures ParseDurationToMs(d) == Ok(Wrap64(DigitsValue(d) * 1000))
    ensures ParseDurationToMs(d) == ParseDurationToMs(d + "s")
  {
    LowerNumeralWithUnit(d, []);
    assert d + [] == d;
    ParseLongNumeral(d);
    assert !HasMsUnit(d) && !HasSUnit(d) by { assert IsAsciiDigit(d[|d| - 1]); }
    DurationSeconds(d, "s");
  }

  /** Blank text is not a duration. */
  lemma DurationBlank(s: string)
    requires Trim(s) == []
    ensures ParseDurationToMs(s) == Err(NumberFormat)
  {
  }

  // ---------------------------------------------------------------------
  // parseLoopCount

  /**
   * `v.toLowerCase().startsWith("count=")`, character by character: only
   * 'A'..'Z' change under lower-casing, so '=' must be itself.
   */
  predicate HasCountKey(v: string) {
    |v| >= 6 && LowerChar(v[0]) == 'c' && LowerChar(v[1]) == 'o' && LowerChar(v[2]) == 'u'
    && LowerChar(v[3]) == 'n' && LowerChar(v[4]) == 't' && v[5] == '='
  }

  /** `parseLoopCount`: "count=<n>" or "<n>", positive; every failure is an IllegalArgumentException. */
  function ParseLoopCount(loopValue: string): (r: Result<int>)
    ensures r.Ok? ==> 0 < r.value <= INT_MAX
    ensures r.Err? ==> r.error == IllegalArgument
  {
    var v := Trim(loopValue);
    var w := if HasCountKey(v) then Trim(v[6..]) else v;
    match ParseInt(w)
    case None => Err(IllegalArgument)
    case Some(c) => if c <= 0 then Err(IllegalArgument) else Ok(c)
  }

  /** The count key agrees with lower-casing the whole text. */
  lemma HasCountKeyIff(v: string, key: string)
    requires key == "count="
    ensures HasCountKey(v) <==> StartsWith(ToLower(v), key)
  {
    if |v| >= 6 {
      assert ToLower(v)[..6] == ToLower(v[..6]);
    }
  }

  /** A trimmed numeral, read as a count. */
  lemma LoopCountOfNumeral(d: string, n: int)
    requires Numeral(d) && ParseInt(d) == Some(n) && n > 0
    ensures ParseLoopCount(d) == Ok(n)
  {
    assert Trim(d) == d by { assert IsAsciiDigit(d[0]) && IsAsciiDigit(d[|d| - 1]); TrimOfTrimmed(d); }
    assert !HasCountKey(d) by { if |d| >= 6 { assert IsAsciiDigit(d[0]); } }
  }

  /** A bare positive number is the loop count. */
  lemma LoopCountBare(d: string)
    requires Numeral(d) && 0 < DigitsValue(d) <= INT_MAX
    ensures ParseLoopCount(d) == Ok(DigitsValue(d))
  {
    ParseLongNumeral(d);
    LoopCountOfNumeral(d, DigitsValue(d));
  }

  /** "count=" in any letter case, then a trimmed numeral `d`. */
  lemma LoopCountAfterKey(s: string, d: string, n: int)
    requires HasCountKey(s) && s[6..] == d
    requires Numeral(d) && ParseInt(d) == Some(n) && n > 0
    ensures ParseLoopCount(s) == Ok(n)
  {
    assert Trim(d) == d by { assert IsAsciiDigit(d[0]) && IsAsciiDigit(d[|d| - 1]); TrimOfTrimmed(d); }
    assert Trim(s) == s by {
      assert s[|s| - 1] == d[|d| - 1] && IsAsciiDigit(d[|d| - 1]);
      TrimOfTrimmed(s);
    }
  }

  /** "count=<n>", with the key in any letter case, gives the same count as "<n>". */
  lemma LoopCountPrefixed(key: string, d: string)
    requires |key| == 6 && HasCountKey(key)
    requires Numeral(d) && 0 < DigitsValue(d) <= INT_MAX
    ensures ParseLoopCount(key + d) == Ok(DigitsValue(d))
  {
    ParseLongNumeral(d);
    var s := key + d;
    assert HasCountKey(s) && s[6..] == d;
    LoopCountAfterKey(s, d, DigitsValue(d));
  }

  // ---------------------------------------------------------------------
  // FaultStep.Type.valueOf

  /** The Java name of each fault type. */
  function FaultTypeName(t: FaultType): string {
    match t
    case DELAY => "DELAY"
    case FRAGMENT => "FRAGMENT"
    case DROP => "DROP"
    case CORRUPT => "CORRUPT"
    case DISCONNECT => "DISCONNECT"
    case CLEAR => "CLEAR"
  }

  /** `FaultStep.Type.valueOf(typeStr.trim().toUpperCase())`; an unknown name is an IllegalArgumentException. */
  function ParseFaultType(s: string): (r: Result<FaultType>)
    ensures r.Ok? ==> FaultTypeName(r.value) == ToUpper(Trim(s))
    ensures r.Err? ==> r.error == IllegalArgument
  {
    var u := ToUpper(Trim(s));
    if u == "DELAY" then Ok(DELAY)
    else if u == "FRAGMENT" then Ok(FRAGMENT)
    else if u == "DROP" then Ok(DROP)
    else if u == "CORRUPT" then Ok(CORRUPT)
    else if u == "DISCONNECT" then Ok(DISCONNECT)
    else if u == "CLEAR" then Ok(CLEAR)
    else Err(IllegalArgument)
  }

  /** Every fault type is recognised by its name, in any letter case. */
  lemma FaultTypeRoundTrip(t: FaultType, s: string)
    requires ToUpper(Trim(s)) == FaultTypeName(t)
    ensures ParseFaultType(s) == Ok(t)
  {
  }

  // ---------------------------------------------------------------------
  // buildPayloadExcludingControlTokens

  /** The control keys an emit line may carry besides its payload: every, window, count, jitter. */
  predicate IsControlKey(k: string) {
    || (|k| == 5 && k[0] == 'e' && k[1] == 'v' && k[2] == 'e' && k[3] == 'r' && k[4] == 'y')
    || (|k| == 6 && k[0] == 'w' && k[1] == 'i' && k[2] == 'n' && k[3] == 'd' && k[4] == 'o' && k[5] == 'w')
    || (|k| == 5 && k[0] == 'c' && k[1] == 'o' && k[2] == 'u' && k[3] == 'n' && k[4] == 't')
    || (|k| == 6 && k[0] == 'j' && k[1] == 'i' && k[2] == 't' && k[3] == 't' && k[4] == 'e' && k[5] == 'r')
  }

  /** A token `k=...` whose trimmed, lower-cased key is a control key. */
  predicate IsControlToken(t: string) {
    var eq := IndexOfChar(t, '=');
    eq > 0 && IsControlKey(ToLower(Trim(t[..eq])))
  }

  /**
   * `body.trim().split("\\s+")`. For a blank body `split` yields one empty
   * piece, which appends nothing to the payload; `Words` yields none, with
   * the same result.
   */
  function PayloadTokens(body: string): (ts: seq<string>)
    ensures forall k :: 0 <= k < |ts| ==> ts[k] != []
  {
    Words(Trim(body), IsRegexSpace)
  }

  /** The tokens that are not control tokens, in their original order. */
  function Kept(ts: seq<string>): (ks: seq<string>)
    ensures |ks| <= |ts|
  {
    if ts == [] then []
    else if IsControlToken(ts[|ts| - 1]) then Kept(ts[..|ts| - 1])
    else Kept(ts[..|ts| - 1]) + [ts[|ts| - 1]]
  }

  /** The `StringBuilder` result: a space before every token but the first. */
  function JoinSpaced(ts: seq<string>): string {
    if ts == [] then []
    else
      var p := JoinSpaced(ts[..|ts| - 1]);
      if p == [] then ts[|ts| - 1] else p + " " + ts[|ts| - 1]
  }

  /** The payload of an emit line: its body without the control tokens. */
  function BuildPayload(body: string): string {
    JoinSpaced(Kept(PayloadTokens(body)))
  }

  /** `buildPayloadExcludingControlTokens(body, {every, window, count, jitter})`. */
  method BuildPayloadExcludingControlTokens(body: string) returns (payload: string)
    ensures payload == BuildPayload(body)
  {
    var tokens := PayloadTokens(body);
    payload := [];
    ghost var kept: seq<string> := [];
    for i := 0 to |tokens|
      invariant kept == Kept(tokens[..i])
      invariant payload == JoinSpaced(kept)
    {
      var t := tokens[i];
      if IsControlToken(t) {
        assert Kept(tokens[..i + 1]) == kept by {
          KeptStep(tokens, i);
        }
        continue;
      }
      assert Kept(tokens[..i + 1]) == kept + [t] by {
        KeptStep(tokens, i);
      }
      JoinSpacedSnoc(kept, t);
      if payload != [] {
        payload := payload + " ";
      }
      payload := payload + t;
      kept := kept + [t];
    }
    assert tokens[..|tokens|] == tokens;
  }

  lemma KeptStep(ts: seq<string>, i: nat)
    requires i < |ts|
    ensures Kept(ts[..i + 1]) == if IsControlToken(ts[i]) then Kept(ts[..i]) else Kept(ts[..i]) + [ts[i]]
  {
    assert ts[..i + 1][..i] == ts[..i];
  }

  lemma JoinSpacedSnoc(ts: seq<string>, t: string)
    ensures JoinSpaced(ts + [t]) == if JoinSpaced(ts) == [] then t else JoinSpaced(ts) + " " + t
  {
    assert (ts + [t])[..|ts|] == ts;
  }

  /** A token is kept exactly when it is in the input and is not a control token. */
  lemma {:induction false} KeptMembers(ts: seq<string>)
    ensures forall t :: t in Kept(ts) <==> t in ts && !IsControlToken(t)
  {
    if ts != [] {
      KeptMembers(ts[..|ts| - 1]);
      assert ts == ts[..|ts| - 1] + [ts[|ts| - 1]];
    }
  }

  /** Without control tokens nothing is dropped. */
  lemma {:induction false} KeptAll(ts: seq<string>)
    requires forall k :: 0 <= k < |ts| ==> !IsControlToken(ts[k])
    ensures Kept(ts) == ts
  {
    if ts != [] {
      var init, last := ts[..|ts| - 1], ts[|ts| - 1];
      assert Kept(init) == init by { KeptAll(init); }
      assert Kept(ts) == Kept(init) + [last] && init + [last] == ts;
    }
  }

  /** Tokens as `split` produces them: non-empty, without a regex space. */
  predicate SplitTokens(ts: seq<string>) {
    forall k :: 0 <= k < |ts| ==> ts[k] != [] && forall i :: 0 <= i < |ts[k]| ==> !IsRegexSpace(ts[k][i])
  }

  lemma {:induction false} JoinSpacedEmpty(ts: seq<string>)
    requires SplitTokens(ts)
    ensures JoinSpaced(ts) == [] <==> ts == []
  {
    if ts != [] {
      assert ts[|ts| - 1] != [];
    }
  }

  /** Joining from the left equals joining from the right. */
  lemma {:induction false} JoinSpacedCons(ts: seq<string>)
    requires |ts| >= 2 && SplitTokens(ts)
    ensures JoinSpaced(ts) == ts[0] + " " + JoinSpaced(ts[1..])
    decreases |ts|
  {
    var n := |ts|;
    var init := ts[..n - 1];
    JoinSpacedEmpty(init);
    if n == 2 {
      assert init == [ts[0]] && ts[1..] == [ts[1]];
      assert JoinSpaced([ts[0]]) == ts[0] by { assert [ts[0]][..0] == []; }
      assert JoinSpaced([ts[1]]) == ts[1] by { assert [ts[1]][..0] == []; }
    } else {
      JoinSpacedCons(init);
      assert init[1..] == ts[1..][..n - 2];
      JoinSpacedEmpty(ts[1..][..n - 2]);
    }
  }

  /** Splitting the joined tokens gives the tokens back. */
  lemma {:induction false} JoinSpacedWords(ts: seq<string>)
    requires SplitTokens(ts)
    ensures Words(JoinSpaced(ts), IsRegexSpace) == ts
    decreases |ts|
  {
    if |ts| == 1 {
      assert ts[..0] == [];
      WordsOfWord(ts[0], IsRegexSpace);
    } else if |ts| >= 2 {
      JoinSpacedCons(ts);
      JoinSpacedWords(ts[1..]);
      WordsCons(ts[0], ' ', JoinSpaced(ts[1..]), IsRegexSpace);
      assert ts[0] + " " + JoinSpaced(ts[1..]) == ts[0] + [' '] + JoinSpaced(ts[1..]);
    }
  }

  lemma {:induction false} KeptSplit(ts: seq<string>)
    requires SplitTokens(ts)
    ensures SplitTokens(Kept(ts))
  {
    if ts != [] {
      KeptSplit(ts[..|ts| - 1]);
    }
  }

  lemma PayloadTokenChar(body: string, k: nat, i: nat)
    requires k < |PayloadTokens(body)| && i < |PayloadTokens(body)[k]|
    ensures !IsRegexSpace(PayloadTokens(body)[k][i])
  {
    WordHasNoSeparator(Trim(body), IsRegexSpace, k, i);
  }

  /**
   * The emit payload splits back into exactly the non-control tokens of
   * the body, in order: control tokens are removed and nothing else is.
   */
  lemma PayloadWords(body: string)
    ensures Words(BuildPayload(body), IsRegexSpace) == Kept(PayloadTokens(body))
  {
    var ts := PayloadTokens(body);
    forall k | 0 <= k < |ts|
      ensures ts[k] != [] && forall i :: 0 <= i < |ts[k]| ==> !IsRegexSpace(ts[k][i])
    {
      forall i | 0 <= i < |ts[k]|
        ensures !IsRegexSpace(ts[k][i])
      {
        PayloadTokenChar(body, k, i);
      }
    }
    KeptSplit(ts);
    JoinSpacedWords(Kept(ts));
  }

  // ---------------------------------------------------------------------
  // Looking up keys

  /** `map.get(key)`, with null as `None`. */
  function Get(m: map<string, string>, key: string): (r: Option<string>)
    ensures r.Some? <==> key in m
    ensures r.Some? ==> r.value == m[key]
  {
    if key in m then Some(m[key]) else None
  }

  /** `v != null && !v.isBlank()`. */
  predicate Present(v: Option<string>) {
    v.Some? && !IsBlank(v.value)
  }

  // ---------------------------------------------------------------------
  // parseWaitStep

  /** `parseWaitStep(body)`: a `[TcToEqp]` line whose body has the token map `m`. */
  function WaitStepOf(m: map<string, string>): (r: Result<Step>)
    ensures && (!Present(Get(m, "CMD")) ==> r == Err(IllegalArgument))
      && (Present(Get(m, "CMD")) && !Present(Get(m, "TIMEOUT")) ==> r == Ok(WaitCmd(ToUpper(Trim(m["CMD"])), None)))
      && (r.Ok? ==> r.value.WaitCmd? && r.value.expectedCmdUpper == ToUpper(Trim(m["CMD"])))
      && (r.Ok? && r.value.timeoutOverrideSec.Some? ==> r.value.timeoutOverrideSec.value > 0)
  {
    var cmd := Get(m, "CMD");
    if !Present(cmd) then Err(IllegalArgument)
    else
      var expected := ToUpper(Trim(cmd.value));
      var timeout := Get(m, "TIMEOUT");
      if !Present(timeout) then NewWaitCmd(Some(expected), None)
      else
        match ParseDurationToMs(timeout.value)
        case Err(e) => Err(e)
        case Ok(ms) =>
          var sec := DivTrunc(ms, 1000);
          if sec <= 0 then Err(IllegalArgument) else NewWaitCmd(Some(expected), Some(sec))
  }

  /** The command a wait step expects is already upper case. */
  lemma WaitCommandIsUpper(m: map<string, string>)
    requires WaitStepOf(m).Ok?
    ensures var c := WaitStepOf(m).value.expectedCmdUpper; ToUpper(c) == c
  {
    assert WaitStepOf(m).value.expectedCmdUpper == ToUpper(Trim(m["CMD"]));
    FrameTokenParser.UpperIdempotent(Trim(m["CMD"]));
  }

  /** A timeout shorter than one second truncates to zero and is rejected. */
  lemma WaitSubSecondTimeoutRejected(m: map<string, string>)
    requires Present(Get(m, "CMD")) && Present(Get(m, "TIMEOUT"))
      && ParseDurationToMs(m["TIMEOUT"]).Ok? && 0 <= ParseDurationToMs(m["TIMEOUT"]).value < 1000
    ensures WaitStepOf(m) == Err(IllegalArgument)
  {
  }

  // ---------------------------------------------------------------------
  // parseEmitStep

  /** The `count=` value of an emit: `forever` in any case, or a positive int. */
  function EmitCount(countStr: string): (r: Result<Count>)
    ensures (r.Ok? && r.value.Forever?) <==> EqualsIgnoreCase(countStr, "forever")
    ensures r.Ok? && r.value.Fixed? ==> r.value.value > 0 && ParseInt(Trim(countStr)) == Some(r.value.value)
    ensures !EqualsIgnoreCase(countStr, "forever") && ParseInt(Trim(countStr)).None? ==> r == Err(IllegalArgument)
    ensures r.Err? ==> r.error == IllegalArgument
  {
    if EqualsIgnoreCase(countStr, "forever") then Ok(Forever)
    else
      match ParseInt(Trim(countStr))
      case None => Err(IllegalArgument)
      case Some(c) => NewCountFixed(c)
  }

  /** The mode and period of an emit: `every=` wins over `window=`. */
  function EmitTiming(m: map<string, string>): (r: Result<(EmitMode, int)>)
    ensures "EVERY" in m ==> r.Ok? == ParseDurationToMs(m["EVERY"]).Ok?
    ensures "EVERY" !in m && "WINDOW" in m ==> r.Ok? == ParseDurationToMs(m["WINDOW"]).Ok?
    ensures "EVERY" !in m && "WINDOW" !in m ==> r == Err(IllegalArgument)
    ensures r.Ok? ==> (r.value.0 == INTERVAL <==> "EVERY" in m)
  {
    if "EVERY" in m then
      match ParseDurationToMs(m["EVERY"])
      case Err(e) => Err(e)
      case Ok(ms) => Ok((INTERVAL, ms))
    else if "WINDOW" in m then
      match ParseDurationToMs(m["WINDOW"])
      case Err(e) => Err(e)
      case Ok(ms) => Ok((WINDOW, ms))
    else Err(IllegalArgument)
  }

  /** The optional `jitter=` of an emit; a negative jitter is clamped to zero. */
  function EmitJitter(m: map<string, string>): (r: Result<Option<int>>)
    ensures !Present(Get(m, "JITTER")) ==> r == Ok(None)
    ensures Present(Get(m, "JITTER")) ==> r.Ok? == ParseDurationToMs(m["JITTER"]).Ok?
    ensures r.Ok? && r.value.Some? ==> r.value.value == Max0(ParseDurationToMs(m["JITTER"]).value)
  {
    var j := Get(m, "JITTER");
    if !Present(j) then Ok(None)
    else
      match ParseDurationToMs(j.value)
      case Err(e) => Err(e)
      case Ok(ms) => Ok(Some(if ms < 0 then 0 else ms))
  }

  function Max0(x: int): (r: nat)
    ensures r >= x && (x >= 0 ==> r == x)
  {
    if x < 0 then 0 else x
  }

  /** `parseEmitStep(body, map)`: count, then timing, then jitter, then payload. */
  function EmitStepOf(body: string, m: map<string, string>): (r: Result<Step>)
    ensures !Present(Get(m, "COUNT")) ==> r == Err(IllegalArgument)
    ensures r.Ok? ==> r.value.Emit? && ValidStep(r.value)
    ensures r.Ok? ==> r.value.template == BuildPayload(body) && !IsBlank(r.value.template)
    ensures r.Ok? ==> (r.value.mode == INTERVAL <==> "EVERY" in m)
    ensures r.Ok? ==> (r.value.count.Forever? <==> EqualsIgnoreCase(m["COUNT"], "forever"))
    ensures r.Ok? && r.value.emitJitterMs.Some? ==> r.value.emitJitterMs.value >= 0
    ensures r.Ok? ==> (r.value.emitJitterMs.Some? <==> Present(Get(m, "JITTER")))
  {
    var countStr := Get(m, "COUNT");
    if !Present(countStr) then Err(IllegalArgument)
    else
      match EmitCount(countStr.value)
      case Err(e) => Err(e)
      case Ok(count) =>
        match EmitTiming(m)
        case Err(e) => Err(e)
        case Ok(timing) =>
          match EmitJitter(m)
          case Err(e) => Err(e)
          case Ok(jitter) =>
            var payload := BuildPayload(body);
            if IsBlank(payload) then Err(IllegalArgument)
            else NewEmit(Some(timing.0), timing.1, Some(count), Some(payload), jitter)
  }

  // ---------------------------------------------------------------------
  // parseEqpToTcStep

  /**
   * `parseEqpToTcStep(body)`, `m` being the token map of `body`: an emit
   * when `every=` or `window=` is given, otherwise a send of the whole
   * body, control tokens included.
   */
  function EqpToTcStepOf(body: string, m: map<string, string>): (r: Result<Step>)
    ensures && ("EVERY" in m || "WINDOW" in m ==> r == EmitStepOf(body, m))
      && ("EVERY" !in m && "WINDOW" !in m ==> (r.Ok? <==> !IsBlank(body)))
      && ("EVERY" !in m && "WINDOW" !in m && r.Ok? ==> r.value == Send(body))
  {
    if "EVERY" in m || "WINDOW" in m then EmitStepOf(body, m)
    else if IsBlank(body) then Err(IllegalArgument)
    else NewSend(Some(body))
  }

  // ---------------------------------------------------------------------
  // parseSimStep

  /**
   * `parseSimStep(body)`, `m` being the token map of `body`. The keys are
   * tried in the order sleep, label, goto, loop, fault, so a body with a
   * non-blank `goto=` is a goto even when it also has `loop=`. A `loop=`
   * therefore only arrives here without a usable `goto=`, and is rejected
   * whether or not its count parses.
   */
  function SimStepOf(body: string, m: map<string, string>): (r: Result<Step>)
    ensures IsBlank(body) ==> r == Err(IllegalArgument)
    ensures r.Ok? ==> ValidStep(r.value)
    ensures r.Ok? ==> r.value.Sleep? || r.value.Label? || r.value.Goto? || r.value.FaultStep?
    ensures r.Ok? && r.value.FaultStep? ==> ParsedFault(r.value.fault)
  {
    if IsBlank(body) then Err(IllegalArgument)
    else if "SLEEP" in m then
      match ParseDurationToMs(m["SLEEP"])
      case Err(e) => Err(e)
      case Ok(ms) => NewSleep(ms)
    else if Present(Get(m, "LABEL")) then NewLabel(Some(Trim(m["LABEL"])))
    else if Present(Get(m, "GOTO")) then NewGoto(Some(Trim(m["GOTO"])))
    else if "LOOP" in m then Err(IllegalArgument)
    else if "FAULT" in m then FaultStepOf(m)
    else Err(IllegalArgument)
  }

  /** A `goto=` wins over a `loop=` on the same line. */
  lemma SimGotoWinsOverLoop(body: string, m: map<string, string>)
    requires !IsBlank(body) && "SLEEP" !in m && !Present(Get(m, "LABEL")) && Present(Get(m, "GOTO"))
    requires Trim(m["GOTO"]) != []
    ensures SimStepOf(body, m) == Ok(Goto(Trim(m["GOTO"])))
  {
    TrimIdempotent(m["GOTO"]);
  }

  /** A `[Sim]` line never compiles to a loop step. */
  lemma SimNeverLoops(body: string, m: map<string, string>)
    requires "LOOP" in m && "SLEEP" !in m && !Present(Get(m, "LABEL"))
    ensures SimStepOf(body, m).Err? || SimStepOf(body, m).value.Goto?
  {
  }

  // ---------------------------------------------------------------------
  // parseFaultStep

  /** The type-specific fields of a `FaultStep`. */
  datatype FaultParams = FaultParams(
    delayMs: Option<int>,
    jitterMs: Option<int>,
    minParts: Option<int>,
    maxParts: Option<int>,
    rate: Option<string>,
    protectFraming: Option<bool>,
    afterMs: Option<int>,
    downMs: Option<int>)

  const NoParams := FaultParams(None, None, None, None, None, None, None, None)

  function ParamsOf(f: Fault): FaultParams {
    FaultParams(f.delayMs, f.jitterMs, f.minParts, f.maxParts, f.rate, f.protectFraming, f.afterMs, f.downMs)
  }

  /** The fields a fault type requires are set, and no other type-specific field is. */
  predicate ParamsFit(t: FaultType, p: FaultParams) {
    match t
    case DELAY => p.delayMs.Some? && p == NoParams.(delayMs := p.delayMs, jitterMs := p.jitterMs)
    case FRAGMENT =>
      && p.minParts.Some? && p.maxParts.Some? && 0 < p.minParts.value <= p.maxParts.value
      && p == NoParams.(minParts := p.minParts, maxParts := p.maxParts)
    case DROP => p.rate.Some? && p == NoParams.(rate := p.rate)
    case CORRUPT => p.rate.Some? && p.protectFraming.Some? && p == NoParams.(rate := p.rate, protectFraming := p.protectFraming)
    case DISCONNECT => p.afterMs.Some? && p == NoParams.(afterMs := p.afterMs, downMs := p.downMs)
    case CLEAR => p == NoParams
  }

  /** What the parser guarantees about a fault: a positive scope and the fields its type needs. */
  predicate ParsedFault(f: Fault) {
    && (f.scopeMode == DURATION ==> f.durationMs.Some? && f.durationMs.value > 0 && f.nextCount.None?)
    && (f.scopeMode == NEXT ==> f.nextCount.Some? && f.nextCount.value > 0 && f.durationMs.None?)
    && ParamsFit(f.faultType, ParamsOf(f))
  }

  /** The scope of a fault: `duration=` when given and not blank, otherwise `count=`. */
  function FaultScope(m: map<string, string>): (r: Result<(ScopeMode, Option<int>, Option<int>)>)
    ensures Present(Get(m, "DURATION")) && r.Ok? ==> r.value.0 == DURATION && r.value.1.Some? && r.value.1.value > 0 && r.value.2.None?
    ensures !Present(Get(m, "DURATION")) && r.Ok? ==> r.value.0 == NEXT && r.value.2.Some? && r.value.2.value > 0 && r.value.1.None?
    ensures !Present(Get(m, "DURATION")) && !Present(Get(m, "COUNT")) ==> r == Err(IllegalArgument)
    ensures Present(Get(m, "DURATION")) && r.Ok? ==> ParseDurationToMs(m["DURATION"]) == Ok(r.value.1.value)
    ensures !Present(Get(m, "DURATION")) && r.Ok? ==> ParseInt(Trim(m["COUNT"])) == r.value.2
  {
    var d := Get(m, "DURATION");
    if Present(d) then
      match ParseDurationToMs(d.value)
      case Err(e) => Err(e)
      case Ok(ms) => if ms <= 0 then Err(IllegalArgument) else Ok((DURATION, Some(ms), None))
    else
      var c := Get(m, "COUNT");
      if !Present(c) then Err(IllegalArgument)
      else
        match ParseInt(Trim(c.value))
        case None => Err(IllegalArgument)
        case Some(n) => if n <= 0 then Err(IllegalArgument) else Ok((NEXT, None, Some(n)))
  }

  /** An optional duration key: absent is `None`, present (even blank) is parsed. */
  function OptionalDuration(v: Option<string>): (r: Result<Option<int>>)
    ensures v.None? ==> r == Ok(None)
    ensures v.Some? && r.Ok? ==> r.value.Some?
  {
    if v.None? then Ok(None)
    else
      match ParseDurationToMs(v.value)
      case Err(e) => Err(e)
      case Ok(ms) => Ok(Some(ms))
  }

  /** The `fault=delay` parameters: `ms=` required, `jitter=` optional. */
  function DelayParams(m: map<string, string>): (r: Result<FaultParams>)
    ensures "MS" !in m ==> r == Err(IllegalArgument)
    ensures r.Ok? ==> ParamsFit(DELAY, r.value) && ParseDurationToMs(m["MS"]) == Ok(r.value.delayMs.value)
    ensures r.Ok? ==> (r.value.jitterMs.Some? <==> "JITTER" in m)
  {
    if "MS" !in m then Err(IllegalArgument)
    else
      match ParseDurationToMs(m["MS"])
      case Err(e) => Err(e)
      case Ok(d) =>
        match OptionalDuration(Get(m, "JITTER"))
        case Err(e) => Err(e)
        case Ok(j) => Ok(NoParams.(delayMs := Some(d), jitterMs := j))
  }

  /** The `fault=fragment` parameters: `0 < minParts <= maxParts`. */
  function FragmentParams(m: map<string, string>): (r: Result<FaultParams>)
    ensures "MINPARTS" !in m || "MAXPARTS" !in m ==> r == Err(IllegalArgument)
    ensures r.Ok? ==> ParamsFit(FRAGMENT, r.value)
    ensures r.Ok? ==> r.value.minParts == ParseInt(Trim(m["MINPARTS"])) && r.value.maxParts == ParseInt(Trim(m["MAXPARTS"]))
  {
    if "MINPARTS" !in m || "MAXPARTS" !in m then Err(IllegalArgument)
    else
      match ParseInt(Trim(m["MINPARTS"]))
      case None => Err(NumberFormat)
      case Some(lo) =>
        match ParseInt(Trim(m["MAXPARTS"]))
        case None => Err(NumberFormat)
        case Some(hi) =>
          if lo <= 0 || hi < lo then Err(IllegalArgument)
          else Ok(NoParams.(minParts := Some(lo), maxParts := Some(hi)))
  }

  /** The `fault=drop` parameters: `rate=` required, and it must parse as a double. */
  function DropParams(m: map<string, string>): (r: Result<FaultParams>)
    ensures "RATE" !in m ==> r == Err(IllegalArgument)
    ensures "RATE" in m && !IsJavaDouble(Trim(m["RATE"])) ==> r == Err(NumberFormat)
    ensures r.Ok? <==> "RATE" in m && IsJavaDouble(Trim(m["RATE"]))
    ensures r.Ok? ==> ParamsFit(DROP, r.value) && r.value.rate == Some(Trim(m["RATE"]))
  {
    if "RATE" !in m then Err(IllegalArgument)
    else if !IsJavaDouble(Trim(m["RATE"])) then Err(NumberFormat)
    else Ok(NoParams.(rate := Some(Trim(m["RATE"]))))
  }

  /**
   * The `fault=corrupt` parameters: `rate=` required, and it must parse
   * as a double; framing is protected unless told otherwise.
   */
  function CorruptParams(m: map<string, string>): (r: Result<FaultParams>)
    ensures "RATE" !in m ==> r == Err(IllegalArgument)
    ensures "RATE" in m && !IsJavaDouble(Trim(m["RATE"])) ==> r == Err(NumberFormat)
    ensures r.Ok? <==> "RATE" in m && IsJavaDouble(Trim(m["RATE"]))
    ensures r.Ok? ==> ParamsFit(CORRUPT, r.value) && r.value.rate == Some(Trim(m["RATE"]))
    ensures r.Ok? && "PROTECTFRAMING" !in m ==> r.value.protectFraming == Some(true)
    ensures r.Ok? && "PROTECTFRAMING" in m ==>
      r.value.protectFraming == Some(EqualsIgnoreCase(Trim(m["PROTECTFRAMING"]), "true"))
  {
    if "RATE" !in m then Err(IllegalArgument)
    else if !IsJavaDouble(Trim(m["RATE"])) then Err(NumberFormat)
    else
      var protect := Get(m, "PROTECTFRAMING");
      var pf := protect.None? || EqualsIgnoreCase(Trim(protect.value), "true");
      Ok(NoParams.(rate := Some(Trim(m["RATE"])), protectFraming := Some(pf)))
  }

  /** The `fault=disconnect` parameters: `after=` required, `down=` optional. */
  function DisconnectParams(m: map<string, string>): (r: Result<FaultParams>)
    ensures "AFTER" !in m ==> r == Err(IllegalArgument)
    ensures r.Ok? ==> ParamsFit(DISCONNECT, r.value) && ParseDurationToMs(m["AFTER"]) == Ok(r.value.afterMs.value)
    ensures r.Ok? ==> (r.value.downMs.Some? <==> "DOWN" in m)
  {
    if "AFTER" !in m then Err(IllegalArgument)
    else
      match ParseDurationToMs(m["AFTER"])
      case Err(e) => Err(e)
      case Ok(a) =>
        match OptionalDuration(Get(m, "DOWN"))
        case Err(e) => Err(e)
        case Ok(d) => Ok(NoParams.(afterMs := Some(a), downMs := d))
  }

  /** The type-specific parameters of `parseFaultStep`. */
  function FaultParamsOf(t: FaultType, m: map<string, string>): (r: Result<FaultParams>)
    ensures r.Ok? ==> ParamsFit(t, r.value)
  {
    match t
    case DELAY => DelayParams(m)
    case FRAGMENT => FragmentParams(m)
    case DROP => DropParams(m)
    case CORRUPT => CorruptParams(m)
    case DISCONNECT => DisconnectParams(m)
    case CLEAR => Ok(NoParams)
  }

  /** `parseFaultStep(map)`: the type, then the scope, then the type's parameters. */
  function FaultStepOf(m: map<string, string>): (r: Result<Step>)
    ensures "FAULT" !in m ==> r == Err(IllegalArgument)
    ensures r.Ok? ==> r.value.FaultStep? && ParsedFault(r.value.fault)
    ensures r.Ok? ==> FaultTypeName(r.value.fault.faultType) == ToUpper(Trim(m["FAULT"]))
    ensures r.Ok? ==> (r.value.fault.scopeMode == DURATION <==> Present(Get(m, "DURATION")))
  {
    match Get(m, "FAULT")
    case None => Err(IllegalArgument)
    case Some(typeStr) =>
      match ParseFaultType(typeStr)
      case Err(e) => Err(e)
      case Ok(t) =>
        match FaultScope(m)
        case Err(e) => Err(e)
        case Ok(scope) =>
          match FaultParamsOf(t, m)
          case Err(e) => Err(e)
          case Ok(p) =>
            NewFault(Some(t), Some(scope.0), scope.1, scope.2, p.delayMs, p.jitterMs,
              p.minParts, p.maxParts, p.rate, p.protectFraming, p.afterMs, p.downMs)
  }

  // ---------------------------------------------------------------------
  // parseFile

  /** The step of one tagged line, `m` being computed from its body. */
  function TagStep(tag: string, body: string): (r: Result<Step>)
    ensures r.Ok? ==> ValidStep(r.value) && !r.value.Loop?
    ensures r.Ok? && r.value.FaultStep? ==> ParsedFault(r.value.fault)
    ensures !EqualsIgnoreCase(tag, "TcToEqp") && !EqualsIgnoreCase(tag, "EqpToTc") && !EqualsIgnoreCase(tag, "Sim")
      ==> r == Err(IllegalArgument)
  {
    var m := FrameTokenParser.ToUpperKeyMap(Some(body));
    if EqualsIgnoreCase(tag, "TcToEqp") then WaitStepOf(m)
    else if EqualsIgnoreCase(tag, "EqpToTc") then EqpToTcStepOf(body, m)
    else if EqualsIgnoreCase(tag, "Sim") then SimStepOf(body, m)
    else Err(IllegalArgument)
  }

  /**
   * One line of the file: `None` for a blank or `#` comment line, else
   * the step of `[Tag] body`. The tag must open the line and be closed by
   * the first `]`, with at least one character between.
   */
  function LineStep(raw: string): (r: Result<Option<Step>>)
    ensures r.Ok? && r.value.Some? ==> ValidStep(r.value.value) && !r.value.value.Loop?
    ensures r.Ok? && r.value.Some? && r.value.value.FaultStep? ==> ParsedFault(r.value.value.fault)
  {
    var t := PreprocessLine(raw);
    if t == [] || t[0] == '#' then Ok(None)
    else
      var lb := IndexOfChar(t, '[');
      var rb := IndexOfChar(t, ']');
      if lb != 0 || rb <= 1 then Err(IllegalArgument)
      else
        match TagStep(Trim(t[1..rb]), Trim(t[rb + 1..]))
        case Err(e) => Err(e)
        case Ok(st) => Ok(Some(st))
  }

  /**
   * A line that is blank once preprocessed is skipped; one that is neither
   * blank nor a comment and does not start with a `[tag]` is rejected.
   */
  lemma LineStepSkipsAndRejects(raw: string)
    ensures PreprocessLine(raw) == [] ==> LineStep(raw) == Ok(None)
    ensures var t := PreprocessLine(raw);
      t != [] && t[0] != '#' && (IndexOfChar(t, '[') != 0 || IndexOfChar(t, ']') <= 1) ==> LineStep(raw) == Err(IllegalArgument)
  {
  }

  /** The steps and label index built so far by the first pass. */
  datatype Compiled = Compiled(steps: seq<Step>, labelIndex: map<string, int>)

  /**
   * The first pass's invariant: each label maps to the position of its
   * own label step, every label step is indexed, every step is valid and
   * none is a loop.
   */
  predicate Indexed(c: Compiled) {
    && (forall k :: k in c.labelIndex ==> 0 <= c.labelIndex[k] < |c.steps| && c.steps[c.labelIndex[k]] == Label(k))
    && (forall i :: 0 <= i < |c.steps| && c.steps[i].Label? ==>
          c.steps[i].name in c.labelIndex && c.labelIndex[c.steps[i].name] == i)
    && (forall i :: 0 <= i < |c.steps| ==> ValidStep(c.steps[i]) && !c.steps[i].Loop?)
  }

  /** Appending a step; a label is indexed first and a repeated label is rejected. */
  function AddStep(c: Compiled, st: Step): (r: Result<Compiled>)
    ensures r.Err? <==> st.Label? && st.name in c.labelIndex
    ensures r.Err? ==> r.error == IllegalArgument
    ensures r.Ok? ==> r.value.steps == c.steps + [st]
    ensures r.Ok? && Indexed(c) && ValidStep(st) && !st.Loop? ==> Indexed(r.value)
  {
    if st.Label? then
      if st.name in c.labelIndex then Err(IllegalArgument)
      else Ok(Compiled(c.steps + [st], c.labelIndex[st.name := |c.steps|]))
    else Ok(Compiled(c.steps + [st], c.labelIndex))
  }

  /** The first pass of `parseFile` over the lines; the first failing line decides the error. */
  function Compile(lines: seq<string>): (r: Result<Compiled>)
    ensures r.Ok? ==> Indexed(r.value)
    ensures r.Ok? ==> forall i :: 0 <= i < |r.value.steps| && r.value.steps[i].FaultStep? ==> ParsedFault(r.value.steps[i].fault)
    decreases |lines|
  {
    if lines == [] then Ok(Compiled([], map[]))
    else
      match Compile(lines[..|lines| - 1])
      case Err(e) => Err(e)
      case Ok(c) =>
        match LineStep(lines[|lines| - 1])
        case Err(e) => Err(e)
        case Ok(None) => Ok(c)
        case Ok(Some(st)) => AddStep(c, st)
  }

  /** The second pass: every goto and loop names a known label. */
  predicate TargetsKnown(c: Compiled) {
    forall i :: 0 <= i < |c.steps| ==>
      && (c.steps[i].Goto? ==> c.steps[i].target in c.labelIndex)
      && (c.steps[i].Loop? ==> c.steps[i].gotoLabel in c.labelIndex)
  }

  /**
   * `parseFile(path)`, the file's lines given as `lines` (`None` when the
   * file does not exist).
   */
  function ParseFileSpec(path: string, lines: Option<seq<string>>): (r: Result<Plan>)
    ensures lines.None? ==> r == Err(IllegalArgument)
    ensures r.Ok? <==> lines.Some? && Compile(lines.value).Ok? && TargetsKnown(Compile(lines.value).value)
    ensures r.Ok? ==> r.value.sourceFile == path && WellFormedPlan(r.value)
  {
    if lines.None? then Err(IllegalArgument)
    else
      match Compile(lines.value)
      case Err(e) => Err(e)
      case Ok(c) =>
        if !TargetsKnown(c) then Err(IllegalArgument)
        else NewPlan(Some(path), Some(c.steps), Some(c.labelIndex))
  }

  /**
   * What a compiled plan guarantees to the runner: valid steps, no loop
   * step, labels indexed at their own position, and every goto resolving
   * to the label step it names.
   */
  predicate WellFormedPlan(p: Plan) {
    && Indexed(Compiled(p.steps, p.labelIndex))
    && (forall i :: 0 <= i < |p.steps| && p.steps[i].Goto? ==>
          p.steps[i].target in p.labelIndex && p.steps[p.labelIndex[p.steps[i].target]] == Label(p.steps[i].target))
  }

  /** `parseFile`: the line loop, then the label check. */
  method ParseFile(path: string, lines: Option<seq<string>>) returns (r: Result<Plan>)
    ensures r == ParseFileSpec(path, lines)
  {
    if lines.None? {
      return Err(IllegalArgument);
    }
    var compiled := CompileLines(lines.value);
    if compiled.Err? {
      return Err(compiled.error);
    }
    var known := CheckTargets(compiled.value);
    if !known {
      return Err(IllegalArgument);
    }
    r := NewPlan(Some(path), Some(compiled.value.steps), Some(compiled.value.labelIndex));
  }

  /** The line loop of `parseFile`. */
  method CompileLines(ls: seq<string>) returns (r: Result<Compiled>)
    ensures r == Compile(ls)
  {
    var steps: seq<Step> := [];
    var labelIndex: map<string, int> := map[];
    for i := 0 to |ls|
      invariant Compile(ls[..i]) == Ok(Compiled(steps, labelIndex))
    {
      ghost var c := Compiled(steps, labelIndex);
      var line := LineStep(ls[i]);
      if line.Err? {
        r := Err(line.error);
        assert Compile(ls[..i + 1]) == r by { CompileNext(ls, i, c); }
        CompileFailsFrom(ls, i + 1);
        return;
      }
      if line.value.Some? {
        var st := line.value.value;
        if st.Label? {
          if st.name in labelIndex {
            r := Err(IllegalArgument);
            assert Compile(ls[..i + 1]) == r by { CompileNext(ls, i, c); }
            CompileFailsFrom(ls, i + 1);
            return;
          }
          labelIndex := labelIndex[st.name := |steps|];
        }
        steps := steps + [st];
        assert Compile(ls[..i + 1]) == Ok(Compiled(steps, labelIndex)) by { CompileNext(ls, i, c); }
      } else {
        assert Compile(ls[..i + 1]) == Ok(c) by { CompileNext(ls, i, c); }
      }
    }
    assert ls[..|ls|] == ls;
    r := Ok(Compiled(steps, labelIndex));
  }

  /** The label check of `parseFile`: stops at the first goto or loop with an unknown label. */
  method CheckTargets(c: Compiled) returns (known: bool)
    ensures known == TargetsKnown(c)
  {
    for i := 0 to |c.steps|
      invariant forall j :: 0 <= j < i ==>
        (c.steps[j].Goto? ==> c.steps[j].target in c.labelIndex) && (c.steps[j].Loop? ==> c.steps[j].gotoLabel in c.labelIndex)
    {
      var st := c.steps[i];
      if st.Goto? && st.target !in c.labelIndex {
        return false;
      }
      if st.Loop? && st.gotoLabel !in c.labelIndex {
        return false;
      }
    }
    return true;
  }

  /** One more line: the first pass steps from one prefix to the next. */
  lemma CompileNext(ls: seq<string>, i: nat, c: Compiled)
    requires i < |ls| && Compile(ls[..i]) == Ok(c)
    ensures Compile(ls[..i + 1]) ==
      match LineStep(ls[i])
      case Err(e) => Err(e)
      case Ok(None) => Ok(c)
      case Ok(Some(st)) => AddStep(c, st)
  {
    assert ls[..i + 1][..i] == ls[..i];
  }

  /** Once a prefix fails, every longer prefix fails the same way. */
  lemma {:induction false} CompileFailsFrom(ls: seq<string>, i: nat)
    requires i <= |ls| && Compile(ls[..i]).Err?
    ensures Compile(ls) == Compile(ls[..i])
    decreases |ls| - i
  {
    if i < |ls| {
      var p := ls[..i + 1];
      assert p[..|p| - 1] == ls[..i];
      CompileErrLast(p);
      CompileFailsFrom(ls, i + 1);
    } else {
      assert ls[..i] == ls;
    }
  }

  /** A failure before the last line is the result of the whole. */
  lemma CompileErrLast(ls: seq<string>)
    requires ls != [] && Compile(ls[..|ls| - 1]).Err?
    ensures Compile(ls) == Compile(ls[..|ls| - 1])
  {
  }
}
