/**
 * `HexByteSequenceParser.parseHexSequence`: the startHex / endHex
 * configuration strings ("02", "0x02", "02 03", "02,03", "0203") as bytes.
 * Every malformed input is an IllegalArgumentException; an empty digit
 * string reaches `Integer.parseInt` and is its subclass
 * NumberFormatException.
 */
module HexByteSequenceParser {
  import opened Wrappers
  import opened JavaText
  import opened ByteBufSearch

  predicate IsHexChar(c: char) {
    ('0' <= c <= '9') || ('a' <= c <= 'f') || ('A' <= c <= 'F')
  }

  predicate IsAllHex(s: string) {
    forall i :: 0 <= i < |s| ==> IsHexChar(s[i])
  }

  /** `isAllHex`: a scan that stops at the first non-hex character. */
  method AllHex(s: string) returns (ok: bool)
    ensures ok <==> IsAllHex(s)
  {
    var i := 0;
    while i < |s|
      invariant 0 <= i <= |s|
      invariant forall j :: 0 <= j < i ==> IsHexChar(s[j])
    {
      var c := s[i];
      var good := ('0' <= c <= '9') || ('a' <= c <= 'f') || ('A' <= c <= 'F');
      if !good {
        return false;
      }
      i := i + 1;
    }
    return true;
  }

  function HexDigitValue(c: char): (v: nat)
    requires IsHexChar(c)
    ensures v < 16
  {
    if c <= '9' then c as int - '0' as int
    else if c <= 'F' then c as int - 'A' as int + 10
    else c as int - 'a' as int + 10
  }

  /** `parseOneByte`: two hex digits, high digit first. */
  function ParseOneByte(two: string): (b: byte)
    requires |two| == 2 && IsAllHex(two)
    ensures b as int == 16 * HexDigitValue(two[0]) + HexDigitValue(two[1])
  {
    (16 * HexDigitValue(two[0]) + HexDigitValue(two[1])) as byte
  }

  /** A compact token such as "0203": one byte per two characters, in order. */
  function HexPairs(t: string): (bs: seq<byte>)
    requires |t| % 2 == 0 && IsAllHex(t)
    ensures |bs| == |t| / 2
  {
    seq(|t| / 2, k requires 0 <= k < |t| / 2 => ParseOneByte(t[2 * k..2 * k + 2]))
  }

  /** A token lower-cased and trimmed, with a leading "0x" removed. */
  function HexDigits(token: string): string {
    var t := ToLower(Trim(token));
    if StartsWith(t, "0x") then t[2..] else t
  }

  /**
   * The bytes of hex digits: a compact even-length run of more than two
   * digits gives one byte per two, one or two digits give one byte (one
   * is padded with '0'); anything else raises.
   */
  function DigitsBytes(t: string): (r: Result<seq<byte>>)
  {
    if |t| > 2 && |t| % 2 == 0 && IsAllHex(t) then Ok(HexPairs(t))
    else if !IsAllHex(t) || |t| > 2 then Err(IllegalArgument)
    else if |t| == 0 then Err(NumberFormat)
    else if |t| == 1 then Ok([ParseOneByte("0" + t)])
    else Ok([ParseOneByte(t)])
  }

  /** The bytes of one whitespace-separated token: nothing for a blank one. */
  function TokenBytes(token: string): (r: Result<seq<byte>>)
  {
    if IsBlank(token) then Ok([]) else DigitsBytes(HexDigits(token))
  }

  /** The tokens' bytes concatenated in order; the first bad token decides the error. */
  function TokensBytes(tokens: seq<string>): (r: Result<seq<byte>>)
  {
    if tokens == [] then Ok([])
    else match TokenBytes(tokens[0])
      case Err(e) => Err(e)
      case Ok(b) =>
        match TokensBytes(tokens[1..])
        case Err(e) => Err(e)
        case Ok(rest) => Ok(b + rest)
  }

  /** Commas become spaces, the ends are trimmed, and the rest splits on `\s+`. */
  function HexTokens(input: string): seq<string> {
    Words(Trim(ReplaceChar(input, ',', ' ')), IsRegexSpace)
  }

  /** What `parseHexSequence` returns, or the exception it raises. */
  function HexSequence(input: string): (r: Result<seq<byte>>)
    ensures r.Ok? ==> r.value != []
  {
    if Trim(input) == [] then Err(IllegalArgument)
    else
      var r := TokensBytes(HexTokens(input));
      if r.Err? then r
      else if r.value == [] then Err(IllegalArgument)
      else r
  }

  lemma {:induction false} TokensBytesErrors(tokens: seq<string>)
    ensures TokensBytes(tokens).Err? ==> TokensBytes(tokens).error in {IllegalArgument, NumberFormat}
  {
    if tokens != [] {
      TokensBytesErrors(tokens[1..]);
    }
  }

  /** `parseHexSequence` raises IllegalArgumentException or its subclass NumberFormatException, nothing else. */
  lemma HexSequenceErrors(input: string)
    ensures HexSequence(input).Err? ==> HexSequence(input).error in {IllegalArgument, NumberFormat}
  {
    TokensBytesErrors(HexTokens(input));
  }

  /** Appending what a further token yields to the bytes gathered so far. */
  function Prepend(prefix: seq<byte>, r: Result<seq<byte>>): Result<seq<byte>> {
    match r
    case Ok(v) => Ok(prefix + v)
    case Err(e) => Err(e)
  }

  /** The handling of one token in the loop of `parseHexSequence`. */
  method ParseToken(token: string) returns (r: Result<seq<byte>>)
    ensures r == TokenBytes(token)
  {
    if IsBlank(token) {
      return Ok([]);
    }
    var t := ToLower(Trim(token));
    if StartsWith(t, "0x") {
      t := t[2..];
    }
    r := ParseDigits(t);
  }

  /** The digits of one token, after the "0x" prefix is removed. */
  method ParseDigits(t: string) returns (r: Result<seq<byte>>)
    ensures r == DigitsBytes(t)
  {
    var allHex := AllHex(t);
    if |t| > 2 && |t| % 2 == 0 && allHex {
      var bytes: seq<byte> := [];
      var i := 0;
      while i < |t|
        invariant 0 <= i <= |t| && 2 * |bytes| == i
        invariant forall k :: 0 <= k < |bytes| ==> bytes[k] == ParseOneByte(t[2 * k..2 * k + 2])
      {
        var part := t[i..i + 2];
        bytes := bytes + [ParseOneByte(part)];
        i := i + 2;
      }
      assert bytes == HexPairs(t);
      return Ok(bytes);
    }
    if !allHex || |t| > 2 {
      return Err(IllegalArgument);
    }
    if |t| == 0 {
      return Err(NumberFormat);
    }
    var two := t;
    if |t| == 1 {
      two := "0" + t;
    }
    return Ok([ParseOneByte(two)]);
  }

  /** One token's contribution, unfolded. */
  lemma TokensBytesStep(tokens: seq<string>, k: nat)
    requires k < |tokens|
    ensures TokensBytes(tokens[k..]) ==
      match TokenBytes(tokens[k])
      case Err(e) => Err(e)
      case Ok(b) => Prepend(b, TokensBytes(tokens[k + 1..]))
  {
    assert tokens[k..][0] == tokens[k];
    assert tokens[k..][1..] == tokens[k + 1..];
  }

  lemma PrependPrepend(a: seq<byte>, b: seq<byte>, r: Result<seq<byte>>)
    ensures Prepend(a, Prepend(b, r)) == Prepend(a + b, r)
  {
    if r.Ok? {
      ConcatAssoc(a, b, r.value);
    }
  }

  /** The loop of `parseHexSequence` over the tokens, gathering their bytes. */
  method ParseTokens(tokens: seq<string>) returns (r: Result<seq<byte>>)
    ensures r == TokensBytes(tokens)
  {
    ghost var whole := TokensBytes(tokens);
    assert whole == Prepend([], TokensBytes(tokens[0..])) by {
      assert tokens[0..] == tokens;
      if whole.Ok? {
        assert [] + whole.value == whole.value;
      }
    }
    var bytes: seq<byte> := [];
    var k := 0;
    while k < |tokens|
      invariant 0 <= k <= |tokens|
      invariant whole == Prepend(bytes, TokensBytes(tokens[k..]))
    {
      var one := ParseToken(tokens[k]);
      TokensBytesStep(tokens, k);
      if one.Err? {
        return Err(one.error);
      }
      PrependPrepend(bytes, one.value, TokensBytes(tokens[k + 1..]));
      bytes := bytes + one.value;
      k := k + 1;
    }
    assert tokens[k..] == [];
    assert bytes + [] == bytes;
    return Ok(bytes);
  }

  /** `parseHexSequence`. */
  method ParseHexSequence(input: string) returns (r: Result<seq<byte>>)
    ensures r == HexSequence(input)
  {
    if Trim(input) == [] {
      return Err(IllegalArgument);
    }
    var tokens := HexTokens(input);
    r := ParseTokens(tokens);
    if r.Ok? && r.value == [] {
      r := Err(IllegalArgument);
    }
  }

  // ---------------------------------------------------------------------
  // Properties

  /** A blank input is rejected. */
  lemma BlankRejected(input: string)
    requires forall i :: 0 <= i < |input| ==> IsTrimmable(input[i])
    ensures HexSequence(input) == Err(IllegalArgument)
  {
    TrimEmptyIff(input);
  }

  /** A comma separates exactly as a space does. */
  lemma CommaIsSeparator(a: string, b: string)
    ensures HexSequence(a + "," + b) == HexSequence(a + " " + b)
  {
    CommaSpaceTokens(a, b);
    CommaNotBlank(a, b);
    if Trim(a + " " + b) == [] {
      BlankNoTokens(a + " " + b);
      assert TokensBytes([]) == Ok([]);
    }
  }

  /** After commas become spaces, the two inputs are the same string. */
  lemma CommaSpaceTokens(a: string, b: string)
    ensures HexTokens(a + "," + b) == HexTokens(a + " " + b)
  {
    CommaSpaceReplaced(a, b);
  }

  lemma CommaSpaceReplaced(a: string, b: string)
    ensures ReplaceChar(a + "," + b, ',', ' ') == ReplaceChar(a + " " + b, ',', ' ')
  {
    var x, y := a + "," + b, a + " " + b;
    forall i | 0 <= i < |x|
      ensures ReplaceChar(x, ',', ' ')[i] == ReplaceChar(y, ',', ' ')[i]
    {
      if i < |a| {
        assert x[i] == y[i] == a[i];
      } else if i > |a| {
        assert x[i] == y[i] == b[i - |a| - 1];
      }
    }
  }

  /** An input holding a comma is not blank. */
  lemma CommaNotBlank(a: string, b: string)
    ensures Trim(a + "," + b) != []
  {
    var x := a + "," + b;
    TrimEmptyIff(x);
    assert x[|a|] == ',';
  }

  /** A blank input has no tokens. */
  lemma BlankNoTokens(y: string)
    requires Trim(y) == []
    ensures HexTokens(y) == []
  {
    TrimEmptyIff(y);
    var n := ReplaceChar(y, ',', ' ');
    assert forall i :: 0 <= i < |n| ==> IsTrimmable(n[i]);
    TrimEmptyIff(n);
  }

  /** A token of hex digits and 'x's is not blank and is its own trim. */
  lemma HexTokenShape(t: string)
    requires t != [] && forall i :: 0 <= i < |t| ==> IsHexChar(t[i]) || t[i] in "xX"
    ensures !IsBlank(t) && Trim(t) == t
  {
    assert !IsJavaWhitespace(t[0]);
    TrimOfTrimmed(t);
  }

  /** Hex digits alone are kept, lower-cased. */
  lemma HexDigitsPlain(t: string)
    requires t != [] && IsAllHex(t)
    ensures HexDigits(t) == ToLower(t) && IsAllHex(ToLower(t))
  {
    HexTokenShape(t);
    if |t| >= 2 {
      assert ToLower(t)[1] == LowerChar(t[1]) != 'x';
    }
  }

  /** A leading "0x" or "0X" before hex digits is removed. */
  lemma HexDigitsPrefixed(t: string, p: string)
    requires t != [] && IsAllHex(t) && (p == "0x" || p == "0X")
    ensures HexDigits(p + t) == ToLower(t)
  {
    PrefixedShape(t, p);
    LowerPrefixed(t, p);
    StartsWithAppend("0x", ToLower(t));
  }

  lemma PrefixedShape(t: string, p: string)
    requires t != [] && IsAllHex(t) && (p == "0x" || p == "0X")
    ensures !IsBlank(p + t) && Trim(p + t) == p + t
  {
    forall i | 0 <= i < |p + t|
      ensures IsHexChar((p + t)[i]) || (p + t)[i] in "xX"
    {
      if i >= 2 {
        assert (p + t)[i] == t[i - 2];
      }
    }
    HexTokenShape(p + t);
  }

  lemma LowerPrefixed(t: string, p: string)
    requires p == "0x" || p == "0X"
    ensures ToLower(p + t) == "0x" + ToLower(t)
  {
    ToLowerAppend(p, t);
    assert ToLower(p) == "0x";
  }

  /** A leading "0x" or "0X" on a hex token is dropped. */
  lemma HexPrefixStripped(t: string, p: string)
    requires t != [] && IsAllHex(t) && (p == "0x" || p == "0X")
    ensures TokenBytes(p + t) == TokenBytes(t)
  {
    HexTokenShape(t);
    HexTokenShape(p + t);
    HexDigitsPlain(t);
    HexDigitsPrefixed(t, p);
  }

  /** A token as it can stand alone in the input: no blank, no comma. */
  predicate PlainToken(w: string) {
    w != [] && forall i :: 0 <= i < |w| ==> w[i] > ' ' && w[i] != ','
  }

  /** Input that is one token with no separator or blank around it. */
  lemma SingleToken(w: string)
    requires PlainToken(w)
    ensures TokenBytes(w).Ok? && TokenBytes(w).value != [] ==> HexSequence(w) == TokenBytes(w)
  {
    assert ReplaceChar(w, ',', ' ') == w;
    TrimOfTrimmed(w);
    WordsOfWord(w, IsRegexSpace);
    if TokenBytes(w).Ok? {
      assert TokensBytes([w]) == Prepend(TokenBytes(w).value, TokensBytes([])) by {
        assert [w][1..] == [];
      }
      assert TokenBytes(w).value + [] == TokenBytes(w).value;
    }
  }

  /** Replacing commas in two plain tokens around a separator leaves a space between them. */
  lemma ReplaceSeparator(w1: string, c: char, w2: string)
    requires PlainToken(w1) && PlainToken(w2) && (c == ' ' || c == ',')
    ensures ReplaceChar(w1 + [c] + w2, ',', ' ') == w1 + [' '] + w2
  {
    var x := w1 + [c] + w2;
    var n := ReplaceChar(x, ',', ' ');
    forall i | 0 <= i < |x|
      ensures n[i] == (w1 + [' '] + w2)[i]
    {
      if i < |w1| {
        assert x[i] == w1[i];
      } else if i > |w1| {
        assert x[i] == w2[i - |w1| - 1];
      }
    }
  }

  /** A plain token holds no `\s` character. */
  lemma PlainNoSpace(w: string)
    requires PlainToken(w)
    ensures w != [] && forall i :: 0 <= i < |w| ==> !IsRegexSpace(w[i])
  {
  }

  /** Two plain tokens around a space: already trimmed, and split into those two words. */
  lemma SpacedWords(w1: string, w2: string)
    requires PlainToken(w1) && PlainToken(w2)
    ensures Trim(w1 + [' '] + w2) == w1 + [' '] + w2
    ensures Words(w1 + [' '] + w2, IsRegexSpace) == [w1, w2]
  {
    SpacedTrimmed(w1, w2);
    PlainNoSpace(w1);
    PlainNoSpace(w2);
    WordsPair(w1, w2);
  }

  lemma SpacedTrimmed(w1: string, w2: string)
    requires PlainToken(w1) && PlainToken(w2)
    ensures Trim(w1 + [' '] + w2) == w1 + [' '] + w2
  {
    var n := w1 + [' '] + w2;
    assert n[0] == w1[0] && n[|n| - 1] == w2[|w2| - 1];
    TrimOfTrimmed(n);
  }

  lemma WordsPair(w1: string, w2: string)
    requires w1 != [] && forall i :: 0 <= i < |w1| ==> !IsRegexSpace(w1[i])
    requires w2 != [] && forall i :: 0 <= i < |w2| ==> !IsRegexSpace(w2[i])
    ensures Words(w1 + [' '] + w2, IsRegexSpace) == [w1, w2]
  {
    WordsCons(w1, ' ', w2, IsRegexSpace);
    WordsOfWord(w2, IsRegexSpace);
  }

  /** Input starting with a visible character is not blank. */
  lemma NotBlankInput(x: string)
    requires x != [] && !IsTrimmable(x[0])
    ensures Trim(x) != []
  {
    TrimEmptyIff(x);
  }

  /** Two plain tokens around a comma or a space are the tokens of the input. */
  lemma TwoTokensSplit(w1: string, c: char, w2: string)
    requires PlainToken(w1) && PlainToken(w2) && (c == ' ' || c == ',')
    ensures Trim(w1 + [c] + w2) != [] && HexTokens(w1 + [c] + w2) == [w1, w2]
  {
    var x := w1 + [c] + w2;
    assert x[0] == w1[0];
    NotBlankInput(x);
    ReplaceSeparator(w1, c, w2);
    SpacedWords(w1, w2);
  }

  /** The bytes of two tokens, in order. */
  lemma TokensBytesPair(w1: string, w2: string)
    requires TokenBytes(w1).Ok? && TokenBytes(w2).Ok?
    ensures TokensBytes([w1, w2]) == Ok(TokenBytes(w1).value + TokenBytes(w2).value)
  {
    TokensBytesStep([w1, w2], 0);
    TokensBytesStep([w1, w2], 1);
    assert [w1, w2][2..] == [];
    assert [w1, w2][0..] == [w1, w2];
    assert TokenBytes(w2).value + [] == TokenBytes(w2).value;
  }

  /** Input that is two tokens around one separator. */
  lemma TwoTokens(w1: string, c: char, w2: string)
    requires PlainToken(w1) && PlainToken(w2) && (c == ' ' || c == ',')
    requires TokenBytes(w1).Ok? && TokenBytes(w2).Ok? && TokenBytes(w1).value != []
    ensures HexSequence(w1 + [c] + w2) == Ok(TokenBytes(w1).value + TokenBytes(w2).value)
  {
    TwoTokensSplit(w1, c, w2);
    TokensBytesPair(w1, w2);
  }

  // ---------------------------------------------------------------------
  // Round trip

  function HexDigitChar(d: nat): (c: char)
    requires d < 16
    ensures IsHexChar(c) && HexDigitValue(c) == d && LowerChar(c) == c
  {
    if d < 10 then ('0' as int + d) as char else ('a' as int + d - 10) as char
  }

  /** Bytes printed as compact lower-case hex, two digits each: "0203". */
  function HexText(bs: seq<byte>): (s: string)
    ensures |s| == 2 * |bs|
    ensures forall i :: 0 <= i < |s| ==> s[i] == if i % 2 == 0 then HexDigitChar(bs[i / 2] as int / 16) else HexDigitChar(bs[i / 2] as int % 16)
  {
    seq(2 * |bs|, i requires 0 <= i < 2 * |bs| =>
      if i % 2 == 0 then HexDigitChar(bs[i / 2] as int / 16) else HexDigitChar(bs[i / 2] as int % 16))
  }

  /** Two digits of the printed text give back their byte. */
  lemma HexTextPair(bs: seq<byte>, k: nat)
    requires k < |bs|
    ensures IsAllHex(HexText(bs)[2 * k..2 * k + 2])
    ensures ParseOneByte(HexText(bs)[2 * k..2 * k + 2]) == bs[k]
  {
    var two := HexText(bs)[2 * k..2 * k + 2];
    assert two[0] == HexText(bs)[2 * k] == HexDigitChar(bs[k] as int / 16);
    assert two[1] == HexText(bs)[2 * k + 1] == HexDigitChar(bs[k] as int % 16);
  }

  /** The digits of the printed text decode to the bytes. */
  lemma HexTextDigits(bs: seq<byte>)
    requires bs != []
    ensures IsAllHex(HexText(bs)) && DigitsBytes(HexText(bs)) == Ok(bs)
  {
    var t := HexText(bs);
    assert IsAllHex(t);
    if |bs| == 1 {
      HexTextPair(bs, 0);
      assert t == t[0..2];
      assert bs == [bs[0]];
    } else {
      var pairs := HexPairs(t);
      forall k | 0 <= k < |bs|
        ensures pairs[k] == bs[k]
      {
        HexTextPair(bs, k);
      }
      assert pairs == bs;
    }
  }

  /** Every non-empty byte sequence printed as compact hex parses back to itself. */
  lemma HexRoundTrip(bs: seq<byte>)
    requires bs != []
    ensures HexSequence(HexText(bs)) == Ok(bs)
  {
    var t := HexText(bs);
    HexTextDigits(bs);
    HexDigitsPlain(t);
    assert ToLower(t) == t;
    HexTokenShape(t);
    assert TokenBytes(t) == Ok(bs);
    assert forall i :: 0 <= i < |t| ==> t[i] > ' ' && t[i] != ',';
    SingleToken(t);
  }

  // ---------------------------------------------------------------------
  // The examples of the unit tests

  /** "0x" or "0X" in front of a plain token leaves it plain. */
  lemma PrefixedPlain(t: string, p: string)
    requires PlainToken(t) && (p == "0x" || p == "0X")
    ensures PlainToken(p + t)
  {
    forall i | 0 <= i < |p + t|
      ensures (p + t)[i] > ' ' && (p + t)[i] != ','
    {
      if i >= 2 {
        assert (p + t)[i] == t[i - 2];
      }
    }
  }

  /** The byte two decimal digits spell in hex. */
  function DecimalPairByte(t: string): byte
    requires |t| == 2 && IsAsciiDigit(t[0]) && IsAsciiDigit(t[1])
  {
    (16 * (t[0] as int - '0' as int) + (t[1] as int - '0' as int)) as byte
  }

  /** Two decimal digits are the byte they spell in hex. */
  lemma TwoDecimalDigits(t: string)
    requires |t| == 2 && IsAsciiDigit(t[0]) && IsAsciiDigit(t[1])
    ensures IsAllHex(t)
    ensures DigitsBytes(t) == Ok([DecimalPairByte(t)])
  {
    assert DigitsBytes(t) == Ok([ParseOneByte(t)]);
  }

  /** A token of decimal digits is plain, and its digits are itself. */
  lemma DecimalToken(t: string)
    requires t != [] && forall i :: 0 <= i < |t| ==> IsAsciiDigit(t[i])
    ensures PlainToken(t) && TokenBytes(t) == DigitsBytes(t)
  {
    DecimalKept(t);
    NotBlank(t);
  }

  /** A string whose first character is not whitespace is not blank. */
  lemma NotBlank(t: string)
    requires t != [] && !IsJavaWhitespace(t[0])
    ensures !IsBlank(t)
  {
  }

  /** A token of decimal digits is not blank and comes out of `HexDigits` as it went in. */
  lemma DecimalKept(t: string)
    requires t != [] && forall i :: 0 <= i < |t| ==> IsAsciiDigit(t[i])
    ensures HexDigits(t) == t
  {
    assert IsAllHex(t);
    HexDigitsPlain(t);
    LowerOfDigits(t);
  }

  /** Decimal digits have no case. */
  lemma LowerOfDigits(t: string)
    requires forall i :: 0 <= i < |t| ==> IsAsciiDigit(t[i])
    ensures ToLower(t) == t
  {
    var l := ToLower(t);
    forall i | 0 <= i < |t|
      ensures l[i] == t[i]
    {
      assert IsAsciiDigit(t[i]);
    }
  }

  /** A two-digit decimal token is the byte it spells in hex, with or without "0x". */
  lemma TwoDigitToken(t: string, p: string)
    requires |t| == 2 && IsAsciiDigit(t[0]) && IsAsciiDigit(t[1]) && (p == "0x" || p == "0X")
    ensures TokenBytes(t) == Ok([DecimalPairByte(t)])
    ensures TokenBytes(p + t) == TokenBytes(t)
    ensures PlainToken(t) && PlainToken(p + t)
  {
    TwoDecimalDigits(t);
    DecimalToken(t);
    HexPrefixStripped(t, p);
    PrefixedPlain(t, p);
  }

  lemma PairConcat(a: byte, b: byte)
    ensures [a] + [b] == [a, b]
  {
  }

  /** Two two-digit decimal tokens around a separator. */
  lemma TwoDecimalTokens(x: string, c: char, y: string)
    requires |x| == 2 && IsAsciiDigit(x[0]) && IsAsciiDigit(x[1])
    requires |y| == 2 && IsAsciiDigit(y[0]) && IsAsciiDigit(y[1])
    requires c == ' ' || c == ','
    ensures HexSequence(x + [c] + y) == Ok([DecimalPairByte(x), DecimalPairByte(y)])
  {
    TwoDigitToken(x, "0x");
    TwoDigitToken(y, "0x");
    TwoTokens(x, c, y);
    PairConcat(DecimalPairByte(x), DecimalPairByte(y));
  }

  /** The same tokens, each prefixed with "0x" or "0X". */
  lemma TwoPrefixedDecimalTokens(x: string, c: char, y: string, p: string)
    requires |x| == 2 && IsAsciiDigit(x[0]) && IsAsciiDigit(x[1])
    requires |y| == 2 && IsAsciiDigit(y[0]) && IsAsciiDigit(y[1])
    requires (c == ' ' || c == ',') && (p == "0x" || p == "0X")
    ensures HexSequence(p + x + [c] + (p + y)) == Ok([DecimalPairByte(x), DecimalPairByte(y)])
  {
    TwoDigitToken(x, p);
    TwoDigitToken(y, p);
    TwoTokens(p + x, c, p + y);
    PairConcat(DecimalPairByte(x), DecimalPairByte(y));
  }

  /** One two-digit decimal token, with or without "0x". */
  lemma OneDecimalToken(t: string, p: string)
    requires |t| == 2 && IsAsciiDigit(t[0]) && IsAsciiDigit(t[1]) && (p == "0x" || p == "0X")
    ensures HexSequence(t) == Ok([DecimalPairByte(t)])
    ensures HexSequence(p + t) == Ok([DecimalPairByte(t)])
  {
    TwoDigitToken(t, p);
    SingleToken(t);
    SingleToken(p + t);
  }

  /** A compact four-digit decimal token is two bytes, high pair first. */
  lemma CompactDecimalToken(t: string)
    requires |t| == 4 && forall i :: 0 <= i < 4 ==> IsAsciiDigit(t[i])
    ensures HexSequence(t) == Ok([DecimalPairByte(t[0..2]), DecimalPairByte(t[2..4])])
  {
    DecimalToken(t);
    CompactDecimalDigits(t);
    SingleToken(t);
  }

  lemma CompactDecimalDigits(t: string)
    requires |t| == 4 && forall i :: 0 <= i < 4 ==> IsAsciiDigit(t[i])
    ensures DigitsBytes(t) == Ok([DecimalPairByte(t[0..2]), DecimalPairByte(t[2..4])])
  {
    assert IsAllHex(t);
    var pairs := HexPairs(t);
    assert pairs[0] == ParseOneByte(t[0..2]) && pairs[1] == ParseOneByte(t[2..4]);
    TwoDecimalDigits(t[0..2]);
    TwoDecimalDigits(t[2..4]);
    assert pairs == [pairs[0], pairs[1]];
  }

  lemma ParsesSingleByte(a: string, b: string)
    requires a == "02" && b == "0x02"
    ensures HexSequence(a) == Ok([0x02])
    ensures HexSequence(b) == Ok([0x02])
  {
    assert b == "0x" + a;
    assert DecimalPairByte(a) == 0x02;
    OneDecimalToken(a, "0x");
  }

  lemma ParsesSpacedOrCommaSeparated(x: string, y: string, a: string, b: string)
    requires x == "02" && y == "03" && a == "02 03" && b == "0x02,0x03"
    ensures HexSequence(a) == Ok([0x02, 0x03])
    ensures HexSequence(b) == Ok([0x02, 0x03])
  {
    assert a == x + [' '] + y;
    assert b == "0x" + x + [','] + ("0x" + y);
    assert DecimalPairByte(x) == 0x02 && DecimalPairByte(y) == 0x03;
    TwoDecimalTokens(x, ' ', y);
    TwoPrefixedDecimalTokens(x, ',', y, "0x");
  }

  lemma ParsesCompactEvenLength(a: string)
    requires a == "0203"
    ensures HexSequence(a) == Ok([0x02, 0x03])
  {
    assert DecimalPairByte(a[0..2]) == 0x02 && DecimalPairByte(a[2..4]) == 0x03;
    CompactDecimalToken(a);
  }
}
