/**
 * `StructuredLog`: log lines of space-separated `key=value` pairs. A value
 * that holds whitespace, a control character, '"', '\' or '=' is written
 * in double quotes with escapes; any other value is written as it is.
 * Keys are written as they are, and a pair with a blank key is skipped.
 *
 * An argument of the Java varargs is modelled by its `String.valueOf`
 * text, `None` standing for null.
 */
module StructuredLog {
  import opened Wrappers
  import opened JavaText

  // ---------------------------------------------------------------------
  // Values

  /** The characters that make `encodeValue` quote a value. */
  predicate NeedsQuote(c: char) {
    IsJavaWhitespace(c) || c == '"' || c == '\\' || c == '=' || c < '\U{20}'
  }

  predicate AnyNeedsQuote(s: string) {
    exists i :: 0 <= i < |s| && NeedsQuote(s[i])
  }

  /** A lower-case hexadecimal digit, as `%04x` prints it. */
  function HexDigit(d: nat): (c: char)
    requires d < 16
  {
    if d < 10 then ('0' as int + d) as char else ('a' as int + d - 10) as char
  }

  /** How one character is written inside quotes. */
  function EscapeChar(c: char): (r: string)
    ensures r != []
  {
    if c == '"' then ['\\', '"']
    else if c == '\\' then ['\\', '\\']
    else if c == '\n' then ['\\', 'n']
    else if c == '\r' then ['\\', 'r']
    else if c == '\t' then ['\\', 't']
    else if c < '\U{20}' then ['\\', 'u', '0', '0', HexDigit(c as int / 16), HexDigit(c as int % 16)]
    else [c]
  }

  /** The body of a quoted value: each character escaped in turn. */
  function Escaped(s: string): string {
    if s == [] then [] else EscapeChar(s[0]) + Escaped(s[1..])
  }

  /** `encodeValue`: null prints as `null`; a value needing quotes is quoted and escaped. */
  function Encoded(value: Option<string>): string {
    match value
    case None => "null"
    case Some(s) => if AnyNeedsQuote(s) then ['"'] + Escaped(s) + ['"'] else s
  }

  /** The text a reader gets back for a value: null reads as `null`. */
  function ValueText(value: Option<string>): string {
    if value.None? then "null" else value.value
  }

  /** `encodeValue`: a scan for a character that needs quotes, then the escaping loop. */
  method EncodeValue(value: Option<string>) returns (r: string)
    ensures r == Encoded(value)
  {
    if value.None? {
      return "null";
    }
    var s := value.value;
    var needQuote := false;
    var i := 0;
    while i < |s|
      invariant 0 <= i <= |s|
      invariant forall j :: 0 <= j < i ==> !NeedsQuote(s[j])
    {
      if NeedsQuote(s[i]) {
        needQuote := true;
        break;
      }
      i := i + 1;
    }
    if !needQuote {
      return s;
    }
    var out := ['"'];
    for k := 0 to |s|
      invariant out == ['"'] + Escaped(s[..k])
    {
      assert s[..k + 1] == s[..k] + [s[k]];
      EscapedSnoc(s[..k], s[k]);
      out := out + EscapeChar(s[k]);
    }
    assert s[..|s|] == s;
    return out + ['"'];
  }

  lemma {:induction false} EscapedSnoc(s: string, c: char)
    ensures Escaped(s + [c]) == Escaped(s) + EscapeChar(c)
  {
    if s != [] {
      assert (s + [c])[1..] == s[1..] + [c];
      EscapedSnoc(s[1..], c);
    }
  }

  // ---------------------------------------------------------------------
  // Reading values back

  function HexValue(c: char): Option<nat> {
    if '0' <= c <= '9' then Some(c as int - '0' as int)
    else if 'a' <= c <= 'f' then Some(c as int - 'a' as int + 10)
    else if 'A' <= c <= 'F' then Some(c as int - 'A' as int + 10)
    else None
  }

  /** The character a `\uXXXX` escape names, when its four digits are hexadecimal and not a surrogate. */
  function UnicodeEscape(h: string): (r: Option<char>)
    requires |h| == 4
  {
    var a, b, c, d := HexValue(h[0]), HexValue(h[1]), HexValue(h[2]), HexValue(h[3]);
    if a.None? || b.None? || c.None? || d.None? then None
    else
      var code := ((a.value * 16 + b.value) * 16 + c.value) * 16 + d.value;
      if 0xD800 <= code < 0xE000 || code >= 0x11_0000 then None else Some(code as char)
  }

  /**
   * Reads the body of a quoted value up to its closing quote: the text it
   * stands for, and what follows the quote.
   */
  function UnescapeQuoted(t: string): (r: Option<(string, string)>)
    ensures r.Some? ==> |r.value.1| < |t|
    decreases |t|
  {
    if t == [] then None
    else if t[0] == '"' then Some(([], t[1..]))
    else
      var step: Option<(char, nat)> :=
        if t[0] != '\\' then Some((t[0], 1))
        else if |t| < 2 then None
        else if t[1] == '"' then Some(('"', 2))
        else if t[1] == '\\' then Some(('\\', 2))
        else if t[1] == 'n' then Some(('\n', 2))
        else if t[1] == 'r' then Some(('\r', 2))
        else if t[1] == 't' then Some(('\t', 2))
        else if t[1] == 'u' && |t| >= 6 && UnicodeEscape(t[2..6]).Some? then Some((UnicodeEscape(t[2..6]).value, 6))
        else None;
      if step.None? then None
      else
        match UnescapeQuoted(t[step.value.1..])
        case None => None
        case Some((v, rest)) => Some(([step.value.0] + v, rest))
  }

  /** Reads one value: a quoted one up to its closing quote, a bare one up to the next space. */
  function ReadValue(t: string): (r: Option<(string, string)>)
    ensures r.Some? ==> |r.value.1| <= |t|
  {
    if t != [] && t[0] == '"' then UnescapeQuoted(t[1..])
    else
      var sp := IndexOfChar(t, ' ');
      if sp < 0 then Some((t, [])) else Some((t[..sp], t[sp..]))
  }

  /** A whole encoded value read back. */
  function DecodeValue(t: string): Option<string> {
    var r := ReadValue(t);
    if r.Some? && r.value.1 == [] then Some(r.value.0) else None
  }

  /** The first `c` in `s + tail`, when `s` has none and `tail` is empty or opens with one. */
  lemma {:induction false} FirstAfter(s: string, tail: string, c: char)
    requires forall i :: 0 <= i < |s| ==> s[i] != c
    requires tail == [] || tail[0] == c
    ensures IndexOfChar(s + tail, c) == if tail == [] then -1 else |s|
  {
    if s != [] {
      assert (s + tail)[1..] == s[1..] + tail;
      FirstAfter(s[1..], tail, c);
    } else {
      assert s + tail == tail;
    }
  }

  lemma HexDigitValue(d: nat)
    requires d < 16
    ensures HexValue(HexDigit(d)) == Some(d)
  {
  }

  /** A `\u00XX` escape of a control character reads back as that character. */
  lemma ControlEscape(c: char)
    requires c < '\U{20}'
    ensures UnicodeEscape(['0', '0', HexDigit(c as int / 16), HexDigit(c as int % 16)]) == Some(c)
  {
    HexDigitValue(c as int / 16);
    HexDigitValue(c as int % 16);
  }

  /** Reading past one escaped character gives that character in front of the rest. */
  lemma UnescapeStep(c: char, t: string)
    requires t != []
    ensures UnescapeQuoted(EscapeChar(c) + t) ==
      match UnescapeQuoted(t)
      case None => None
      case Some((v, rest)) => Some(([c] + v, rest))
  {
    var e := EscapeChar(c);
    var u := e + t;
    assert u[|e|..] == t;
    if c < '\U{20}' && c != '\n' && c != '\r' && c != '\t' {
      assert u[2..6] == ['0', '0', HexDigit(c as int / 16), HexDigit(c as int % 16)];
      ControlEscape(c);
    }
  }

  /** The escaped body of a value, closed by a quote, reads back as the value. */
  lemma {:induction false} UnescapeEscaped(s: string, rest: string)
    ensures UnescapeQuoted(Escaped(s) + ['"'] + rest) == Some((s, rest))
  {
    if s != [] {
      var t := Escaped(s[1..]) + ['"'] + rest;
      assert Escaped(s) + ['"'] + rest == EscapeChar(s[0]) + t;
      UnescapeEscaped(s[1..], rest);
      UnescapeStep(s[0], t);
      assert [s[0]] + s[1..] == s;
    }
  }

  /**
   * An encoded value followed by the end of the line or by a space reads
   * back as its text, and leaves that end or space in place.
   */
  lemma ReadEncoded(value: Option<string>, tail: string)
    requires tail == [] || tail[0] == ' '
    ensures ReadValue(Encoded(value) + tail) == Some((ValueText(value), tail))
  {
    match value
    case None =>
      BareValue("null", tail);
    case Some(s) =>
      if AnyNeedsQuote(s) {
        var t := ['"'] + Escaped(s) + ['"'] + tail;
        assert t[1..] == Escaped(s) + ['"'] + tail;
        UnescapeEscaped(s, tail);
      } else {
        assert forall i :: 0 <= i < |s| ==> !NeedsQuote(s[i]);
        BareValue(s, tail);
      }
  }

  /** A value written bare has no space in it and does not open with a quote. */
  lemma BareValue(s: string, tail: string)
    requires forall i :: 0 <= i < |s| ==> s[i] != ' '
    requires s == [] || s[0] != '"'
    requires tail == [] || tail[0] == ' '
    ensures ReadValue(s + tail) == Some((s, tail))
  {
    var t := s + tail;
    if s == [] {
      assert t == tail;
    }
    FirstAfter(s, tail, ' ');
    if tail == [] {
      assert t == s;
    } else {
      assert t[..|s|] == s && t[|s|..] == tail;
    }
  }

  /** Every value, whatever it holds, reads back from its encoding. */
  lemma DecodeEncoded(value: Option<string>)
    ensures DecodeValue(Encoded(value)) == Some(ValueText(value))
  {
    ReadEncoded(value, []);
    assert Encoded(value) + [] == Encoded(value);
  }

  // ---------------------------------------------------------------------
  // Lines

  /** One `key=value` pair of a line. */
  function Token(key: string, value: Option<string>): string {
    key + ['='] + Encoded(value)
  }

  /** The builder after `appendPair`: a space before every pair but the first thing written. */
  function Append(sb: string, token: string): string {
    if sb == [] then token else sb + [' '] + token
  }

  /** The builder after a run of `appendPair` calls. */
  function Built(sb: string, tokens: seq<string>): string {
    if tokens == [] then sb else Append(Built(sb, tokens[..|tokens| - 1]), tokens[|tokens| - 1])
  }

  /** A key and its value, as `appendPairs` sees them. */
  type Pair = (string, Option<string>)

  /**
   * `appendPairs`' view of the varargs: consecutive (key, value) pairs, a
   * dangling last element dropped, each key passed through
   * `String.valueOf` (so a null key is the text `null`).
   */
  function PairsOf(kv: seq<Option<string>>): (ps: seq<Pair>)
    ensures |ps| == |kv| / 2
    ensures forall j :: 0 <= j < |ps| ==> ps[j] == (ValueText(kv[2 * j]), kv[2 * j + 1])
  {
    seq(|kv| / 2, j requires 0 <= j < |kv| / 2 => (ValueText(kv[2 * j]), kv[2 * j + 1]))
  }

  /** The pairs that get written: those with a key that is not blank. */
  function Tokens(ps: seq<Pair>): seq<string> {
    if ps == [] then []
    else
      var last := ps[|ps| - 1];
      Tokens(ps[..|ps| - 1]) + (if IsBlank(last.0) then [] else [Token(last.0, last.1)])
  }

  /** `appendPair(sb, key, value)`. */
  method AppendPair(sb: string, key: string, value: Option<string>) returns (r: string)
    ensures r == Built(sb, Tokens([(key, value)]))
  {
    assert [(key, value)][..0] == [];
    if IsBlank(key) {
      return sb;
    }
    var enc := EncodeValue(value);
    r := sb;
    if r != [] {
      r := r + [' '];
    }
    r := r + key + ['='] + enc;
  }

  /** `appendPairs(sb, kv)`: a null or empty array writes nothing. */
  method AppendPairs(sb: string, kv: Option<seq<Option<string>>>) returns (r: string)
    ensures r == Built(sb, Tokens(PairsOf(if kv.None? then [] else kv.value)))
  {
    r := sb;
    if kv.None? || |kv.value| == 0 {
      return;
    }
    var args := kv.value;
    var ps := PairsOf(args);
    var n := |args| - |args| % 2;
    var i := 0;
    ghost var j := 0;
    while i < n
      invariant 0 <= i <= n && i == 2 * j && j <= |ps|
      invariant r == Built(sb, Tokens(ps[..j]))
    {
      var key := ValueText(args[i]);
      var step := AppendPair(r, key, args[i + 1]);
      assert step == Built(sb, Tokens(ps[..j + 1])) by {
        assert (key, args[i + 1]) == ps[j];
        AppendOne(sb, ps, j);
      }
      r := step;
      i, j := i + 2, j + 1;
    }
    assert ps[..j] == ps;
  }

  /** Writing one more pair extends the line by that pair's tokens. */
  lemma AppendOne(sb: string, ps: seq<Pair>, j: nat)
    requires j < |ps|
    ensures Built(sb, Tokens(ps[..j + 1])) == Built(Built(sb, Tokens(ps[..j])), Tokens([ps[j]]))
  {
    BuiltConcat(sb, Tokens(ps[..j]), Tokens([ps[j]]));
    assert ps[..j + 1] == ps[..j] + [ps[j]];
    TokensConcat(ps[..j], [ps[j]]);
  }

  /** `event(event, kv...)`: the `event` pair first, then the pairs. */
  method Event(event: Option<string>, kv: Option<seq<Option<string>>>) returns (r: string)
    ensures r == Built([], [Token("event", event)] + Tokens(PairsOf(if kv.None? then [] else kv.value)))
  {
    var head := AppendPair([], "event", event);
    TokensSingle("event", event);
    assert head == Token("event", event);
    r := AppendPairs(head, kv);
    BuiltConcat([], [Token("event", event)], Tokens(PairsOf(if kv.None? then [] else kv.value)));
  }

  /** `kv(kv...)`: the pairs alone, trimmed. */
  method Kv(kv: Option<seq<Option<string>>>) returns (r: string)
    ensures r == Trim(Built([], Tokens(PairsOf(if kv.None? then [] else kv.value))))
  {
    r := AppendPairs([], kv);
    r := Trim(r);
  }

  lemma TokensSingle(key: string, value: Option<string>)
    ensures Tokens([(key, value)]) == if IsBlank(key) then [] else [Token(key, value)]
    ensures !IsBlank("event")
  {
    assert [(key, value)][..0] == [];
    assert !IsJavaWhitespace("event"[0]);
  }

  lemma {:induction false} BuiltConcat(sb: string, ts: seq<string>, us: seq<string>)
    ensures Built(sb, ts + us) == Built(Built(sb, ts), us)
    decreases |us|
  {
    if us == [] {
      assert ts + us == ts;
    } else {
      assert (ts + us)[..|ts + us| - 1] == ts + us[..|us| - 1];
      BuiltConcat(sb, ts, us[..|us| - 1]);
    }
  }

  lemma {:induction false} TokensConcat(ps: seq<Pair>, qs: seq<Pair>)
    ensures Tokens(ps + qs) == Tokens(ps) + Tokens(qs)
    decreases |qs|
  {
    if qs == [] {
      assert ps + qs == ps;
    } else {
      assert (ps + qs)[..|ps + qs| - 1] == ps + qs[..|qs| - 1];
      TokensConcat(ps, qs[..|qs| - 1]);
    }
  }

  // ---------------------------------------------------------------------
  // Reading lines back

  /**
   * Reads a line as pairs: a key up to the first '=', then a value, then
   * either the end of the line or one space and the next pair.
   */
  function ParsePairs(t: string): Option<seq<(string, string)>>
    decreases |t|
  {
    var eq := IndexOfChar(t, '=');
    if eq <= 0 then None
    else
      match ReadValue(t[eq + 1..])
      case None => None
      case Some((v, after)) =>
        if after == [] then Some([(t[..eq], v)])
        else if after[0] != ' ' then None
        else
          match ParsePairs(after[1..])
          case None => None
          case Some(more) => Some([(t[..eq], v)] + more)
  }

  function ParseLine(t: string): Option<seq<(string, string)>> {
    if t == [] then Some([]) else ParsePairs(t)
  }

  /** A key that reads back: not empty, and nothing in it that a value would have to quote. */
  predicate SimpleKey(k: string) {
    k != [] && forall i :: 0 <= i < |k| ==> !NeedsQuote(k[i])
  }

  /** The pairs a reader gets back. */
  function Decoded(ps: seq<Pair>): (ds: seq<(string, string)>)
    ensures |ds| == |ps|
  {
    if ps == [] then [] else [(ps[0].0, ValueText(ps[0].1))] + Decoded(ps[1..])
  }

  /** With simple keys nothing is skipped: one token per pair. */
  lemma {:induction false} TokensOfSimple(ps: seq<Pair>)
    requires forall j :: 0 <= j < |ps| ==> SimpleKey(ps[j].0)
    ensures |Tokens(ps)| == |ps|
    ensures forall j :: 0 <= j < |ps| ==> Tokens(ps)[j] == Token(ps[j].0, ps[j].1)
  {
    if ps != [] {
      var init, last := ps[..|ps| - 1], ps[|ps| - 1];
      TokensOfSimple(init);
      TokensSnoc(init, last);
      assert init + [last] == ps;
      forall j | 0 <= j < |ps|
        ensures Tokens(ps)[j] == Token(ps[j].0, ps[j].1)
      {
        if j < |init| {
          assert ps[j] == init[j];
        }
      }
    }
  }

  /** A pair with a simple key adds its token at the end. */
  lemma TokensSnoc(ps: seq<Pair>, p: Pair)
    requires SimpleKey(p.0)
    ensures Tokens(ps + [p]) == Tokens(ps) + [Token(p.0, p.1)]
  {
    assert (ps + [p])[..|ps|] == ps;
    assert !IsJavaWhitespace(p.0[0]);
  }

  /** A line of non-empty tokens, read from the front. */
  lemma {:induction false} BuiltFront(ts: seq<string>)
    requires ts != [] && forall j :: 0 <= j < |ts| ==> ts[j] != []
    ensures Built([], ts) == ts[0] + (if |ts| == 1 then [] else [' '] + Built([], ts[1..]))
    decreases |ts|
  {
    var n := |ts|;
    if n == 1 {
      assert ts[..0] == [];
    } else {
      var init := ts[..n - 1];
      BuiltFront(init);
      assert init[1..] == ts[1..][..n - 2];
      if n > 2 {
        BuiltFront(ts[1..]);
      } else {
        assert ts[1..][..0] == [];
      }
    }
  }

  /** One pair with a simple key, then the end of the line or a space and more. */
  lemma ParseToken(k: string, v: Option<string>, tail: string)
    requires SimpleKey(k)
    requires tail == [] || tail[0] == ' '
    ensures ParsePairs(Token(k, v) + tail) ==
      if tail == [] then Some([(k, ValueText(v))])
      else match ParsePairs(tail[1..])
           case None => None
           case Some(more) => Some([(k, ValueText(v))] + more)
  {
    var e := Encoded(v);
    KeyCutBefore(k, e, tail);
    ReadEncoded(v, tail);
    ParseStep(k + ['='] + e + tail, k, ValueText(v), tail);
  }

  /** `KeyCut` with the rest of the line in two parts. */
  lemma KeyCutBefore(k: string, e: string, tail: string)
    requires SimpleKey(k)
    ensures var t := k + ['='] + e + tail; IndexOfChar(t, '=') == |k| && t[..|k|] == k && t[|k| + 1..] == e + tail
  {
    KeyCut(k, e + tail);
    assert k + ['='] + e + tail == k + ['='] + (e + tail);
  }

  /** One step of the reader, once the key and the value are known. */
  lemma ParseStep(t: string, k: string, v: string, after: string)
    requires k != [] && IndexOfChar(t, '=') == |k| && t[..|k|] == k
    requires ReadValue(t[|k| + 1..]) == Some((v, after))
    requires after == [] || after[0] == ' '
    ensures ParsePairs(t) ==
      if after == [] then Some([(k, v)])
      else match ParsePairs(after[1..])
           case None => None
           case Some(more) => Some([(k, v)] + more)
  {
  }

  /** Where the reader cuts a simple key from its value. */
  lemma KeyCut(k: string, rest: string)
    requires SimpleKey(k)
    ensures var t := k + ['='] + rest; IndexOfChar(t, '=') == |k| && t[..|k|] == k && t[|k| + 1..] == rest
  {
    FirstAfter(k, ['='] + rest, '=');
    assert k + ['='] + rest == k + (['='] + rest);
  }

  /**
   * A line written from pairs with simple keys reads back as those keys,
   * in order, each with its value's text.
   */
  lemma ParseBuilt(ps: seq<Pair>)
    requires forall j :: 0 <= j < |ps| ==> SimpleKey(ps[j].0)
    ensures ParseLine(Built([], Tokens(ps))) == Some(Decoded(ps))
  {
    BuiltIsLine(ps);
    ParseLineOf(ps);
  }

  /** The line of pairs with simple keys, read from the front. */
  function Line(ps: seq<Pair>): string {
    if ps == [] then []
    else if |ps| == 1 then Token(ps[0].0, ps[0].1)
    else Token(ps[0].0, ps[0].1) + [' '] + Line(ps[1..])
  }

  lemma {:induction false} ParseLineOf(ps: seq<Pair>)
    requires forall j :: 0 <= j < |ps| ==> SimpleKey(ps[j].0)
    ensures ParseLine(Line(ps)) == Some(Decoded(ps))
  {
    if |ps| == 1 {
      ParseOne(ps[0].0, ps[0].1);
      assert ps[1..] == [];
      assert Line(ps) == Token(ps[0].0, ps[0].1);
      assert Decoded(ps) == [(ps[0].0, ValueText(ps[0].1))];
    } else if |ps| > 1 {
      ParseLineOf(ps[1..]);
      assert Line(ps[1..]) != [] by { assert |ps[1..]| >= 1; }
      ParseCons(ps[0].0, ps[0].1, Line(ps[1..]), Decoded(ps[1..]));
    }
  }

  lemma {:induction false} BuiltIsLine(ps: seq<Pair>)
    requires forall j :: 0 <= j < |ps| ==> SimpleKey(ps[j].0)
    ensures Built([], Tokens(ps)) == Line(ps)
  {
    if ps != [] {
      var ts := Tokens(ps);
      assert |ts| == |ps| && ts[0] == Token(ps[0].0, ps[0].1) &&
        Built([], ts) == ts[0] + (if |ts| == 1 then [] else [' '] + Built([], ts[1..])) by {
        TokensOfSimple(ps);
        NonEmptyTokens(ps);
        BuiltFront(ts);
      }
      if |ps| > 1 {
        var rest := ps[1..];
        assert Tokens(rest) == ts[1..] by {
          TokensOfSimple(ps);
          TokensOfSimple(rest);
        }
        BuiltIsLine(rest);
      }
    }
  }

  lemma NonEmptyTokens(ps: seq<Pair>)
    requires |Tokens(ps)| == |ps|
    requires forall j :: 0 <= j < |ps| ==> Tokens(ps)[j] == Token(ps[j].0, ps[j].1)
    ensures forall j :: 0 <= j < |ps| ==> Tokens(ps)[j] != []
  {
  }

  /** A line of one pair. */
  lemma ParseOne(k: string, v: Option<string>)
    requires SimpleKey(k)
    ensures ParseLine(Token(k, v)) == Some([(k, ValueText(v))])
  {
    ParseToken(k, v, []);
    assert Token(k, v) + [] == Token(k, v);
  }

  /** A pair, a space and a line that reads back. */
  lemma ParseCons(k: string, v: Option<string>, line: string, more: seq<(string, string)>)
    requires SimpleKey(k)
    requires line != [] && ParseLine(line) == Some(more)
    ensures ParseLine(Token(k, v) + [' '] + line) == Some([(k, ValueText(v))] + more)
  {
    ParseToken(k, v, [' '] + line);
    assert ([' '] + line)[1..] == line;
    assert Token(k, v) + ([' '] + line) == Token(k, v) + [' '] + line;
  }

  /** An `event` line with simple keys reads back as `event` and then the pairs. */
  lemma EventReadsBack(event: Option<string>, kv: seq<Option<string>>)
    requires forall j :: 0 <= j < |kv| / 2 ==> SimpleKey(ValueText(kv[2 * j]))
    ensures ParseLine(Built([], [Token("event", event)] + Tokens(PairsOf(kv)))) ==
      Some([("event", ValueText(event))] + Decoded(PairsOf(kv)))
  {
    var qs := PairsOf(kv);
    var ps := [("event", event)] + qs;
    assert ps[1..] == qs;
    SimpleKeysOf(kv);
    EventKeySimple();
    assert forall j :: 0 <= j < |ps| ==> SimpleKey(ps[j].0) by {
      forall j | 0 <= j < |ps| ensures SimpleKey(ps[j].0) {
        if j > 0 {
          assert ps[j] == qs[j - 1];
        }
      }
    }
    TokensConcat([("event", event)], qs);
    TokensSingle("event", event);
    ParseBuilt(ps);
  }

  lemma EventKeySimple()
    ensures SimpleKey("event")
  {
  }

  lemma SimpleKeysOf(kv: seq<Option<string>>)
    requires forall j :: 0 <= j < |kv| / 2 ==> SimpleKey(ValueText(kv[2 * j]))
    ensures forall j :: 0 <= j < |PairsOf(kv)| ==> SimpleKey(PairsOf(kv)[j].0)
  {
  }

  /** A `kv` line with simple keys has nothing to trim and reads back as the pairs. */
  lemma KvReadsBack(kv: seq<Option<string>>)
    requires forall j :: 0 <= j < |kv| / 2 ==> SimpleKey(ValueText(kv[2 * j]))
    ensures Trim(Built([], Tokens(PairsOf(kv)))) == Built([], Tokens(PairsOf(kv)))
    ensures ParseLine(Trim(Built([], Tokens(PairsOf(kv))))) == Some(Decoded(PairsOf(kv)))
  {
    var ps := PairsOf(kv);
    SimpleKeysOf(kv);
    ParseBuilt(ps);
    LineTrimmed(ps);
  }

  /** A line of pairs with simple keys has nothing for `trim()` to strip. */
  lemma LineTrimmed(ps: seq<Pair>)
    requires forall j :: 0 <= j < |ps| ==> SimpleKey(ps[j].0)
    ensures Trim(Built([], Tokens(ps))) == Built([], Tokens(ps))
  {
    BuiltIsLine(ps);
    if ps != [] {
      LineEnds(ps);
    }
    TrimOfTrimmed(Line(ps));
  }

  lemma {:induction false} LineEnds(ps: seq<Pair>)
    requires ps != [] && forall j :: 0 <= j < |ps| ==> SimpleKey(ps[j].0)
    ensures var line := Line(ps); line != [] && !IsTrimmable(line[0]) && !IsTrimmable(line[|line| - 1])
  {
    var k, v := ps[0].0, ps[0].1;
    var t := Token(k, v);
    assert t[0] == k[0] && !NeedsQuote(k[0]);
    TokenEnd(k, v);
    if |ps| > 1 {
      LineEnds(ps[1..]);
    }
  }

  /** A pair never ends in a character `trim()` strips. */
  lemma TokenEnd(k: string, v: Option<string>)
    ensures var t := Token(k, v); !IsTrimmable(t[|t| - 1])
  {
    match v
    case None =>
    case Some(s) =>
      if !AnyNeedsQuote(s) && s != [] {
        assert !NeedsQuote(s[|s| - 1]);
      }
  }
}
