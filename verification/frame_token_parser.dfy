/**
 * `FrameTokenParser`: a decoded frame is a whitespace-separated list of
 * `NAME=VALUE` tokens. `extractCmdUpper` finds the first CMD token and
 * `parseToUpperKeyMap` builds an upper-cased key map in which the last
 * duplicate wins.
 *
 * Tokens are the maximal runs of characters that are not
 * `Character.isWhitespace` (`JavaText.Words`); both scanning loops are
 * proved to visit exactly those runs, in order.
 */
module FrameTokenParser {
  import opened Wrappers
  import opened JavaText

  /** The separator class of the scanning loops. */
  predicate IsSep(c: char) { IsJavaWhitespace(c) }

  /** The tokens of a frame. */
  function Tokens(s: string): (ts: seq<string>)
    ensures forall k :: 0 <= k < |ts| ==> ts[k] != []
  {
    Words(s, IsSep)
  }

  // ---------------------------------------------------------------------
  // extractCmdUpper

  /** What one token contributes to the CMD search: nothing, or the answer. */
  datatype Verdict = Skip | Stop(cmd: Option<string>)

  /**
   * One token of `extractCmdUpper`: no '=', an empty name or a trailing '='
   * is skipped, as is a name that is not CMD; a CMD token ends the search,
   * with null when its trimmed value is empty.
   */
  function TokenCmd(token: string): Verdict {
    var eq := IndexOfChar(token, '=');
    if eq <= 0 || eq == |token| - 1 then Skip
    else
      var name := Trim(token[..eq]);
      if name == [] || ToUpper(name) != "CMD" then Skip
      else
        var value := Trim(token[eq + 1..]);
        if value == [] then Stop(None) else Stop(Some(ToUpper(value)))
  }

  /** The verdict of each token, in order. */
  function Verdicts(ts: seq<string>): (vs: seq<Verdict>)
    ensures |vs| == |ts| && forall k :: 0 <= k < |ts| ==> vs[k] == TokenCmd(ts[k])
  {
    seq(|ts|, k requires 0 <= k < |ts| => TokenCmd(ts[k]))
  }

  /** The first verdict that is not a skip decides; none gives null. */
  function FirstCmd(vs: seq<Verdict>): Option<string> {
    if vs == [] then None
    else match vs[0]
      case Skip => FirstCmd(vs[1..])
      case Stop(v) => v
  }

  /** `extractCmdUpper(frame)`. */
  function ExtractCmdUpper(frame: Option<string>): Option<string> {
    if frame.None? || IsBlank(frame.value) then None
    else FirstCmd(Verdicts(Tokens(frame.value)))
  }

  lemma VerdictsCons(t: string, ts: seq<string>)
    ensures Verdicts([t] + ts) == [TokenCmd(t)] + Verdicts(ts)
  {
    var l := Verdicts([t] + ts);
    var r := [TokenCmd(t)] + Verdicts(ts);
    forall k | 0 <= k < |l|
      ensures l[k] == r[k]
    {
      if k > 0 {
        assert ([t] + ts)[k] == ts[k - 1];
      }
    }
  }

  /**
   * One round of the scanning loops: skip whitespace, then take the run up
   * to the next whitespace. It is the next token, or there is none left.
   */
  method NextToken(s: string, from: nat) returns (found: bool, tokenStart: nat, i: nat)
    requires from <= |s|
    ensures !found ==> i == |s| && Tokens(s[from..]) == []
    ensures found ==> from <= tokenStart < i <= |s| && Tokens(s[from..]) == [s[tokenStart..i]] + Tokens(s[i..])
  {
    i := from;
    while i < |s| && IsSep(s[i])
      invariant from <= i <= |s|
      invariant Tokens(s[i..]) == Tokens(s[from..])
    {
      WordsSkipSeparator(s, i, IsSep);
      i := i + 1;
    }
    if i >= |s| {
      assert s[i..] == [];
      return false, i, i;
    }
    tokenStart := i;
    while i < |s| && !IsSep(s[i])
      invariant tokenStart <= i <= |s|
      invariant forall j :: tokenStart <= j < i ==> !IsSep(s[j])
    {
      i := i + 1;
    }
    WordsTakeRun(s, tokenStart, i, IsSep);
    found := true;
  }

  /**
   * The scanning loop of `extractCmdUpper`: token after token until one
   * decides.
   */
  method ExtractCmdUpperScan(frame: Option<string>) returns (r: Option<string>)
    ensures r == ExtractCmdUpper(frame)
    ensures frame.None? || IsBlank(frame.value) ==> r.None?
  {
    if frame.None? || IsBlank(frame.value) {
      return None;
    }
    var s := frame.value;
    var i := 0;
    assert s[0..] == s;
    while i < |s|
      invariant 0 <= i <= |s|
      invariant FirstCmd(Verdicts(Tokens(s[i..]))) == FirstCmd(Verdicts(Tokens(s)))
    {
      var found, tokenStart, next := NextToken(s, i);
      if !found {
        i := next;
        break;
      }
      var token := s[tokenStart..next];
      VerdictsCons(token, Tokens(s[next..]));
      var v := TokenCmd(token);
      if v.Stop? {
        return v.cmd;
      }
      i := next;
    }
    assert s[i..] == [];
    return None;
  }

  /** The first deciding token wins: every earlier token is skipped. */
  lemma {:induction false} FirstCmdWins(vs: seq<Verdict>, k: nat)
    requires k < |vs| && vs[k].Stop?
    requires forall j :: 0 <= j < k ==> vs[j].Skip?
    ensures FirstCmd(vs) == vs[k].cmd
  {
    if k > 0 {
      FirstCmdWins(vs[1..], k - 1);
    }
  }

  /** With every token skipped there is no CMD. */
  lemma {:induction false} FirstCmdAllSkipped(vs: seq<Verdict>)
    requires forall j :: 0 <= j < |vs| ==> vs[j].Skip?
    ensures FirstCmd(vs).None?
  {
    if vs != [] {
      FirstCmdAllSkipped(vs[1..]);
    }
  }

  /** A found CMD is the answer of one of the verdicts. */
  lemma {:induction false} FirstCmdFound(vs: seq<Verdict>)
    ensures var r := FirstCmd(vs);
      r.Some? ==> exists k :: 0 <= k < |vs| && vs[k] == Stop(r)
  {
    if vs != [] && vs[0].Skip? {
      FirstCmdFound(vs[1..]);
      var r := FirstCmd(vs);
      if r.Some? {
        var k :| 0 <= k < |vs[1..]| && vs[1..][k] == Stop(r);
        assert vs[k + 1] == vs[1..][k];
      }
    }
  }

  /** A CMD token's answer is non-empty and upper case. */
  lemma TokenCmdUpper(token: string)
    ensures var v := TokenCmd(token);
      v.Stop? && v.cmd.Some? ==> v.cmd.value != [] && ToUpper(v.cmd.value) == v.cmd.value
  {
    var eq := IndexOfChar(token, '=');
    if eq > 0 && eq != |token| - 1 {
      UpperIdempotent(Trim(token[eq + 1..]));
    }
  }

  /**
   * `extractCmdUpper` answers with the upper-cased value of a CMD token of
   * the frame, never with an empty string.
   */
  lemma CmdFound(frame: Option<string>)
    ensures var r := ExtractCmdUpper(frame);
      r.Some? ==> r.value != [] && ToUpper(r.value) == r.value
  {
    var r := ExtractCmdUpper(frame);
    if r.Some? {
      var ts := Tokens(frame.value);
      FirstCmdFound(Verdicts(ts));
      var k :| 0 <= k < |ts| && Verdicts(ts)[k] == Stop(r);
      TokenCmdUpper(ts[k]);
    }
  }

  /** Upper-casing twice is upper-casing once. */
  lemma UpperIdempotent(s: string)
    ensures ToUpper(ToUpper(s)) == ToUpper(s)
  {
  }

  // ---------------------------------------------------------------------
  // parseToUpperKeyMap

  /**
   * One token of `parseToUpperKeyMap`: no '=' or an empty (trimmed) name
   * is skipped; otherwise the upper-cased name and the trimmed text after
   * the first '=' ("" for a trailing '=').
   */
  function TokenEntry(token: string): Option<(string, string)> {
    var eq := IndexOfChar(token, '=');
    if eq <= 0 then None
    else
      var name := Trim(token[..eq]);
      if name == [] then None
      else
        var value := if eq < |token| - 1 then Trim(token[eq + 1..]) else "";
        Some((ToUpper(name), value))
  }

  /** The entry of each token, in order. */
  function Entries(ts: seq<string>): (es: seq<Option<(string, string)>>)
    ensures |es| == |ts| && forall k :: 0 <= k < |ts| ==> es[k] == TokenEntry(ts[k])
  {
    seq(|ts|, k requires 0 <= k < |ts| => TokenEntry(ts[k]))
  }

  lemma EntriesCons(t: string, ts: seq<string>)
    ensures Entries([t] + ts) == [TokenEntry(t)] + Entries(ts)
  {
    var l := Entries([t] + ts);
    var r := [TokenEntry(t)] + Entries(ts);
    forall k | 0 <= k < |l|
      ensures l[k] == r[k]
    {
      if k > 0 {
        assert ([t] + ts)[k] == ts[k - 1];
      }
    }
  }

  /** `out.put(name, value)` for an entry; nothing for a skipped token. */
  function Put(m: map<string, string>, e: Option<(string, string)>): map<string, string> {
    match e
    case None => m
    case Some(kv) => m[kv.0 := kv.1]
  }

  /** The puts, in order. */
  function PutAll(m: map<string, string>, es: seq<Option<(string, string)>>): map<string, string>
    decreases |es|
  {
    if es == [] then m else PutAll(Put(m, es[0]), es[1..])
  }

  /** `parseToUpperKeyMap(frame)`; the map's insertion order is not modelled. */
  function ToUpperKeyMap(frame: Option<string>): map<string, string> {
    if frame.None? || IsBlank(frame.value) then map[]
    else PutAll(map[], Entries(Tokens(frame.value)))
  }

  /** The scanning loop of `parseToUpperKeyMap`. */
  method ParseToUpperKeyMap(frame: Option<string>) returns (out: map<string, string>)
    ensures out == ToUpperKeyMap(frame)
    ensures frame.None? || IsBlank(frame.value) ==> out == map[]
  {
    out := map[];
    if frame.None? || IsBlank(frame.value) {
      return;
    }
    var s := frame.value;
    var i := 0;
    assert s[0..] == s;
    while i < |s|
      invariant 0 <= i <= |s|
      invariant PutAll(out, Entries(Tokens(s[i..]))) == ToUpperKeyMap(frame)
    {
      var found, tokenStart, next := NextToken(s, i);
      i := next;
      if !found {
        break;
      }
      var token := s[tokenStart..next];
      EntriesCons(token, Tokens(s[next..]));
      out := Put(out, TokenEntry(token));
    }
    assert s[i..] == [];
  }

  /** An entry's key is upper case. */
  lemma EntryKeyUpper(token: string)
    ensures var e := TokenEntry(token);
      e.Some? ==> ToUpper(e.value.0) == e.value.0
  {
    var eq := IndexOfChar(token, '=');
    if eq > 0 {
      UpperIdempotent(Trim(token[..eq]));
    }
  }

  /** Puts of upper-case keys keep every key upper case. */
  lemma {:induction false} KeysUpper(m: map<string, string>, es: seq<Option<(string, string)>>)
    requires forall key :: key in m ==> ToUpper(key) == key
    requires forall j :: 0 <= j < |es| && es[j].Some? ==> ToUpper(es[j].value.0) == es[j].value.0
    ensures forall key :: key in PutAll(m, es) ==> ToUpper(key) == key
    decreases |es|
  {
    if es != [] {
      KeysUpper(Put(m, es[0]), es[1..]);
    }
  }

  /** Every key of `parseToUpperKeyMap` is upper case. */
  lemma ToUpperKeyMapKeys(frame: Option<string>)
    ensures forall key :: key in ToUpperKeyMap(frame) ==> ToUpper(key) == key
  {
    if frame.Some? && !IsBlank(frame.value) {
      var ts := Tokens(frame.value);
      forall j | 0 <= j < |ts|
        ensures var e := Entries(ts)[j];
          e.Some? ==> ToUpper(e.value.0) == e.value.0
      {
        EntryKeyUpper(ts[j]);
      }
      KeysUpper(map[], Entries(ts));
    }
  }

  /** A key no entry puts keeps its old presence and value. */
  lemma {:induction false} KeyUntouched(m: map<string, string>, es: seq<Option<(string, string)>>, key: string)
    requires forall j :: 0 <= j < |es| ==> es[j].None? || es[j].value.0 != key
    ensures key in PutAll(m, es) <==> key in m
    ensures key in m ==> PutAll(m, es)[key] == m[key]
    decreases |es|
  {
    if es != [] {
      KeyUntouched(Put(m, es[0]), es[1..], key);
    }
  }

  /** Last write wins: a key's value is that of the last entry putting it. */
  lemma {:induction false} LastWins(m: map<string, string>, es: seq<Option<(string, string)>>, k: nat, key: string, value: string)
    requires k < |es| && es[k] == Some((key, value))
    requires forall j :: k < j < |es| ==> es[j].None? || es[j].value.0 != key
    ensures key in PutAll(m, es) && PutAll(m, es)[key] == value
    decreases |es|
  {
    if k == 0 {
      KeyUntouched(Put(m, es[0]), es[1..], key);
    } else {
      LastWins(Put(m, es[0]), es[1..], k - 1, key, value);
    }
  }

  /** Every key of the map was put by some entry, or was there before. */
  lemma {:induction false} KeyHasEntry(m: map<string, string>, es: seq<Option<(string, string)>>, key: string)
    requires key in PutAll(m, es) && key !in m
    ensures exists j :: 0 <= j < |es| && es[j].Some? && es[j].value.0 == key
    decreases |es|
  {
    if es != [] && !(es[0].Some? && es[0].value.0 == key) {
      KeyHasEntry(Put(m, es[0]), es[1..], key);
      var j :| 0 <= j < |es[1..]| && es[1..][j].Some? && es[1..][j].value.0 == key;
      assert es[j + 1] == es[1..][j];
    }
  }

  /** Puts never remove a key. */
  lemma {:induction false} KeysKept(m: map<string, string>, es: seq<Option<(string, string)>>, key: string)
    requires key in m
    ensures key in PutAll(m, es)
    decreases |es|
  {
    if es != [] {
      KeysKept(Put(m, es[0]), es[1..], key);
    }
  }

  /** The key of every entry is in the map. */
  lemma {:induction false} EntryKeyPresent(m: map<string, string>, es: seq<Option<(string, string)>>, k: nat)
    requires k < |es| && es[k].Some?
    ensures es[k].value.0 in PutAll(m, es)
    decreases |es|
  {
    if k == 0 {
      KeysKept(Put(m, es[0]), es[1..], es[0].value.0);
    } else {
      EntryKeyPresent(Put(m, es[0]), es[1..], k - 1);
    }
  }

  /** A token that answers the CMD search is an entry with key CMD. */
  lemma CmdTokenIsEntry(token: string)
    requires TokenCmd(token).Stop?
    ensures TokenEntry(token).Some? && TokenEntry(token).value.0 == "CMD"
  {
  }

  /** Whenever `extractCmdUpper` finds a CMD, `parseToUpperKeyMap` has the key CMD. */
  lemma CmdImpliesKey(frame: Option<string>)
    requires ExtractCmdUpper(frame).Some?
    ensures "CMD" in ToUpperKeyMap(frame)
  {
    var ts := Tokens(frame.value);
    FirstCmdFound(Verdicts(ts));
    var k :| 0 <= k < |ts| && Verdicts(ts)[k] == Stop(ExtractCmdUpper(frame));
    CmdTokenIsEntry(ts[k]);
    EntryKeyPresent(map[], Entries(ts), k);
  }

  // ---------------------------------------------------------------------
  // Tokens built from a name and a value

  /** A non-empty run without separators. */
  predicate Solid(w: string) {
    w != [] && forall i :: 0 <= i < |w| ==> !IsSep(w[i])
  }

  /** A name piece: a value piece without '='. */
  predicate Plain(w: string) {
    PlainValue(w) && forall i :: 0 <= i < |w| ==> w[i] != '='
  }

  /** A value piece: no whitespace and nothing trim removes; it may hold '='. */
  predicate PlainValue(w: string) {
    w != [] && forall i :: 0 <= i < |w| ==> w[i] > ' ' && !IsSep(w[i])
  }

  lemma PlainTrimmed(w: string)
    requires PlainValue(w)
    ensures Trim(w) == w
  {
    TrimOfTrimmed(w);
  }

  /** The first '=' of name=value is the one after the name. */
  lemma EqAfterName(name: string, value: string)
    requires Plain(name)
    ensures IndexOfChar(name + "=" + value, '=') == |name|
    ensures (name + "=" + value)[..|name|] == name
    ensures (name + "=" + value)[|name| + 1..] == value
  {
    var t := name + "=" + value;
    assert t[|name|] == '=';
    assert forall i :: 0 <= i < |name| ==> t[i] == name[i];
  }

  /**
   * The value of an entry is everything after the first '=', trimmed, so
   * "loop=count=5" puts LOOP -> "count=5"; "NAME=" puts NAME -> "".
   */
  lemma EntryOfNameValue(name: string, value: string)
    requires Plain(name)
    ensures TokenEntry(name + "=" + value) == Some((ToUpper(name), Trim(value)))
  {
    EqAfterName(name, value);
    PlainTrimmed(name);
    if value == [] {
      assert Trim(value) == [];
    }
  }

  /** A CMD token answers with its upper-cased value; another name is skipped. */
  lemma CmdOfNameValue(name: string, value: string)
    requires Plain(name) && PlainValue(value)
    ensures TokenCmd(name + "=" + value) == if ToUpper(name) == "CMD" then Stop(Some(ToUpper(value))) else Skip
  {
    EqAfterName(name, value);
    PlainTrimmed(name);
    PlainTrimmed(value);
  }

  /** Leading separators do not change the tokens. */
  lemma {:induction false} TokensAfterSeparators(pre: string, s: string)
    requires forall i :: 0 <= i < |pre| ==> IsSep(pre[i])
    ensures Tokens(pre + s) == Tokens(s)
  {
    if pre != [] {
      TokensAfterSeparators(pre[1..], s);
      WordsSkipSeparator(pre + s, 0, IsSep);
      assert (pre + s)[0..] == pre + s;
      assert (pre + s)[1..] == pre[1..] + s;
    }
  }

  /** A run of separators has no tokens. */
  lemma SeparatorsOnly(pre: string)
    requires forall i :: 0 <= i < |pre| ==> IsSep(pre[i])
    ensures Tokens(pre) == []
  {
    TokensAfterSeparators(pre, []);
    assert pre + [] == pre;
  }

  /** Separator padding, a token, then separator padding and the rest. */
  lemma TokensPadded(pre: string, w: string, gap: string, rest: string)
    requires forall i :: 0 <= i < |pre| ==> IsSep(pre[i])
    requires forall i :: 0 <= i < |gap| ==> IsSep(gap[i])
    requires gap != [] && Solid(w)
    ensures Tokens(pre + w + gap + rest) == [w] + Tokens(rest)
  {
    var tail := w + gap + rest;
    assert pre + w + gap + rest == pre + tail;
    TokensAfterSeparators(pre, tail);
    assert tail == w + [gap[0]] + (gap[1..] + rest);
    WordsCons(w, gap[0], gap[1..] + rest, IsSep);
    TokensAfterSeparators(gap[1..], rest);
  }

  /** A frame that is nothing but a token ends with it. */
  lemma TokensLast(w: string)
    requires Solid(w)
    ensures Tokens(w) == [w]
  {
    WordsOfWord(w, IsSep);
  }

  // ---------------------------------------------------------------------
  // Frames of the shape "n1=v1 n2=v2"

  /** A frame of two name=value tokens separated by padding. */
  function TwoTokenFrame(pre: string, n1: string, v1: string, gap: string, n2: string, v2: string, post: string): string {
    pre + (n1 + "=" + v1) + gap + (n2 + "=" + v2) + post
  }

  predicate Padding(p: string) {
    forall i :: 0 <= i < |p| ==> p[i] == ' '
  }

  lemma TwoTokens(pre: string, n1: string, v1: string, gap: string, n2: string, v2: string, post: string)
    requires Padding(pre) && Padding(gap) && Padding(post) && gap != []
    requires Plain(n1) && PlainValue(v1) && Plain(n2) && PlainValue(v2)
    ensures Tokens(TwoTokenFrame(pre, n1, v1, gap, n2, v2, post)) == [n1 + "=" + v1, n2 + "=" + v2]
    ensures !IsBlank(TwoTokenFrame(pre, n1, v1, gap, n2, v2, post))
  {
    var t1 := n1 + "=" + v1;
    var t2 := n2 + "=" + v2;
    PlainToken(n1, v1);
    PlainToken(n2, v2);
    if post == [] {
      TokensPadded(pre, t1, gap, t2);
      TokensLast(t2);
      assert TwoTokenFrame(pre, n1, v1, gap, n2, v2, post) == pre + t1 + gap + t2;
    } else {
      TokensPadded(pre, t1, gap, t2 + post);
      TokensPadded([], t2, post, []);
      SeparatorsOnly([]);
      assert [] + t2 + post + [] == t2 + post;
      assert TwoTokenFrame(pre, n1, v1, gap, n2, v2, post) == pre + t1 + gap + (t2 + post);
    }
    var f := TwoTokenFrame(pre, n1, v1, gap, n2, v2, post);
    assert f[|pre|] == n1[0];
  }

  /** name=value of plain pieces is itself free of separators. */
  lemma PlainToken(name: string, value: string)
    requires Plain(name) && PlainValue(value)
    ensures Solid(name + "=" + value)
  {
  }

  lemma FirstCmdPair(a: Verdict, b: Verdict)
    ensures FirstCmd([a, b]) == if a.Stop? then a.cmd else if b.Stop? then b.cmd else None
  {
    assert [a, b][1..] == [b];
    assert [b][1..] == [];
    assert FirstCmd([b]) == if b.Stop? then b.cmd else None;
  }

  lemma PutAllPair(x: Option<(string, string)>, y: Option<(string, string)>)
    ensures PutAll(map[], [x, y]) == Put(Put(map[], x), y)
  {
    assert [x, y][1..] == [y];
    assert [y][1..] == [];
    assert PutAll(Put(Put(map[], x), y), []) == Put(Put(map[], x), y);
    assert PutAll(Put(map[], x), [y]) == Put(Put(map[], x), y);
  }

  lemma VerdictsPair(t1: string, t2: string)
    ensures Verdicts([t1, t2]) == [TokenCmd(t1), TokenCmd(t2)]
  {
    VerdictsCons(t1, [t2]);
    VerdictsCons(t2, []);
    assert [t1, t2] == [t1] + [t2] && [t2] == [t2] + [];
  }

  lemma EntriesPair(t1: string, t2: string)
    ensures Entries([t1, t2]) == [TokenEntry(t1), TokenEntry(t2)]
  {
    EntriesCons(t1, [t2]);
    EntriesCons(t2, []);
    assert [t1, t2] == [t1] + [t2] && [t2] == [t2] + [];
  }

  /**
   * On a frame "n1=v1 n2=v2" (any padding), the CMD is that of the first
   * token named cmd in any case.
   */
  lemma TwoTokenCmd(pre: string, n1: string, v1: string, gap: string, n2: string, v2: string, post: string)
    requires Padding(pre) && Padding(gap) && Padding(post) && gap != []
    requires Plain(n1) && PlainValue(v1) && Plain(n2) && PlainValue(v2)
    ensures ExtractCmdUpper(Some(TwoTokenFrame(pre, n1, v1, gap, n2, v2, post))) ==
      if ToUpper(n1) == "CMD" then Some(ToUpper(v1))
      else if ToUpper(n2) == "CMD" then Some(ToUpper(v2))
      else None
  {
    TwoTokens(pre, n1, v1, gap, n2, v2, post);
    var t1, t2 := n1 + "=" + v1, n2 + "=" + v2;
    CmdOfNameValue(n1, v1);
    CmdOfNameValue(n2, v2);
    VerdictsPair(t1, t2);
    FirstCmdPair(TokenCmd(t1), TokenCmd(t2));
  }

  /**
   * On a frame "n1=v1 n2=v2" (any padding), the map holds both upper-cased
   * names with their values, the second winning if the names coincide.
   */
  lemma TwoTokenMap(pre: string, n1: string, v1: string, gap: string, n2: string, v2: string, post: string)
    requires Padding(pre) && Padding(gap) && Padding(post) && gap != []
    requires Plain(n1) && PlainValue(v1) && Plain(n2) && PlainValue(v2)
    ensures ToUpperKeyMap(Some(TwoTokenFrame(pre, n1, v1, gap, n2, v2, post))) ==
      map[ToUpper(n1) := v1][ToUpper(n2) := v2]
  {
    TwoTokens(pre, n1, v1, gap, n2, v2, post);
    var t1, t2 := n1 + "=" + v1, n2 + "=" + v2;
    EntryOfNameValue(n1, v1);
    EntryOfNameValue(n2, v2);
    PlainTrimmed(v1);
    PlainTrimmed(v2);
    EntriesPair(t1, t2);
    PutAllPair(TokenEntry(t1), TokenEntry(t2));
  }

  /** "cmd=initialize eqpid=test001" gives INITIALIZE: names and values are case-insensitive. */
  lemma CaseInsensitiveCmd(n1: string, v1: string, n2: string, v2: string)
    requires n1 == "cmd" && v1 == "initialize" && n2 == "eqpid" && v2 == "test001"
    ensures ExtractCmdUpper(Some(TwoTokenFrame([], n1, v1, " ", n2, v2, []))) == Some("INITIALIZE")
  {
    assert ToUpper(n1) == "CMD";
    assert ToUpper(v1) == "INITIALIZE";
    TwoTokenCmd([], n1, v1, " ", n2, v2, []);
  }

  /** "EQPID=TEST001 LOTID=TESTLOT01" has no CMD token. */
  lemma NoCmdToken(n1: string, v1: string, n2: string, v2: string)
    requires n1 == "EQPID" && v1 == "TEST001" && n2 == "LOTID" && v2 == "TESTLOT01"
    ensures ExtractCmdUpper(Some(TwoTokenFrame([], n1, v1, " ", n2, v2, []))).None?
  {
    assert ToUpper(n1) == n1 && ToUpper(n2) == n2;
    TwoTokenCmd([], n1, v1, " ", n2, v2, []);
  }

  /** "  CMD=PING    EQPID=TEST001   " gives PING: padding is tolerated. */
  lemma PaddedCmd(n1: string, v1: string, n2: string, v2: string, pre: string, gap: string, post: string)
    requires n1 == "CMD" && v1 == "PING" && n2 == "EQPID" && v2 == "TEST001"
    requires pre == "  " && gap == "    " && post == "   "
    ensures ExtractCmdUpper(Some(TwoTokenFrame(pre, n1, v1, gap, n2, v2, post))) == Some("PING")
  {
    assert ToUpper(n1) == n1 && ToUpper(v1) == v1;
    TwoTokenCmd(pre, n1, v1, gap, n2, v2, post);
  }

  /** "CMD=A CMD=B" maps CMD to B: the last duplicate wins. */
  lemma LastDuplicateWins(n: string, a: string, b: string)
    requires n == "CMD" && a == "A" && b == "B"
    ensures ToUpperKeyMap(Some(TwoTokenFrame([], n, a, " ", n, b, []))) == map["CMD" := "B"]
  {
    assert ToUpper(n) == n;
    TwoTokenMap([], n, a, " ", n, b, []);
  }
}
