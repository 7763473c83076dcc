/**
 * `ScenarioTemplateResolver`: substitution of `{eqpid}` and `{var.<key>}`
 * placeholders in Send and Emit payloads. Placeholders are the matches of
 * `\{([^}]+)\}` (`Patterns.FindBrace`), found left to right without
 * overlap; each is replaced literally and replacements are never scanned
 * again.
 */
module TemplateResolver {
  import opened Wrappers
  import opened JavaText
  import opened Patterns
  import opened EqpRuntimes

  /** `key.equals("eqpid")`, letter by letter. */
  predicate IsEqpIdKey(k: string) {
    |k| == 5 && k[0] == 'e' && k[1] == 'q' && k[2] == 'p' && k[3] == 'i' && k[4] == 'd'
  }

  /** `key.startsWith("var.")`, letter by letter. */
  predicate HasVarPrefix(k: string) {
    |k| >= 4 && k[0] == 'v' && k[1] == 'a' && k[2] == 'r' && k[3] == '.'
  }

  /** The normalised key of a placeholder body: trimmed, then lower-cased. */
  function PlaceholderKey(keyRaw: string): string {
    ToLower(Trim(keyRaw))
  }

  /** The non-null value `getVarsLowerKey().get(varKey)` gives for a `var.` key, if any. */
  function VarValue(key: string, eqp: EqpRuntime): Option<string> {
    if HasVarPrefix(key) && key[4..] in eqp.vars && eqp.vars[key[4..]].Some? then eqp.vars[key[4..]]
    else None
  }

  /** The text put in place of the placeholder whose body is `keyRaw`. */
  function Replacement(keyRaw: string, eqp: EqpRuntime): (r: string)
    ensures IsEqpIdKey(PlaceholderKey(keyRaw)) ==> r == eqp.eqpId
    ensures !IsEqpIdKey(PlaceholderKey(keyRaw)) && VarValue(PlaceholderKey(keyRaw), eqp).Some? ==>
      r == VarValue(PlaceholderKey(keyRaw), eqp).value
    ensures !IsEqpIdKey(PlaceholderKey(keyRaw)) && VarValue(PlaceholderKey(keyRaw), eqp).None? ==>
      r == ['{'] + keyRaw + ['}']
  {
    var key := PlaceholderKey(keyRaw);
    if IsEqpIdKey(key) then eqp.eqpId
    else
      match VarValue(key, eqp)
      case Some(v) => v
      case None => ['{'] + keyRaw + ['}']
  }

  /** A placeholder that `Replacement` leaves as it was. */
  predicate Unknown(keyRaw: string, eqp: EqpRuntime) {
    !IsEqpIdKey(PlaceholderKey(keyRaw)) && VarValue(PlaceholderKey(keyRaw), eqp).None?
  }

  /** The replacement of each placeholder body, for one EQP. */
  function Replacer(eqp: EqpRuntime): string -> string {
    keyRaw => Replacement(keyRaw, eqp)
  }

  /**
   * The text produced from position `from` on: where a placeholder starts,
   * its body is handed to `replace` and the text after the match follows;
   * any other character is copied.
   */
  function ResolveFrom(t: string, from: nat, replace: string -> string): string
    requires from <= |t|
    decreases |t| - from
  {
    if from == |t| then []
    else
      match BraceMatchEnd(t, from)
      case Some(e) => replace(t[from + 1..e - 1]) + ResolveFrom(t, e, replace)
      case None => [t[from]] + ResolveFrom(t, from + 1, replace)
  }

  /** `resolve(template, eqp)`: a null or empty template comes back as it was. */
  function Resolve(template: Option<string>, eqp: EqpRuntime): (r: Option<string>)
    ensures template.None? || template.value == [] ==> r == template
    ensures template.Some? ==> r.Some?
  {
    if template.None? || template.value == [] then template
    else Some(ResolveFrom(template.value, 0, Replacer(eqp)))
  }

  /** `resolve(template, eqp)` as the source runs it. */
  method ResolveTemplate(template: Option<string>, eqp: EqpRuntime) returns (r: Option<string>)
    ensures r == Resolve(template, eqp)
  {
    if template.None? || template.value == [] {
      return template;
    }
    var s := ResolveText(template.value, Replacer(eqp));
    r := Some(s);
  }

  /**
   * The `while (m.find())` loop: `appendReplacement` copies the text from
   * the append position to the match and then the replacement;
   * `appendTail` copies the rest.
   */
  method ResolveText(t: string, replace: string -> string) returns (sb: string)
    ensures sb == ResolveFrom(t, 0, replace)
  {
    sb := "";
    var pos := 0;
    var found := FindBrace(t, 0);
    while found.Some?
      invariant pos <= |t|
      invariant found == FindBrace(t, pos)
      invariant sb + ResolveFrom(t, pos, replace) == ResolveFrom(t, 0, replace)
      decreases |t| - pos
    {
      var sp := found.value;
      var piece := t[pos..sp.start] + replace(t[sp.start + 1..sp.end - 1]);
      ghost var rest := ResolveFrom(t, sp.end, replace);
      FoundStep(t, pos, sp, replace);
      assert ResolveFrom(t, pos, replace) == piece + rest;
      AppendAssoc(sb, piece, rest);
      sb := sb + piece;
      pos := sp.end;
      found := FindBrace(t, pos);
    }
    NotFoundRest(t, pos, replace);
    sb := sb + t[pos..];
  }

  // ---------------------------------------------------------------------
  // Properties

  /** Text in which no placeholder starts is copied unchanged. */
  lemma {:induction false} CopiedUpTo(t: string, from: nat, upto: nat, replace: string -> string)
    requires from <= upto <= |t|
    requires forall p :: from <= p < upto ==> BraceMatchEnd(t, p).None?
    ensures ResolveFrom(t, from, replace) == t[from..upto] + ResolveFrom(t, upto, replace)
    decreases upto - from
  {
    if from < upto {
      CopiedUpTo(t, from + 1, upto, replace);
      PlainStep(t, from, replace);
      SliceCons(t, from, upto);
    }
  }

  /** One character that starts no placeholder is copied. */
  lemma PlainStep(t: string, from: nat, replace: string -> string)
    requires from < |t| && BraceMatchEnd(t, from).None?
    ensures ResolveFrom(t, from, replace) == [t[from]] + ResolveFrom(t, from + 1, replace)
  {
  }

  /** One placeholder is replaced and the scan resumes after it. */
  lemma MatchStep(t: string, from: nat, e: nat, replace: string -> string)
    requires from < |t| && BraceMatchEnd(t, from) == Some(e)
    ensures ResolveFrom(t, from, replace) == replace(t[from + 1..e - 1]) + ResolveFrom(t, e, replace)
  {
  }

  lemma SliceCons(t: string, from: nat, upto: nat)
    requires from < upto <= |t|
    ensures t[from..upto] == [t[from]] + t[from + 1..upto]
  {
  }

  lemma AppendAssoc(a: string, b: string, c: string)
    ensures a + (b + c) == (a + b) + c
  {
  }

  /** What the scan does from a position where `find()` reports the next match. */
  lemma FoundStep(t: string, pos: nat, sp: Span, replace: string -> string)
    requires pos <= |t| && FindBrace(t, pos) == Some(sp)
    ensures ResolveFrom(t, pos, replace)
      == (t[pos..sp.start] + replace(t[sp.start + 1..sp.end - 1])) + ResolveFrom(t, sp.end, replace)
  {
    CopiedUpTo(t, pos, sp.start, replace);
    MatchStep(t, sp.start, sp.end, replace);
    AppendAssoc(t[pos..sp.start], replace(t[sp.start + 1..sp.end - 1]), ResolveFrom(t, sp.end, replace));
  }

  /** Where `find()` reports no further match, the rest is copied. */
  lemma NotFoundRest(t: string, pos: nat, replace: string -> string)
    requires pos <= |t| && FindBrace(t, pos).None?
    ensures ResolveFrom(t, pos, replace) == t[pos..]
  {
    CopiedUpTo(t, pos, |t|, replace);
  }

  /** Without a '{' from `from` on, the rest of the text is copied unchanged. */
  lemma NoPlaceholderCopied(t: string, from: nat, replace: string -> string)
    requires from <= |t|
    requires forall p :: from <= p < |t| ==> t[p] != '{'
    ensures ResolveFrom(t, from, replace) == t[from..]
  {
    CopiedUpTo(t, from, |t|, replace);
  }

  /** Every placeholder the scan from `from` meets is given back by `replace` as it was. */
  predicate VerbatimFrom(t: string, from: nat, replace: string -> string)
    requires from <= |t|
    decreases |t| - from
  {
    if from == |t| then true
    else
      match BraceMatchEnd(t, from)
      case Some(e) => replace(t[from + 1..e - 1]) == ['{'] + t[from + 1..e - 1] + ['}'] && VerbatimFrom(t, e, replace)
      case None => VerbatimFrom(t, from + 1, replace)
  }

  /** A replacement that gives every placeholder back as it was leaves the text unchanged. */
  lemma {:induction false} VerbatimKeepsText(t: string, from: nat, replace: string -> string)
    requires from <= |t| && VerbatimFrom(t, from, replace)
    ensures ResolveFrom(t, from, replace) == t[from..]
    decreases |t| - from
  {
    if from < |t| {
      var m := BraceMatchEnd(t, from);
      if m.None? {
        VerbatimKeepsText(t, from + 1, replace);
        PlainKept(t, from, replace);
      } else {
        VerbatimKeepsText(t, m.value, replace);
        MatchKept(t, from, m.value, replace);
      }
    }
  }

  lemma PlainKept(t: string, from: nat, replace: string -> string)
    requires from < |t| && BraceMatchEnd(t, from).None?
    requires ResolveFrom(t, from + 1, replace) == t[from + 1..]
    ensures ResolveFrom(t, from, replace) == t[from..]
  {
    PlainStep(t, from, replace);
    SliceCons(t, from, |t|);
  }

  lemma MatchKept(t: string, from: nat, e: nat, replace: string -> string)
    requires from < |t| && BraceMatchEnd(t, from) == Some(e)
    requires replace(t[from + 1..e - 1]) == ['{'] + t[from + 1..e - 1] + ['}']
    requires ResolveFrom(t, e, replace) == t[e..]
    ensures ResolveFrom(t, from, replace) == t[from..]
  {
    MatchStep(t, from, e, replace);
    BraceSlice(t, from, e);
  }

  /** `replace` gives back every placeholder that starts at or after `from` as it was. */
  predicate KeepsAllFrom(t: string, from: nat, replace: string -> string) {
    forall p :: from <= p < |t| && BraceMatchEnd(t, p).Some? ==>
      replace(t[p + 1..BraceMatchEnd(t, p).value - 1]) == ['{'] + t[p + 1..BraceMatchEnd(t, p).value - 1] + ['}']
  }

  lemma {:induction false} KeepsAllVerbatim(t: string, from: nat, replace: string -> string)
    requires from <= |t| && KeepsAllFrom(t, from, replace)
    ensures VerbatimFrom(t, from, replace)
    decreases |t| - from
  {
    if from < |t| {
      var m := BraceMatchEnd(t, from);
      if m.None? {
        KeepsTail(t, from, from + 1, replace);
        KeepsAllVerbatim(t, from + 1, replace);
        VerbatimPlain(t, from, replace);
      } else {
        KeepsTail(t, from, m.value, replace);
        KeepsAllVerbatim(t, m.value, replace);
        VerbatimMatch(t, from, m.value, replace);
      }
    }
  }

  lemma KeepsTail(t: string, from: nat, k: nat, replace: string -> string)
    requires from <= k && KeepsAllFrom(t, from, replace)
    ensures KeepsAllFrom(t, k, replace)
    ensures from < |t| && BraceMatchEnd(t, from).Some? ==>
      replace(t[from + 1..BraceMatchEnd(t, from).value - 1]) == ['{'] + t[from + 1..BraceMatchEnd(t, from).value - 1] + ['}']
  {
  }

  lemma VerbatimPlain(t: string, from: nat, replace: string -> string)
    requires from < |t| && BraceMatchEnd(t, from).None? && VerbatimFrom(t, from + 1, replace)
    ensures VerbatimFrom(t, from, replace)
  {
  }

  lemma VerbatimMatch(t: string, from: nat, e: nat, replace: string -> string)
    requires from < |t| && BraceMatchEnd(t, from) == Some(e) && VerbatimFrom(t, e, replace)
    requires replace(t[from + 1..e - 1]) == ['{'] + t[from + 1..e - 1] + ['}']
    ensures VerbatimFrom(t, from, replace)
  {
  }

  /** Every placeholder of `t` is unknown. */
  predicate AllUnknown(t: string, eqp: EqpRuntime) {
    forall p :: 0 <= p < |t| && BraceMatchEnd(t, p).Some? ==>
      Unknown(t[p + 1..BraceMatchEnd(t, p).value - 1], eqp)
  }

  /** When every placeholder is unknown, the text comes back unchanged: each is kept verbatim. */
  lemma UnknownKeptVerbatim(t: string, eqp: EqpRuntime)
    requires AllUnknown(t, eqp)
    ensures Resolve(Some(t), eqp) == Some(t)
  {
    var replace := Replacer(eqp);
    forall p | 0 <= p < |t| && BraceMatchEnd(t, p).Some?
      ensures replace(t[p + 1..BraceMatchEnd(t, p).value - 1]) == ['{'] + t[p + 1..BraceMatchEnd(t, p).value - 1] + ['}']
    {
      UnknownReplacement(t[p + 1..BraceMatchEnd(t, p).value - 1], eqp);
    }
    KeepsAllVerbatim(t, 0, replace);
    VerbatimKeepsText(t, 0, replace);
  }

  lemma UnknownReplacement(raw: string, eqp: EqpRuntime)
    requires Unknown(raw, eqp)
    ensures Replacer(eqp)(raw) == ['{'] + raw + ['}']
  {
  }

  /** The text of a match, put back around its body. */
  lemma BraceSlice(t: string, p: nat, e: nat)
    requires p < |t| && BraceMatchEnd(t, p) == Some(e)
    ensures t[p..] == ['{'] + t[p + 1..e - 1] + ['}'] + t[e..]
  {
    BraceMatchShape(t, p);
    assert t[p..] == [t[p]] + t[p + 1..e - 1] + [t[e - 1]] + t[e..];
  }

  /**
   * A text that is one placeholder resolves to exactly its replacement:
   * whatever the replacement contains is not scanned again.
   */
  lemma WholePlaceholder(t: string, replace: string -> string)
    requires BraceMatchEnd(t, 0) == Some(|t|)
    ensures ResolveFrom(t, 0, replace) == replace(t[1..|t| - 1])
  {
  }

  /** `{eqpid}` in any case and with surrounding blanks becomes the EQP id. */
  lemma EqpIdResolved(t: string, eqp: EqpRuntime)
    requires BraceMatchEnd(t, 0) == Some(|t|) && IsEqpIdKey(PlaceholderKey(t[1..|t| - 1]))
    ensures Resolve(Some(t), eqp) == Some(eqp.eqpId)
  {
    WholePlaceholder(t, Replacer(eqp));
  }
}
