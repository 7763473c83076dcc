/**
 * Regular-expression matching as the simulator uses it.
 *
 * A configured framing regex is an abstract `Matcher` (what
 * `Pattern.matcher(s).find()` reports: the first match span, or none);
 * the fixed placeholder pattern `\{([^}]+)\}` is written out by hand.
 */
module Patterns {
  import opened Wrappers
  import opened JavaText

  /** A match's character offsets, `start` inclusive and `end` exclusive. */
  datatype Span = Span(start: nat, end: nat)

  predicate SpanWithin(m: Option<Span>, s: string) {
    m.Some? ==> m.value.start <= m.value.end <= |s|
  }

  /** `Matcher.find()` on a whole string: the first match, or none. */
  type Matcher = string -> Option<Span>

  /** What `java.util.regex` guarantees of every match: 0 <= start <= end <= length. */
  ghost predicate MatcherSound(find: Matcher) {
    forall s :: SpanWithin(find(s), s)
  }

  // ---------------------------------------------------------------------
  // The placeholder pattern \{([^}]+)\}

  /** The first position at or after `k` that holds '}', or the length when there is none. */
  function CloseBraceFrom(s: string, k: nat): (c: nat)
    requires k <= |s|
    ensures k <= c <= |s|
    decreases |s| - k
  {
    if k == |s| || s[k] == '}' then k else CloseBraceFrom(s, k + 1)
  }

  lemma {:induction false} CloseBraceFirst(s: string, k: nat)
    requires k <= |s|
    ensures var c := CloseBraceFrom(s, k);
      (c < |s| ==> s[c] == '}') && forall j :: k <= j < c ==> s[j] != '}'
    decreases |s| - k
  {
    if k < |s| && s[k] != '}' {
      CloseBraceFirst(s, k + 1);
    }
  }

  /**
   * The end of a match of `\{[^}]+\}` anchored at `p`: a '{', then the
   * run of non-'}' characters up to the first '}', which must be at least
   * one character long.
   */
  function BraceMatchEnd(s: string, p: nat): (r: Option<nat>)
    ensures r.Some? ==> p + 3 <= r.value <= |s|
  {
    if p < |s| && s[p] == '{' then
      var c := CloseBraceFrom(s, p + 1);
      if p + 2 <= c < |s| then Some(c + 1) else None
    else None
  }

  /** A match of the pattern is '{', a non-empty body without '}', and '}'. */
  lemma BraceMatchShape(s: string, p: nat)
    requires BraceMatchEnd(s, p).Some?
    ensures var e := BraceMatchEnd(s, p).value;
      s[p] == '{' && s[e - 1] == '}' && e - p >= 3
      && forall k :: p < k < e - 1 ==> s[k] != '}'
  {
    CloseBraceFirst(s, p + 1);
  }

  /** `find()` for `\{([^}]+)\}` starting the scan at `from`. */
  function FindBrace(s: string, from: nat): (r: Option<Span>)
    ensures r.Some? ==> from <= r.value.start && BraceMatchEnd(s, r.value.start) == Some(r.value.end)
    ensures r.Some? ==> forall p :: from <= p < r.value.start ==> BraceMatchEnd(s, p).None?
    ensures r.None? ==> forall p :: from <= p < |s| ==> BraceMatchEnd(s, p).None?
    ensures SpanWithin(r, s)
    decreases |s| - from
  {
    if from >= |s| then None
    else match BraceMatchEnd(s, from)
      case Some(e) => Some(Span(from, e))
      case None => FindBrace(s, from + 1)
  }

  /** The placeholder pattern as a framing matcher. */
  function BraceMatcher(): (m: Matcher)
    ensures MatcherSound(m)
  {
    s => FindBrace(s, 0)
  }
}
