/**
 * Regular-expression search in the style of Python's `re`, over a per-position
 * matcher: `m(s, i) == Some(e)` says the pattern matches `s[i..e]` when the
 * engine tries position `i`. Every pattern the checker uses is modelled by such
 * a matcher (see the modules that define them); this module supplies
 * `re.search` (leftmost match) and `re.findall` (successive non-overlapping
 * matches) on top of one.
 */
module Scan {
  import opened Wrappers

  type Matcher = (string, nat) -> Option<nat>

  /** A match of the pattern: start and end index into the searched string. */
  datatype Span = Span(start: nat, end: nat)

  /** `re.search(pattern, s, from)`: the leftmost position at or after `from` where the pattern matches. */
  function Search(m: Matcher, s: string, from: nat): (r: Option<Span>)
    ensures r.Some? ==> from <= r.value.start <= |s| && m(s, r.value.start) == Some(r.value.end)
    ensures r.Some? ==> forall i :: from <= i < r.value.start ==> m(s, i).None?
    ensures r.None? ==> forall i :: from <= i <= |s| ==> m(s, i).None?
    decreases |s| + 1 - from
  {
    if from > |s| then None
    else if m(s, from).Some? then Some(Span(from, m(s, from).value))
    else Search(m, s, from + 1)
  }

  /** The pattern matches at `i` and at no earlier position: where `re.search` finds it. */
  predicate FirstMatchAt(m: Matcher, s: string, i: nat) {
    i <= |s| && m(s, i).Some? && forall j :: 0 <= j < i ==> m(s, j).None?
  }

  /** The pattern matches nowhere in `s`. */
  predicate NoMatch(m: Matcher, s: string) {
    forall i :: 0 <= i <= |s| ==> m(s, i).None?
  }

  /** A search from the start finds the leftmost match, and finds none exactly when there is none. */
  lemma SearchFirstMatch(m: Matcher, s: string)
    ensures Search(m, s, 0).None? <==> NoMatch(m, s)
    ensures Search(m, s, 0).Some? ==> FirstMatchAt(m, s, Search(m, s, 0).value.start)
  {
  }

  /** At most one position is the leftmost match. */
  lemma FirstMatchUnique(m: Matcher, s: string, i: nat, j: nat)
    requires FirstMatchAt(m, s, i) && FirstMatchAt(m, s, j)
    ensures i == j
  {
  }

  /** `re.findall` / `re.finditer`: each search resumes where the previous match ended (one further on for an empty match). */
  function FindAll(m: Matcher, s: string, from: nat): (r: seq<Span>)
    ensures forall k :: 0 <= k < |r| ==> from <= r[k].start <= |s| && m(s, r[k].start) == Some(r[k].end)
    ensures forall k :: 0 <= k < |r| - 1 ==> r[k].start < r[k + 1].start
    ensures r == [] <==> Search(m, s, from).None?
    ensures r != [] ==> r[0] == Search(m, s, from).value
    decreases |s| + 1 - from
  {
    match Search(m, s, from)
    case None => []
    case Some(sp) =>
      var next := if sp.end > sp.start then sp.end else sp.start + 1;
      if next > |s| then [sp] else [sp] + FindAll(m, s, next)
  }

  /** The text of a span, empty when it does not fit in `s`. */
  function SpanText(s: string, sp: Span): string {
    if sp.start <= sp.end <= |s| then s[sp.start..sp.end] else []
  }

  /** The texts of several spans, in order. */
  function SpanTexts(s: string, sps: seq<Span>): (r: seq<string>)
    ensures |r| == |sps|
    ensures forall k :: 0 <= k < |sps| ==> r[k] == SpanText(s, sps[k])
  {
    if sps == [] then [] else [SpanText(s, sps[0])] + SpanTexts(s, sps[1..])
  }

  /** A match that ends after it starts, inside `s`, is followed by the matches from its end. */
  lemma FindAllNext(m: Matcher, s: string, from: nat)
    requires Search(m, s, from).Some?
    requires Search(m, s, from).value.start < Search(m, s, from).value.end <= |s|
    ensures FindAll(m, s, from) == [Search(m, s, from).value] + FindAll(m, s, Search(m, s, from).value.end)
  {
  }

  /** The texts of several spans: the first one's, then the rest's. */
  lemma SpanTextsCons(s: string, sp: Span, sps: seq<Span>)
    ensures SpanTexts(s, [sp] + sps) == [SpanText(s, sp)] + SpanTexts(s, sps)
  {
    assert ([sp] + sps)[1..] == sps;
  }
}
