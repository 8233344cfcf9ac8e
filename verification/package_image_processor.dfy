/**
 * The package-label extractors: product type, product standard code,
 * production date and shelf life read from the OCR text of a food package.
 *
 * Each regular expression the extractors use is written out as a scanner that
 * yields, at a given start position, the span of the pattern's first capture
 * group exactly where Python's backtracking engine would put it; `Search` then
 * gives `re.search`'s leftmost match.
 */
module PackageImageProcessor {
  import opened Wrappers
  import opened Text
  import opened Scan

  // ---------------------------------------------------------------- character classes

  predicate IsBreak(c: char) { c == '\n' || c == '\r' }
  predicate IsColon(c: char) { c == ':' || c == '：' }

  /** `[一-龥a-zA-Z0-9]`: what the product-type cleaning keeps at the end of a value. */
  predicate IsKept(c: char) { IsCjk(c) || IsAlnumAscii(c) }

  /** The unit of a shelf life: `[月天年]`. */
  predicate IsUnit(c: char) { c == '月' || c == '天' || c == '年' }

  /** Regex `\w` (letters, digits and underscore; Chinese characters are letters). */
  predicate IsWordChar(c: char) { IsAlnumAscii(c) || c == '_' || IsCjk(c) }

  /** The repeated classes of the patterns. */
  datatype CharClass =
    | Space          // \s
    | SpaceOrColon   // [：:\s]
    | Mark           // [号代]
    | CodeGap        // [/\sT] under re.IGNORECASE
    | Digit          // \d
    | Letter         // [a-zA-Z]
    | NonBreak       // [^\n\r]

  predicate InClass(c: char, k: CharClass) {
    match k
    case Space => IsSpace(c)
    case SpaceOrColon => IsSpace(c) || IsColon(c)
    case Mark => c == '号' || c == '代'
    case CodeGap => c == '/' || c == 'T' || c == 't' || IsSpace(c)
    case Digit => IsDigit(c)
    case Letter => IsLetterAscii(c)
    case NonBreak => !IsBreak(c)
  }

  /** The end of the run of class-`k` characters starting at `i` (a greedy `k*`). */
  function RunEnd(s: string, i: nat, k: CharClass): (j: nat)
    requires i <= |s|
    ensures i <= j <= |s|
    ensures forall m :: i <= m < j ==> InClass(s[m], k)
    ensures j == |s| || !InClass(s[j], k)
    decreases |s| - i
  {
    if i < |s| && InClass(s[i], k) then RunEnd(s, i + 1, k) else i
  }

  /** The last position in `[p, k)` that is not a line break, if any. */
  function LastNonBreak(s: string, p: nat, k: nat): (r: Option<nat>)
    requires p <= k <= |s|
    ensures r.Some? ==> p <= r.value < k && !IsBreak(s[r.value])
    ensures r.Some? ==> forall m :: r.value < m < k ==> IsBreak(s[m])
    ensures r.None? ==> forall m :: p <= m < k ==> IsBreak(s[m])
    decreases k - p
  {
    if k == p then None
    else if !IsBreak(s[k - 1]) then Some(k - 1)
    else LastNonBreak(s, p, k - 1)
  }

  // ---------------------------------------------------------------- the patterns

  /** How many `[号代]` follow a standard-code label. */
  datatype Marks = AnyMarks | NoMark | OneMark

  datatype Pattern =
    | Line(head: string, colon: bool)
      // head[：:\s]*([^\n\r]+), or with colon: head[：:]\s*([^\n\r]+)
    | Code(head: string, marks: Marks)
      // head + marks + [：:\s]*([a-zA-Z]{1,4}[/\sT]*\s*\d+(?:-\d+)?), re.IGNORECASE
    | BareGb
      // \b(GB[/\sT]*\s*\d+(?:-\d+)?)\b, re.IGNORECASE
    | Date(dashed: bool)
      // 生产日期[：:]\s*(\d{4}[-/年]\d{1,2}[-/月]\d{1,2}), or with dashed false (\d{8})
    | Period
      // (\d+\s*[个]?[月天年])

  /** Where `\d+(?:-\d+)?` ends when its digit run ends at `e`. */
  function SuffixEnd(s: string, e: nat): (f: nat)
    requires e <= |s|
    ensures e <= f <= |s|
    ensures f == e || (s[e] == '-' && e + 1 < f && forall m :: e < m < f ==> IsDigit(s[m]))
    ensures f == |s| || !IsDigit(s[f]) || f == e
  {
    if e + 1 < |s| && s[e] == '-' && IsDigit(s[e + 1]) then RunEnd(s, e + 1, Digit) else e
  }

  /** `[/\sT]*\s*\d+(?:-\d+)?` from `g`: the end of the match. */
  function NumberEnd(s: string, g: nat): (r: Option<nat>)
    requires g <= |s|
    ensures r.Some? ==> g < r.value <= |s| && IsDigit(s[r.value - 1])
  {
    var k := RunEnd(s, g, CodeGap);
    if k == |s| || !IsDigit(s[k]) then None
    else Some(SuffixEnd(s, RunEnd(s, k, Digit)))
  }

  /** `[a-zA-Z]{1,4}[/\sT]*\s*\d+(?:-\d+)?` from `g`; giving back letters never helps, since only `T` is also a gap. */
  function CodeEnd(s: string, g: nat): (r: Option<nat>)
    requires g <= |s|
    ensures r.Some? ==> g < r.value <= |s| && IsLetterAscii(s[g]) && IsDigit(s[r.value - 1])
  {
    var run := RunEnd(s, g, Letter);
    var l := if run <= g + 4 then run else g + 4;
    if l == g then None else NumberEnd(s, l)
  }

  /** What a date pattern may capture: eight to ten characters, digits or separators, four digits first and a digit last. */
  predicate RawDateAt(s: string, g: nat, e: nat) {
    g + 8 <= e <= g + 10 && e <= |s| && HasDigitsAt(s, g, 4) && IsDigit(s[e - 1])
    && forall m :: g <= m < e ==> IsDigit(s[m]) || s[m] in {'-', '/', '年', '月'}
  }

  /** A date `\d{4}[-/年]\d{1,2}[-/月]\d{1,2}` from `g`: the end of the match. */
  function DashedDateEnd(s: string, g: nat): (r: Option<nat>)
    requires g <= |s|
    ensures r.Some? ==> RawDateAt(s, g, r.value)
  {
    if !HasDigitsAt(s, g, 4) || g + 4 == |s| || !(s[g + 4] in {'-', '/', '年'}) then None
    else match UpToTwoDigits(s, g + 5)
      case None => None
      case Some(b) =>
        if b == |s| || !(s[b] in {'-', '/', '月'}) then None
        else UpToTwoDigits(s, b + 1)
  }

  /** The label `生产日期` followed by a colon and optional whitespace: where the date starts. */
  function AfterDateLabel(s: string, i: nat): (r: Option<nat>)
    ensures r.Some? ==> i + 5 <= r.value <= |s|
  {
    var q := i + |"生产日期"|;
    if OccursAt(s, "生产日期", i) && q < |s| && IsColon(s[q]) then Some(RunEnd(s, q + 1, Space)) else None
  }

  /** `head[：:\s]*([^\n\r]+)`, or `head[：:]\s*([^\n\r]+)` when `colon`, tried at `i`. */
  function LineAt(head: string, colon: bool, s: string, i: nat): (r: Option<Span>)
    ensures r.Some? ==> r.value.start < r.value.end <= |s|
    ensures r.Some? ==> OccursAt(s, head, i) && i + |head| <= r.value.start
    ensures r.Some? ==> forall m :: r.value.start <= m < r.value.end ==> !IsBreak(s[m])
  {
    var q := i + |head|;
    if !OccursAt(s, head, i) || (colon && !(q < |s| && IsColon(s[q]))) then None
    else
      var from := if colon then q + 1 else q;
      var k := RunEnd(s, from, if colon then Space else SpaceOrColon);
      if k < |s| then Some(Span(k, RunEnd(s, k, NonBreak)))
      else
        // `[^\n\r]+` has nothing left: the engine gives back the last class character that is not a break
        match LastNonBreak(s, from, k)
        case Some(j) => Some(Span(j, j + 1))
        case None => None
  }

  /** `head`, its marks, `[：:\s]*` and then a standard code, tried at `i`. */
  function CodeAt(head: string, marks: Marks, s: string, i: nat): (r: Option<Span>)
    ensures r.Some? ==> r.value.start < r.value.end <= |s|
    ensures r.Some? ==> IsLetterAscii(s[r.value.start]) && IsDigit(s[r.value.end - 1])
  {
    var q := i + |head|;
    if !OccursAt(s, head, i) || (marks == OneMark && !(q < |s| && InClass(s[q], Mark))) then None
    else
      var m := if marks == AnyMarks then RunEnd(s, q, Mark) else if marks == OneMark then q + 1 else q;
      var g := RunEnd(s, m, SpaceOrColon);
      match CodeEnd(s, g)
      case Some(e) => Some(Span(g, e))
      case None => None
  }

  /** `\b(GB[/\sT]*\s*\d+(?:-\d+)?)\b` under `re.IGNORECASE`, tried at `i`. */
  function BareGbAt(s: string, i: nat): (r: Option<Span>)
    ensures r.Some? ==> r.value.start == i && i + 2 < r.value.end <= |s|
    ensures r.Some? ==> LowerChar(s[i]) == 'g' && LowerChar(s[i + 1]) == 'b' && IsDigit(s[r.value.end - 1])
  {
    if !(i + 2 <= |s| && LowerChar(s[i]) == 'g' && LowerChar(s[i + 1]) == 'b') || (i > 0 && IsWordChar(s[i - 1])) then None
    else
      var k := RunEnd(s, i + 2, CodeGap);
      if k == |s| || !IsDigit(s[k]) then None
      else
        var e := RunEnd(s, k, Digit);
        var f := SuffixEnd(s, e);
        if f == |s| || !IsWordChar(s[f]) then Some(Span(i, f))
        // `\b` fails after the suffix: the engine drops `(?:-\d+)?` and ends before the '-'
        else if e < f then Some(Span(i, e))
        else None
  }

  /** A production date after its label, tried at `i`: the dashed form, or eight digits. */
  function DateAt(dashed: bool, s: string, i: nat): (r: Option<Span>)
    ensures r.Some? ==> r.value.start < r.value.end <= |s| && RawDateAt(s, r.value.start, r.value.end)
    ensures r.Some? && !dashed ==> r.value.end == r.value.start + 8 && HasDigitsAt(s, r.value.start, 8)
  {
    match AfterDateLabel(s, i)
    case None => None
    case Some(g) =>
      if dashed then
        (match DashedDateEnd(s, g)
         case Some(e) => Some(Span(g, e))
         case None => None)
      else if HasDigitsAt(s, g, 8) then Some(Span(g, g + 8))
      else None
  }

  /** `(\d+\s*[个]?[月天年])` tried at `i`. */
  function PeriodAt(s: string, i: nat): (r: Option<Span>)
    ensures r.Some? ==> r.value.start == i < r.value.end <= |s|
    ensures r.Some? ==> IsDigit(s[i]) && IsUnit(s[r.value.end - 1])
  {
    if !(i < |s| && IsDigit(s[i])) then None
    else
      var w := RunEnd(s, RunEnd(s, i, Digit), Space);
      if w + 1 < |s| && s[w] == '个' && IsUnit(s[w + 1]) then Some(Span(i, w + 2))
      else if w < |s| && IsUnit(s[w]) then Some(Span(i, w + 1))
      else None
  }

  /**
   * The first capture group of `p` when the engine tries position `i`, or
   * `None` when the pattern does not match there.
   */
  function CaptureAt(p: Pattern, s: string, i: nat): (r: Option<Span>)
    ensures r.Some? ==> r.value.start < r.value.end <= |s|
  {
    match p
    case Line(head, colon) => LineAt(head, colon, s, i)
    case Code(head, marks) => CodeAt(head, marks, s, i)
    case BareGb => BareGbAt(s, i)
    case Date(dashed) => DateAt(dashed, s, i)
    case Period => PeriodAt(s, i)
  }

  /** Whether `p` matches at each position of `s`. */
  function MatchesIn(p: Pattern, s: string): nat -> bool {
    (i: nat) => CaptureAt(p, s, i).Some?
  }

  /** `re.search(p, s)`: the leftmost position at or after `from` where `p` matches. */
  function Search(p: Pattern, s: string, from: nat): (r: Option<nat>)
    ensures r.Some? ==> from <= r.value <= |s| && CaptureAt(p, s, r.value).Some?
  {
    Leftmost(MatchesIn(p, s), from, |s|)
  }

  /** The search finds the leftmost match, and finds nothing only when there is no match at all. */
  lemma SearchLeftmost(p: Pattern, s: string, from: nat)
    ensures Search(p, s, from).Some? ==> forall i :: from <= i < Search(p, s, from).value ==> CaptureAt(p, s, i).None?
    ensures Search(p, s, from).None? ==> forall i :: from <= i <= |s| ==> CaptureAt(p, s, i).None?
  {
    forall i | from <= i <= |s| && (Search(p, s, from).None? || i < Search(p, s, from).value)
      ensures CaptureAt(p, s, i).None?
    {
      LeftmostSkips(MatchesIn(p, s), from, |s|, i);
    }
  }

  /** `re.search` finds the first position where the pattern matches. */
  lemma SearchFinds(p: Pattern, s: string, from: nat, k: nat)
    requires from <= k <= |s| && CaptureAt(p, s, k).Some?
    requires forall j :: from <= j < k ==> CaptureAt(p, s, j).None?
    ensures Search(p, s, from) == Some(k)
  {
    forall j | from <= j < k ensures !MatchesIn(p, s)(j) {
      assert CaptureAt(p, s, j).None?;
    }
    LeftmostFinds(MatchesIn(p, s), from, |s|, k);
  }

  /** The text of the first capture group of the leftmost match of `p` in `s`. */
  function Group(p: Pattern, s: string): Option<string> {
    match Search(p, s, 0)
    case Some(i) => var sp := CaptureAt(p, s, i).value; Some(s[sp.start..sp.end])
    case None => None
  }

  /** Each pattern's group in `s`. */
  function GroupIn(s: string): Pattern -> Option<string> {
    p => Group(p, s)
  }

  /** The group of the first pattern of `ps` that matches anywhere in `s`. */
  function FirstGroup(ps: seq<Pattern>, s: string): Option<string> {
    FirstSome(GroupIn(s), ps)
  }

  /** A capture of a line pattern only matches where its label occurs. */
  lemma GroupNeedsHead(head: string, colon: bool, text: string)
    requires Group(Line(head, colon), text).Some?
    ensures Contains(text, head)
  {
  }

  /** The group of a line pattern is a non-empty piece of one line of the text. */
  lemma LineGroup(head: string, colon: bool, text: string)
    requires Group(Line(head, colon), text).Some?
    ensures var g := Group(Line(head, colon), text).value;
      g != [] && Contains(text, g) && forall m :: 0 <= m < |g| ==> !IsBreak(g[m])
  {
    var i := Search(Line(head, colon), text, 0).value;
    var sp := LineAt(head, colon, text, i).value;
    assert OccursAt(text, text[sp.start..sp.end], sp.start);
  }

  // ---------------------------------------------------------------- product type

  const ProductTypeHead := "产品类型"
  const TypeHead := "类型"
  const VarietyHead := "品类"
  const CategoryHead := "产品类别"
  const TypeHeads: seq<string> := [ProductTypeHead, TypeHead, VarietyHead, CategoryHead]
  const Colons: set<char> := {':', '：'}

  predicate NoKept(s: string) { forall i :: 0 <= i < |s| ==> !IsKept(s[i]) }

  /** The end of `s[..j]` once its trailing run of characters outside `[一-龥a-zA-Z0-9]` is gone. */
  function KeptEnd(s: string, j: nat): (k: nat)
    requires j <= |s|
    ensures k <= j
    ensures forall m :: k <= m < j ==> !IsKept(s[m])
    ensures k == 0 || IsKept(s[k - 1])
  {
    if j > 0 && !IsKept(s[j - 1]) then KeptEnd(s, j - 1) else j
  }

  /**
   * The cleaning of a product type: strip, drop leading colons, strip again,
   * and remove the trailing run of characters that are neither Chinese nor
   * ASCII letters or digits (`re.sub(r'[^\u4e00-\u9fa5a-zA-Z0-9]+$', '', v)`).
   */
  function CleanType(v: string): (r: string)
    ensures r != [] ==> !IsSpace(r[0]) && IsKept(r[|r| - 1])
  {
    var c := Strip(TrimStartChars(Strip(v), Colons));
    c[..KeptEnd(c, |c|)]
  }

  lemma NoKeptStrip(v: string)
    ensures NoKept(v) <==> NoKept(Strip(v))
  {
    var a := SpaceRunEnd(v, 0);
    var t := v[a..];
    var b := SpaceRunStart(t, |t|);
    assert Strip(v) == t[..b];
    if !NoKept(v) {
      var i :| 0 <= i < |v| && IsKept(v[i]);
      assert a <= i;
      assert i - a < b;
      assert Strip(v)[i - a] == v[i];
    }
    if !NoKept(Strip(v)) {
      var i :| 0 <= i < |Strip(v)| && IsKept(Strip(v)[i]);
      assert Strip(v)[i] == v[a + i];
    }
  }

  lemma {:induction false} NoKeptTrimColons(v: string)
    ensures NoKept(v) <==> NoKept(TrimStartChars(v, Colons))
  {
    if |v| > 0 && v[0] in Colons {
      NoKeptTrimColons(v[1..]);
      assert v == [v[0]] + v[1..];
      assert forall i :: 0 < i < |v| ==> v[i] == v[1..][i - 1];
    }
  }

  /** The cleaned value is empty exactly when the raw value holds no Chinese character, ASCII letter or digit. */
  lemma CleanTypeEmpty(v: string)
    ensures CleanType(v) == [] <==> NoKept(v)
  {
    var a := Strip(v);
    var b := TrimStartChars(a, Colons);
    var c := Strip(b);
    NoKeptStrip(v);
    NoKeptTrimColons(a);
    NoKeptStrip(b);
    if CleanType(v) != [] {
      assert IsKept(c[KeptEnd(c, |c|) - 1]);
    }
  }

  lemma {:induction false} TrimStartCharsInside(v: string, chars: set<char>)
    ensures Contains(v, TrimStartChars(v, chars))
    decreases |v|
  {
    if |v| > 0 && v[0] in chars {
      TrimStartCharsInside(v[1..], chars);
      assert OccursAt(v, v[1..], 1);
      ContainsTrans(v, v[1..], TrimStartChars(v[1..], chars));
    } else {
      ContainsSelf(v);
    }
  }

  /** The cleaned value is a piece of the raw value. */
  lemma CleanTypeInside(v: string)
    ensures Contains(v, CleanType(v))
  {
    var a := Strip(v);
    var b := TrimStartChars(a, Colons);
    var c := Strip(b);
    StripInside(v);
    TrimStartCharsInside(a, Colons);
    StripInside(b);
    assert OccursAt(c, CleanType(v), 0);
    ContainsTrans(v, a, b);
    ContainsTrans(v, b, c);
    ContainsTrans(v, c, CleanType(v));
  }

  /** The value one label yields: its cleaned group, when that is not empty. */
  function TypeValue(head: string, text: string): Option<string> {
    match Group(Line(head, false), text)
    case Some(g) => if CleanType(g) != [] then Some(CleanType(g)) else None
    case None => None
  }

  /** The product type is a non-empty piece of one line of the text, ending in a Chinese character, letter or digit. */
  lemma TypeValueShape(head: string, text: string)
    requires TypeValue(head, text).Some?
    ensures var v := TypeValue(head, text).value;
      v != [] && !IsSpace(v[0]) && IsKept(v[|v| - 1]) && Contains(text, v) && Contains(text, head)
      && forall m :: 0 <= m < |v| ==> !IsBreak(v[m])
  {
    var g := Group(Line(head, false), text).value;
    var v := CleanType(g);
    assert TypeValue(head, text).value == v;
    LineGroup(head, false, text);
    GroupNeedsHead(head, false, text);
    CleanTypeInside(g);
    ContainsTrans(text, g, v);
    NoBreakInside(g, v);
  }

  lemma NoBreakInside(g: string, v: string)
    requires Contains(g, v) && forall m :: 0 <= m < |g| ==> !IsBreak(g[m])
    ensures forall m :: 0 <= m < |v| ==> !IsBreak(v[m])
  {
    var j :| 0 <= j <= |g| - |v| && OccursAt(g, v, j);
    forall m | 0 <= m < |v| ensures !IsBreak(v[m]) {
      assert v[m] == g[j + m];
    }
  }

  /** Each label's value in `text`. */
  function TypeValueIn(text: string): string -> Option<string> {
    h => TypeValue(h, text)
  }

  /** `extract_product_type` over a list of labels: the first label whose value is non-empty wins. */
  function FirstType(heads: seq<string>, text: string): Option<string> {
    FirstSome(TypeValueIn(text), heads)
  }

  /** The labels are tried in order: the first whose cleaned value is non-empty gives the product type. */
  lemma ProductTypeOrder(text: string, k: nat)
    requires k < |TypeHeads| && TypeValue(TypeHeads[k], text).Some?
    requires forall j :: 0 <= j < k ==> TypeValue(TypeHeads[j], text).None?
    ensures ExtractProductType(text) == TypeValue(TypeHeads[k], text)
  {
    FirstSomeWins(TypeValueIn(text), TypeHeads, k);
  }

  /** There is no product type exactly when no label yields a non-empty value. */
  lemma ProductTypeNone(text: string)
    ensures ExtractProductType(text).None? <==> forall k :: 0 <= k < |TypeHeads| ==> TypeValue(TypeHeads[k], text).None?
  {
    FirstSomeNone(TypeValueIn(text), TypeHeads);
  }

  lemma FirstTypeShape(heads: seq<string>, text: string)
    requires FirstType(heads, text).Some?
    ensures var v := FirstType(heads, text).value;
      v != [] && !IsSpace(v[0]) && IsKept(v[|v| - 1]) && Contains(text, v)
      && forall m :: 0 <= m < |v| ==> !IsBreak(v[m])
  {
    FirstSomeFrom(TypeValueIn(text), heads);
    var k :| 0 <= k < |heads| && TypeValue(heads[k], text) == FirstType(heads, text);
    TypeValueShape(heads[k], text);
  }

  /** `extract_product_type`. */
  function ExtractProductType(text: string): (r: Option<string>)
    ensures r.Some? ==> var v := r.value;
      v != [] && !IsSpace(v[0]) && IsKept(v[|v| - 1]) && Contains(text, v)
      && forall m :: 0 <= m < |v| ==> !IsBreak(v[m])
  {
    if FirstType(TypeHeads, text).Some? then FirstTypeShape(TypeHeads, text); FirstType(TypeHeads, text)
    else None
  }

  /** A line pattern whose label does not occur has no group. */
  lemma HeadAbsent(head: string, colon: bool, text: string)
    requires !Contains(text, head)
    ensures Group(Line(head, colon), text).None?
  {
    if Group(Line(head, colon), text).Some? {
      GroupNeedsHead(head, colon, text);
    }
  }

  /** A label that does not occur yields no value. */
  lemma TypeValueAbsent(head: string, text: string)
    requires !Contains(text, head)
    ensures TypeValue(head, text).None?
  {
    HeadAbsent(head, false, text);
  }

  /** No label is a piece of a later one, so a later label is never pre-empted inside its own occurrences. */
  predicate NoShadowing(heads: seq<string>) {
    forall i, j :: 0 <= i < j < |heads| ==> !Contains(heads[j], heads[i])
  }

  /** As written, `品类` is tried before `产品类别`, which contains it. */
  lemma TypeHeadsShadowed()
    ensures !NoShadowing(TypeHeads)
  {
    assert OccursAt(TypeHeads[3], TypeHeads[2], 1);
  }

  /** A value that starts with a Chinese character, letter or digit keeps that first character through cleaning. */
  lemma CleanTypeFirst(v: string)
    requires v != [] && IsKept(v[0])
    ensures CleanType(v) != [] && CleanType(v)[0] == v[0]
  {
    assert SpaceRunEnd(v, 0) == 0;
    var a := Strip(v);
    assert a != [] && a[0] == v[0] by {
      var b := SpaceRunStart(v, |v|);
      assert b > 0;
    }
    assert TrimStartChars(a, Colons) == a;
    assert SpaceRunEnd(a, 0) == 0;
    var c := Strip(a);
    assert c != [] && c[0] == v[0] by {
      var b := SpaceRunStart(a, |a|);
      assert b > 0;
    }
    assert IsKept(c[0]);
  }

  /**
   * As written, in a text where `产品类别` occurs at `i` with no `品类` before
   * it and no `类型` anywhere (the documented "产品类别 灭菌乳" is one), the
   * `品类` pattern matches inside `产品类别`, and the product type starts with
   * the label's own last character `别`.
   */
  lemma CategoryLabelMisread(text: string, i: nat)
    requires OccursAt(text, CategoryHead, i)
    requires !Contains(text, TypeHead)
    requires forall j :: 0 <= j <= i ==> !OccursAt(text, VarietyHead, j)
    ensures ExtractProductType(text).Some? && ExtractProductType(text).value[0] == '别'
  {
    TypeHeadInside(text);
    TypeValueAbsent(ProductTypeHead, text);
    TypeValueAbsent(TypeHead, text);
    VarietyInsideCategory(text, i);
    var f := TypeValueIn(text);
    assert TypeHeads[0] == ProductTypeHead;
    FirstSomeSkip(f, TypeHeads);
    assert TypeHeads[1..][0] == TypeHead;
    FirstSomeSkip(f, TypeHeads[1..]);
    assert TypeHeads[1..][1..][0] == VarietyHead;
  }

  /** `产品类型` contains `类型`. */
  lemma TypeHeadInside(text: string)
    requires !Contains(text, TypeHead)
    ensures !Contains(text, ProductTypeHead)
  {
    assert OccursAt(ProductTypeHead, TypeHead, 2);
    if Contains(text, ProductTypeHead) {
      ContainsTrans(text, ProductTypeHead, TypeHead);
    }
  }

  /** The first `品类` lies inside `产品类别`, and its value starts right after it, at `别`. */
  lemma VarietyInsideCategory(text: string, i: nat)
    requires OccursAt(text, CategoryHead, i)
    requires forall j :: 0 <= j <= i ==> !OccursAt(text, VarietyHead, j)
    ensures TypeValue(VarietyHead, text).Some? && TypeValue(VarietyHead, text).value[0] == '别'
  {
    var p := Line(VarietyHead, false);
    assert text[i..i + 4] == CategoryHead;
    assert text[i + 1] == '品' && text[i + 2] == '类' && text[i + 3] == '别';
    assert OccursAt(text, VarietyHead, i + 1) by {
      assert text[i + 1..i + 3] == [text[i + 1], text[i + 2]];
    }
    assert RunEnd(text, i + 3, SpaceOrColon) == i + 3;
    var e := RunEnd(text, i + 3, NonBreak);
    assert CaptureAt(p, text, i + 1) == Some(Span(i + 3, e));
    forall j | 0 <= j < i + 1 ensures CaptureAt(p, text, j).None? {
      assert !OccursAt(text, VarietyHead, j);
    }
    SearchFinds(p, text, 0, i + 1);
    var g := text[i + 3..e];
    assert Group(p, text) == Some(g);
    CleanTypeFirst(g);
  }

  /** The labels with every longer label before the shorter labels it contains. */
  const IntendedTypeHeads: seq<string> := [ProductTypeHead, CategoryHead, TypeHead, VarietyHead]

  /** `extract_product_type` with its labels tried longest first. */
  function ExtractProductTypeIntended(text: string): Option<string> {
    FirstSome(TypeValueIn(text), IntendedTypeHeads)
  }

  /** In the intended order no label is pre-empted by an earlier one. */
  lemma IntendedHeadsNotShadowed()
    ensures NoShadowing(IntendedTypeHeads)
  {
    var h := IntendedTypeHeads;
    NotContainsChar(h[1], h[0], 3);
    NotContainsChar(h[2], h[0], 0);
    NotContainsChar(h[3], h[0], 0);
    NotContainsChar(h[2], h[1], 0);
    NotContainsChar(h[3], h[1], 0);
    NotContainsChar(h[3], h[2], 1);
  }

  /** In the intended order a non-empty value after `产品类别` is the product type whenever `产品类型` is absent. */
  lemma CategoryLabelIntended(text: string)
    requires !Contains(text, ProductTypeHead) && TypeValue(CategoryHead, text).Some?
    ensures ExtractProductTypeIntended(text) == TypeValue(CategoryHead, text)
  {
    TypeValueAbsent(ProductTypeHead, text);
    assert IntendedTypeHeads[0] == ProductTypeHead;
    FirstSomeSkip(TypeValueIn(text), IntendedTypeHeads);
    assert IntendedTypeHeads[1..][0] == CategoryHead;
  }

  // ---------------------------------------------------------------- standard code

  const ProductStandardHead := "产品标准"
  const ExecutiveStandardHead := "执行标准"
  const StandardHead := "标准"

  /** The labelled patterns in order, then the bare `GB` code. */
  const StandardPatterns: seq<Pattern> :=
    [Code(ProductStandardHead, AnyMarks), Code(ExecutiveStandardHead, NoMark), Code(StandardHead, OneMark), BareGb]

  lemma StandardPatternKinds(k: nat)
    requires k < |StandardPatterns|
    ensures StandardPatterns[k].Code? || StandardPatterns[k].BareGb?
  {
    assert k == 0 || k == 1 || k == 2 || k == 3;
  }

  /** The shape of every standard code the patterns capture. */
  predicate CodeShaped(c: string) {
    c != [] && IsLetterAscii(c[0]) && IsDigit(c[|c| - 1])
  }

  lemma CodeGroupShape(p: Pattern, text: string)
    requires p.Code? || p.BareGb?
    requires Group(p, text).Some?
    ensures CodeShaped(Group(p, text).value)
  {
    if p.Code? {
      LabelledCodeShape(p.head, p.marks, text);
    } else {
      BareCodeShape(text);
    }
  }

  lemma LabelledCodeShape(head: string, marks: Marks, text: string)
    requires Group(Code(head, marks), text).Some?
    ensures CodeShaped(Group(Code(head, marks), text).value)
  {
    var i := Search(Code(head, marks), text, 0).value;
    var sp := CodeAt(head, marks, text, i).value;
    assert Group(Code(head, marks), text).value == text[sp.start..sp.end];
    SliceEnds(text, sp.start, sp.end);
  }

  lemma BareCodeShape(text: string)
    requires Group(BareGb, text).Some?
    ensures CodeShaped(Group(BareGb, text).value)
  {
    var i := Search(BareGb, text, 0).value;
    var sp := BareGbAt(text, i).value;
    assert Group(BareGb, text).value == text[sp.start..sp.end];
    SliceEnds(text, sp.start, sp.end);
  }

  lemma SliceEnds(s: string, a: nat, b: nat)
    requires a < b <= |s|
    ensures s[a..b] != [] && s[a..b][0] == s[a] && s[a..b][b - a - 1] == s[b - 1]
  {
  }

  /** Trimming and collapsing the whitespace of a captured code. */
  function TidyCode(g: string): string {
    CollapseSpaces(Strip(g))
  }

  /** A tidied code keeps its first letter and last digit, has single spaces only, and differs from the capture only in whitespace. */
  lemma TidyCodeShape(g: string)
    requires CodeShaped(g)
    ensures CodeShaped(TidyCode(g)) && SingleSpaced(TidyCode(g))
    ensures RemoveSpaces(TidyCode(g)) == RemoveSpaces(g)
  {
    assert IsStripped(g);
    assert Strip(g) == g;
    CollapseFromLast(g, 0);
    CollapseRemoveSpaces(g, 0);
    assert g[0..] == g;
  }

  /** What the first matching pattern captured, whichever it is, has the shape of a code. */
  lemma FirstCodeShape(text: string)
    requires FirstGroup(StandardPatterns, text).Some?
    ensures CodeShaped(FirstGroup(StandardPatterns, text).value)
  {
    FirstSomeFrom(GroupIn(text), StandardPatterns);
    var k :| 0 <= k < |StandardPatterns| && GroupIn(text)(StandardPatterns[k]) == FirstGroup(StandardPatterns, text);
    StandardPatternKinds(k);
    CodeGroupShape(StandardPatterns[k], text);
  }

  /** `extract_standard_code`: the first pattern that matches, its capture tidied. */
  function ExtractStandardCode(text: string): (r: Option<string>)
    ensures r.Some? ==> CodeShaped(r.value) && SingleSpaced(r.value)
  {
    match FirstGroup(StandardPatterns, text)
    case Some(g) =>
      FirstCodeShape(text);
      TidyCodeShape(g);
      Some(TidyCode(g))
    case None => None
  }

  /** The patterns are tried in order, the bare `GB` code last; the first that matches anywhere gives the code. */
  lemma StandardCodeOrder(text: string, k: nat)
    requires k < |StandardPatterns| && Group(StandardPatterns[k], text).Some?
    requires forall j :: 0 <= j < k ==> Group(StandardPatterns[j], text).None?
    ensures ExtractStandardCode(text) == Some(TidyCode(Group(StandardPatterns[k], text).value))
  {
    forall j | 0 <= j < k ensures GroupIn(text)(StandardPatterns[j]).None? {
    }
    FirstSomeWins(GroupIn(text), StandardPatterns, k);
  }

  /** There is no standard code exactly when none of the patterns matches. */
  lemma StandardCodeNone(text: string)
    ensures ExtractStandardCode(text).None? <==> forall k :: 0 <= k < |StandardPatterns| ==> Group(StandardPatterns[k], text).None?
  {
    FirstSomeNone(GroupIn(text), StandardPatterns);
  }

  /** The code keeps what was captured apart from whitespace. */
  lemma StandardCodeKeepsCapture(text: string, k: nat)
    requires k < |StandardPatterns| && Group(StandardPatterns[k], text).Some?
    requires forall j :: 0 <= j < k ==> Group(StandardPatterns[j], text).None?
    ensures ExtractStandardCode(text).Some?
    ensures RemoveSpaces(ExtractStandardCode(text).value) == RemoveSpaces(Group(StandardPatterns[k], text).value)
  {
    var g := Group(StandardPatterns[k], text).value;
    StandardCodeOrder(text, k);
    assert ExtractStandardCode(text) == Some(TidyCode(g));
    StandardPatternKinds(k);
    CodeGroupShape(StandardPatterns[k], text);
    TidyCodeShape(g);
  }

  // ---------------------------------------------------------------- production date

  const DatePatterns: seq<Pattern> := [Date(true), Date(false)]

  /** A normalised date: eight to ten characters, digits, '-' or '/', four digits first and a digit last. */
  predicate DateText(d: string) {
    8 <= |d| <= 10 && HasDigitsAt(d, 0, 4) && IsDigit(d[|d| - 1])
    && forall m :: 0 <= m < |d| ==> IsDigit(d[m]) || d[m] == '-' || d[m] == '/'
  }

  /** `re.sub(r'[年月]', '-', d)`. */
  function DashYearMonth(d: string): (r: string)
    ensures |r| == |d|
    ensures forall m :: 0 <= m < |d| ==> r[m] == if d[m] == '年' || d[m] == '月' then '-' else d[m]
  {
    seq(|d|, m requires 0 <= m < |d| => if d[m] == '年' || d[m] == '月' then '-' else d[m])
  }

  /** The normalisation of a captured date: 年 and 月 become '-', 日 is removed. */
  function NormalizeDate(d: string): (r: string)
    ensures '年' !in r && '月' !in r && '日' !in r
  {
    RemoveChar(DashYearMonth(d), '日')
  }

  /** A captured date never holds 日, so only the replacement of 年 and 月 has any effect, and the result is a normalised date. */
  lemma NormalizeCaptured(d: string)
    requires RawDateAt(d, 0, |d|)
    ensures NormalizeDate(d) == DashYearMonth(d)
    ensures DateText(NormalizeDate(d))
  {
    assert '日' !in d;
    RemoveCharAbsent(DashYearMonth(d), '日');
  }

  /** Where a date pattern's capture sits in the text, as a string of its own. */
  lemma RawDateSlice(s: string, g: nat, e: nat)
    requires RawDateAt(s, g, e)
    ensures RawDateAt(s[g..e], 0, e - g)
  {
    var d := s[g..e];
    forall m | 0 <= m < |d| ensures d[m] == s[g + m] { }
  }

  lemma DateGroup(dashed: bool, text: string)
    requires Group(Date(dashed), text).Some?
    ensures var d := Group(Date(dashed), text).value;
      RawDateAt(d, 0, |d|) && (!dashed ==> |d| == 8 && HasDigitsAt(d, 0, 8))
  {
    var i := Search(Date(dashed), text, 0).value;
    var sp := DateAt(dashed, text, i).value;
    var d := text[sp.start..sp.end];
    assert Group(Date(dashed), text).value == d;
    RawDateSlice(text, sp.start, sp.end);
    if !dashed {
      forall m | 0 <= m < 8 ensures IsDigit(d[m]) {
        assert d[m] == text[sp.start + m];
      }
    }
  }

  /** `extract_production_date`: the dashed form first, then eight digits, normalised. */
  function ExtractProductionDate(text: string): (r: Option<string>)
    ensures r.Some? ==> '年' !in r.value && '月' !in r.value && '日' !in r.value
  {
    match FirstGroup(DatePatterns, text)
    case Some(g) => Some(NormalizeDate(g))
    case None => None
  }

  /** Every production date found has the normalised shape. */
  lemma ProductionDateShape(text: string)
    requires ExtractProductionDate(text).Some?
    ensures DateText(ExtractProductionDate(text).value)
  {
    FirstSomeFrom(GroupIn(text), DatePatterns);
    var k :| 0 <= k < |DatePatterns| && GroupIn(text)(DatePatterns[k]) == FirstGroup(DatePatterns, text);
    assert DatePatterns[k].Date?;
    DateGroup(DatePatterns[k].dashed, text);
    NormalizeCaptured(Group(DatePatterns[k], text).value);
  }

  /** When no dashed date matches, eight digits after the label are returned unchanged. */
  lemma EightDigitsUnchanged(text: string)
    requires Group(Date(true), text).None?
    ensures ExtractProductionDate(text) == Group(Date(false), text)
  {
    FirstSomeNone(GroupIn(text), DatePatterns);
    if Group(Date(false), text).Some? {
      FirstSomeWins(GroupIn(text), DatePatterns, 1);
      DateGroup(false, text);
      var d := Group(Date(false), text).value;
      NormalizeCaptured(d);
      assert DashYearMonth(d) == d;
    }
  }

  /** There is no production date exactly when neither pattern matches. */
  lemma ProductionDateNone(text: string)
    ensures ExtractProductionDate(text).None? <==> Group(Date(true), text).None? && Group(Date(false), text).None?
  {
    FirstSomeNone(GroupIn(text), DatePatterns);
    assert DatePatterns[0] == Date(true) && DatePatterns[1] == Date(false);
  }

  // ---------------------------------------------------------------- shelf life

  const ShelfHead := "保质期"
  const ShelfPattern := Line(ShelfHead, true)

  /** A period such as "6个月" or "180 天": a digit first and a unit (月, 天 or 年) last. */
  predicate PeriodShaped(m: string) {
    |m| >= 2 && IsDigit(m[0]) && IsUnit(m[|m| - 1])
  }

  /** `extract_shelf_life`: the stripped text after the label, or the first period inside it when there is one. */
  function ExtractShelfLife(text: string): (r: Option<string>)
    ensures r.Some? <==> Group(ShelfPattern, text).Some?
  {
    match Group(ShelfPattern, text)
    case Some(g) =>
      var life := Strip(g);
      if Group(Period, life).Some? then Group(Period, life) else Some(life)
    case None => None
  }

  /** A period group is a piece of the text it was found in, with a digit first and a unit last. */
  lemma PeriodGroup(s: string)
    requires Group(Period, s).Some?
    ensures PeriodShaped(Group(Period, s).value) && Contains(s, Group(Period, s).value)
  {
    var i := Search(Period, s, 0).value;
    var sp := PeriodAt(s, i).value;
    assert Group(Period, s).value == s[sp.start..sp.end];
    SliceEnds(s, sp.start, sp.end);
    assert OccursAt(s, s[sp.start..sp.end], sp.start);
  }

  /** A period `(\d+\s*[个]?[月天年])` starts somewhere in `s`. */
  predicate HasPeriod(s: string) {
    exists i :: 0 <= i <= |s| && PeriodAt(s, i).Some?
  }

  /** The period search finds a group exactly when a period starts somewhere. */
  lemma PeriodFound(s: string)
    ensures Group(Period, s).Some? <==> HasPeriod(s)
  {
    SearchLeftmost(Period, s, 0);
    if Group(Period, s).Some? {
      var i := Search(Period, s, 0).value;
      assert PeriodAt(s, i).Some?;
    } else {
      forall i | 0 <= i <= |s| ensures PeriodAt(s, i).None? {
        assert CaptureAt(Period, s, i).None?;
      }
    }
  }

  /** The shelf life is a piece of the stripped value after the label, and so of one line of the text. */
  lemma ShelfLifeInside(text: string)
    requires ExtractShelfLife(text).Some?
    ensures var r := ExtractShelfLife(text).value;
      && Contains(Strip(Group(ShelfPattern, text).value), r)
      && Contains(text, r) && forall m :: 0 <= m < |r| ==> !IsBreak(r[m])
  {
    var g := Group(ShelfPattern, text).value;
    var life := Strip(g);
    var r := ExtractShelfLife(text).value;
    LineGroup(ShelfHead, true, text);
    StripInside(g);
    if Group(Period, life).Some? {
      PeriodGroup(life);
    } else {
      ContainsSelf(life);
    }
    ContainsTrans(g, life, r);
    ContainsTrans(text, g, r);
    NoBreakInside(g, r);
  }

  /** The shelf life is a period when the stripped value contains one, and the whole stripped value otherwise. */
  lemma ShelfLifePeriod(text: string)
    requires ExtractShelfLife(text).Some?
    ensures var life := Strip(Group(ShelfPattern, text).value);
      && (HasPeriod(life) ==> PeriodShaped(ExtractShelfLife(text).value))
      && (!HasPeriod(life) ==> ExtractShelfLife(text).value == life)
  {
    var life := Strip(Group(ShelfPattern, text).value);
    PeriodFound(life);
    if HasPeriod(life) {
      PeriodGroup(life);
    }
  }

  /** Without the label there is no shelf life. */
  lemma ShelfLifeNeedsLabel(text: string)
    requires !Contains(text, ShelfHead)
    ensures ExtractShelfLife(text).None?
  {
    HeadAbsent(ShelfHead, true, text);
  }
}
