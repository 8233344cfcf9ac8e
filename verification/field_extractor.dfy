/**
 * Field extraction from a parsed inspection report: the production date, the
 * food name and the conclusion (each a tiered first-match search over text
 * lines and table columns), the GB standard codes quoted in conclusion
 * sentences (with and without their titles), and the inspection-item rows of
 * the first table that has them.
 */
module FieldExtractor {
  import opened Wrappers
  import opened Text
  import opened Scan
  import opened Assoc

  // ---------------------------------------------------------------- the report

  /** A decoded JSON value where the report holds text: a string, `null`, or any other value, kept as its Python `str`. */
  datatype Value = Str(s: string) | Null | Other(shown: string)

  /** Python `str(v)`. */
  function Show(v: Value): string {
    match v
    case Str(s) => s
    case Null => "None"
    case Other(t) => t
  }

  /** A table: its rows of cells, the first row being the header. */
  type Table = seq<seq<Value>>

  /** One page of the report: its `text_lines` and its `tables`. */
  datatype Page = Page(textLines: seq<Value>, tables: seq<Table>)

  /** The report: its `pages`. */
  datatype Report = Report(pages: seq<Page>)

  const DateKeywords: seq<string> := ["生产日期", "生产/加工日期", "生产/包装日期", "生产检验日期"]
  const NameKeywords: seq<string> := ["样品名称", "食品名称", "产品名称"]
  const ConclusionKeywords: seq<string> := ["检验结论", "结论", "判定"]

  /** What `_iter_text_lines` yields for one entry: a string line, stripped, unless that leaves it empty. */
  function LineOf(v: Value): seq<string> {
    match v
    case Str(s) => var t := Strip(s); if t == [] then [] else [t]
    case _ => []
  }

  function PageLines(p: Page): seq<string> {
    Collect(LineOf, p.textLines)
  }

  /** `_iter_text_lines`: the text lines of every page, in order. */
  function TextLines(report: Report): seq<string> {
    Collect(PageLines, report.pages)
  }

  /** Every line searched is a non-empty stripped string line of some page. */
  lemma TextLinesClean(report: Report, line: string)
    requires line in TextLines(report)
    ensures line != [] && IsStripped(line)
  {
    CollectIn(PageLines, report.pages, line);
    var p :| 0 <= p < |report.pages| && line in PageLines(report.pages[p]);
    CollectIn(LineOf, report.pages[p].textLines, line);
  }

  /** What `_iter_tables` yields for one table: the table, unless it has no rows. */
  function TableOf(t: Table): seq<Table> {
    if t == [] then [] else [t]
  }

  function PageTables(p: Page): seq<Table> {
    Collect(TableOf, p.tables)
  }

  /** `_iter_tables`: the tables of every page that have rows, in order. */
  function Tables(report: Report): seq<Table> {
    Collect(PageTables, report.pages)
  }

  /** Every table searched has a header row. */
  lemma TablesNonEmpty(report: Report, t: Table)
    requires t in Tables(report)
    ensures t != []
  {
    CollectIn(PageTables, report.pages, t);
    var p :| 0 <= p < |report.pages| && t in PageTables(report.pages[p]);
    CollectIn(TableOf, report.pages[p].tables, t);
  }

  /** The first column at or after `from` whose header text contains one of `keywords`. */
  function KeywordColumn(header: seq<Value>, keywords: seq<string>, from: nat): (r: Option<nat>)
    requires from <= |header|
    ensures r.Some? ==> from <= r.value < |header| && AnyIn(keywords, Show(header[r.value]))
    ensures forall j :: from <= j < |header| && (r.None? || j < r.value) ==> !AnyIn(keywords, Show(header[j]))
    decreases |header| - from
  {
    if from == |header| then None
    else if AnyIn(keywords, Show(header[from])) then Some(from)
    else KeywordColumn(header, keywords, from + 1)
  }

  /** The first index at or after `i` holding one of `cs`, or `|s|`. */
  function FirstOf(s: string, cs: set<char>, i: nat): (r: nat)
    requires i <= |s|
    ensures i <= r <= |s| && (r < |s| ==> s[r] in cs)
    ensures forall k :: i <= k < r ==> s[k] !in cs
    decreases |s| - i
  {
    if i == |s| || s[i] in cs then i else FirstOf(s, cs, i + 1)
  }

  /** The text of the first match of `m` in `s`, as `pattern.search(s).group(0)`. */
  function Found(m: Matcher, s: string): Option<string> {
    match Search(m, s, 0)
    case Some(sp) => Some(SpanText(s, sp))
    case None => None
  }

  // ---------------------------------------------------------------- extract_production_date

  const YearSeparators: set<char> := {'年', '-', '/', '.'}
  const MonthSeparators: set<char> := {'月', '-', '/', '.'}

  /**
   * `\d{4}[年\-/.]\d{1,2}[月\-/.]\d{1,2}日?` tried at `i`: the end of the
   * match. Giving back a digit of `\d{1,2}` leaves a digit where a separator
   * is needed, so the greedy reading is the only one.
   */
  function DateAt(s: string, i: nat): (r: Option<nat>)
    ensures r.Some? ==> i + 8 <= r.value <= |s| && HasDigitsAt(s, i, 4)
  {
    if !HasDigitsAt(s, i, 4) || i + 4 == |s| || s[i + 4] !in YearSeparators then None
    else match UpToTwoDigits(s, i + 5)
      case None => None
      case Some(b) =>
        if b == |s| || s[b] !in MonthSeparators then None
        else match UpToTwoDigits(s, b + 1)
          case None => None
          case Some(e) => Some(if e < |s| && s[e] == '日' then e + 1 else e)
  }

  /** `\d{4}-\d{1,2}-\d{1,2}` tried at `i`: the end of the match. */
  function DashedDateAt(s: string, i: nat): (r: Option<nat>) {
    if !HasDigitsAt(s, i, 4) || i + 4 == |s| || s[i + 4] != '-' then None
    else match UpToTwoDigits(s, i + 5)
      case None => None
      case Some(b) => if b == |s| || s[b] != '-' then None else UpToTwoDigits(s, b + 1)
  }

  /** `_search_first_pattern(text, DATE_PATTERNS)`: the first pattern that matches anywhere decides. */
  function FirstDate(text: string): (r: Option<string>) {
    var d := Found(DateAt, text);
    if d.Some? then d else Found(DashedDateAt, text)
  }

  /** Wherever the dashed pattern matches, the first pattern matches too. */
  lemma DashedDateIsDate(s: string, i: nat)
    requires DashedDateAt(s, i).Some?
    ensures DateAt(s, i).Some?
  {
    var b := UpToTwoDigits(s, i + 5).value;
    assert s[i + 4] in YearSeparators && s[b] in MonthSeparators;
  }

  /** The second date pattern never decides: a date is found exactly where the first pattern finds one, and it is that one. */
  lemma FirstDateFirstPattern(text: string)
    ensures FirstDate(text) == Found(DateAt, text)
  {
    if Found(DateAt, text).None? && Search(DashedDateAt, text, 0).Some? {
      var sp := Search(DashedDateAt, text, 0).value;
      DashedDateIsDate(text, sp.start);
      assert false;
    }
  }

  /** A date found is at least eight characters long and starts with four digits. */
  lemma FirstDateShape(text: string)
    requires FirstDate(text).Some?
    ensures |FirstDate(text).value| >= 8 && HasDigitsAt(FirstDate(text).value, 0, 4)
  {
    FirstDateFirstPattern(text);
    var sp := Search(DateAt, text, 0).value;
    var d := text[sp.start..sp.end];
    assert forall m :: 0 <= m < 4 ==> d[m] == text[sp.start + m];
  }

  /** A line with a date keyword, searched for a date. */
  function DateOnKeywordLine(line: string): Option<string> {
    if AnyIn(DateKeywords, line) then FirstDate(line) else None
  }

  /** The first date in the given rows' cells of column `col`, rows too short for it skipped. */
  function ColumnDate(rows: seq<seq<Value>>, col: nat): Option<string> {
    if rows == [] then None
    else if col < |rows[0]| && FirstDate(Show(rows[0][col])).Some? then FirstDate(Show(rows[0][col]))
    else ColumnDate(rows[1..], col)
  }

  /** The first date in the column under the first date-keyword header. */
  function TableDate(t: Table): Option<string> {
    if t == [] then None
    else match KeywordColumn(t[0], DateKeywords, 0)
      case None => None
      case Some(col) => ColumnDate(t[1..], col)
  }

  /**
   * `extract_production_date`: a date on a date-keyword line, else the first
   * date in a date-keyword column, else the first date on any line, else none.
   */
  function ProductionDate(report: Report): Option<string> {
    var lines := TextLines(report);
    var onKeywordLine := FirstSome(DateOnKeywordLine, lines);
    if onKeywordLine.Some? then onKeywordLine
    else
      var inColumn := FirstSome(TableDate, Tables(report));
      if inColumn.Some? then inColumn
      else FirstSome(FirstDate, lines)
  }

  /** No production date exactly when no line holds a date and no date-keyword column does. */
  lemma ProductionDateNone(report: Report)
    ensures ProductionDate(report).None? <==> (
      && (forall k :: 0 <= k < |TextLines(report)| ==> FirstDate(TextLines(report)[k]).None?)
      && (forall k :: 0 <= k < |Tables(report)| ==> TableDate(Tables(report)[k]).None?))
  {
    var lines := TextLines(report);
    FirstSomeNone(DateOnKeywordLine, lines);
    FirstSomeNone(TableDate, Tables(report));
    FirstSomeNone(FirstDate, lines);
  }

  /** A column date is the date of one of the column's cells. */
  lemma {:induction false} ColumnDateFrom(rows: seq<seq<Value>>, col: nat)
    requires ColumnDate(rows, col).Some?
    ensures exists k :: 0 <= k < |rows| && col < |rows[k]| && FirstDate(Show(rows[k][col])) == ColumnDate(rows, col)
    decreases |rows|
  {
    if !(col < |rows[0]| && FirstDate(Show(rows[0][col])).Some?) {
      ColumnDateFrom(rows[1..], col);
      var k :| 0 <= k < |rows[1..]| && col < |rows[1..][k]| && FirstDate(Show(rows[1..][k][col])) == ColumnDate(rows[1..], col);
      assert rows[1..][k] == rows[k + 1];
    }
  }

  /** A production date found is a date match some text line or table cell holds: eight characters or more, four digits first. */
  lemma ProductionDateShape(report: Report)
    requires ProductionDate(report).Some?
    ensures |ProductionDate(report).value| >= 8 && HasDigitsAt(ProductionDate(report).value, 0, 4)
  {
    var lines := TextLines(report);
    if FirstSome(DateOnKeywordLine, lines).Some? {
      FirstSomeFrom(DateOnKeywordLine, lines);
      var k :| 0 <= k < |lines| && DateOnKeywordLine(lines[k]) == FirstSome(DateOnKeywordLine, lines);
      FirstDateShape(lines[k]);
    } else if FirstSome(TableDate, Tables(report)).Some? {
      FirstSomeFrom(TableDate, Tables(report));
      var k :| 0 <= k < |Tables(report)| && TableDate(Tables(report)[k]) == FirstSome(TableDate, Tables(report));
      var t := Tables(report)[k];
      var col := KeywordColumn(t[0], DateKeywords, 0).value;
      ColumnDateFrom(t[1..], col);
      var j :| 0 <= j < |t[1..]| && col < |t[1..][j]| && FirstDate(Show(t[1..][j][col])) == ColumnDate(t[1..], col);
      FirstDateShape(Show(t[1..][j][col]));
    } else {
      FirstSomeFrom(FirstDate, lines);
      var k :| 0 <= k < |lines| && FirstDate(lines[k]) == FirstSome(FirstDate, lines);
      FirstDateShape(lines[k]);
    }
  }

  // ---------------------------------------------------------------- extract_conclusion

  /** The characters `[^。；;\n]` excludes. */
  const ConclusionStops: set<char> := {'。', '；', ';', '\n'}

  /** The last position in `j..k` where 要求 occurs. */
  function LastRequirement(s: string, j: nat, k: nat): (r: Option<nat>)
    requires j <= k
    ensures r.Some? ==> j <= r.value <= k && OccursAt(s, "要求", r.value)
    ensures forall m :: j <= m <= k && (r.None? || r.value < m) ==> !OccursAt(s, "要求", m)
    decreases k - j
  {
    if OccursAt(s, "要求", k) then Some(k)
    else if k == j then None
    else LastRequirement(s, j, k - 1)
  }

  /**
   * `[^。；;\n]*要求` from `j`: the star first takes the whole run before the
   * first stop character and gives back until 要求 follows, so the match ends
   * after the last 要求 of that run.
   */
  function RequirementEnd(s: string, j: nat): (r: Option<nat>)
    requires j <= |s|
    ensures r.Some? ==> j + 2 <= r.value <= |s| && OccursAt(s, "要求", r.value - 2)
    ensures r.Some? ==> forall k :: j <= k < r.value ==> s[k] !in ConclusionStops
  {
    var stop := FirstOf(s, ConclusionStops, j);
    match LastRequirement(s, j, stop)
    case None => None
    case Some(k) =>
      assert s[k] == '要' && s[k + 1] == '求';
      assert k + 2 <= stop;
      Some(k + 2)
  }

  /**
   * `(合格|不合格|基本符合|符合[^。；;\n]*要求|不符合[^。；;\n]*要求|未检出)`
   * tried at `i`: the alternatives in order, the first that matches wins.
   */
  function ConclusionAt(s: string, i: nat): (r: Option<nat>)
    ensures r.Some? ==> i < r.value <= |s|
  {
    if OccursAt(s, "合格", i) then Some(i + 2)
    else if OccursAt(s, "不合格", i) then Some(i + 3)
    else if OccursAt(s, "基本符合", i) then Some(i + 4)
    else if OccursAt(s, "符合", i) && RequirementEnd(s, i + 2).Some? then RequirementEnd(s, i + 2)
    else if OccursAt(s, "不符合", i) && RequirementEnd(s, i + 3).Some? then RequirementEnd(s, i + 3)
    else if OccursAt(s, "未检出", i) then Some(i + 3)
    else None
  }

  /** `CONCLUSION_REGEX.search(text).group(0)`. */
  function FirstConclusion(text: string): Option<string> {
    Found(ConclusionAt, text)
  }

  /** A conclusion phrase: one of the fixed verdicts, or 符合/不符合 … 要求 within one sentence. */
  predicate IsConclusionPhrase(c: string) {
    || c == "合格" || c == "不合格" || c == "基本符合" || c == "未检出"
    || ((StartsWith(c, "符合") || StartsWith(c, "不符合")) && RequirementTail(c))
  }

  /** Ends with 要求 and holds no stop character. */
  predicate RequirementTail(c: string) {
    EndsWith(c, "要求") && forall k :: 0 <= k < |c| ==> c[k] !in ConclusionStops
  }

  /** A `head[^。；;\n]*要求` match starts with `head` and is a requirement tail. */
  lemma RequirementMatch(s: string, i: nat, head: string)
    requires OccursAt(s, head, i) && RequirementEnd(s, i + |head|).Some?
    requires forall k :: 0 <= k < |head| ==> head[k] !in ConclusionStops
    ensures StartsWith(s[i..RequirementEnd(s, i + |head|).value], head)
    ensures RequirementTail(s[i..RequirementEnd(s, i + |head|).value])
  {
    var e := RequirementEnd(s, i + |head|).value;
    var c := s[i..e];
    assert c[..|head|] == s[i..i + |head|];
    assert c[|c| - 2..] == s[e - 2..e];
    forall k | 0 <= k < |c| ensures c[k] !in ConclusionStops {
      assert c[k] == s[i + k];
      if k < |head| {
        assert s[i + k] == head[k];
      }
    }
  }

  /** What the conclusion pattern matches at a position is a conclusion phrase. */
  lemma ConclusionAtPhrase(s: string, i: nat)
    requires ConclusionAt(s, i).Some?
    ensures IsConclusionPhrase(s[i..ConclusionAt(s, i).value])
  {
    var e := ConclusionAt(s, i).value;
    if OccursAt(s, "合格", i) {
      assert s[i..e] == "合格";
    } else if OccursAt(s, "不合格", i) {
      assert s[i..e] == "不合格";
    } else if OccursAt(s, "基本符合", i) {
      assert s[i..e] == "基本符合";
    } else if OccursAt(s, "符合", i) && RequirementEnd(s, i + 2).Some? {
      RequirementMatch(s, i, "符合");
    } else if OccursAt(s, "不符合", i) && RequirementEnd(s, i + 3).Some? {
      RequirementMatch(s, i, "不符合");
    } else {
      assert s[i..e] == "未检出";
    }
  }

  /** 不合格 is never read as 合格: where it is the leftmost verdict, it is found whole. */
  lemma NonConformingWhole(s: string, i: nat)
    requires OccursAt(s, "不合格", i)
    requires forall j :: 0 <= j < i ==> ConclusionAt(s, j).None?
    ensures FirstConclusion(s) == Some("不合格")
  {
    assert s[i] == '不';
    assert !OccursAt(s, "合格", i);
    assert ConclusionAt(s, i) == Some(i + 3);
    var sp := Search(ConclusionAt, s, 0).value;
    assert sp.start == i;
  }

  /** A line with a conclusion keyword, searched for a conclusion phrase. */
  function ConclusionOnKeywordLine(line: string): Option<string> {
    if AnyIn(ConclusionKeywords, line) then FirstConclusion(line) else None
  }

  /** The first non-empty stripped cell of column `col` in the given rows, rows too short for it skipped. */
  function ColumnCell(rows: seq<seq<Value>>, col: nat): (r: Option<string>)
    ensures r.Some? ==> r.value != [] && IsStripped(r.value)
  {
    if rows == [] then None
    else if col < |rows[0]| && Strip(Show(rows[0][col])) != [] then Some(Strip(Show(rows[0][col])))
    else ColumnCell(rows[1..], col)
  }

  /** The first non-empty cell under the first header holding one of `keywords`, in the first table that has one. */
  function ColumnValue(tables: seq<Table>, keywords: seq<string>): (r: Option<string>)
    ensures r.Some? ==> r.value != [] && IsStripped(r.value)
  {
    if tables == [] then None
    else
      var t := tables[0];
      var here := if t == [] then None
        else match KeywordColumn(t[0], keywords, 0)
          case None => None
          case Some(col) => ColumnCell(t[1..], col);
      if here.Some? then here else ColumnValue(tables[1..], keywords)
  }

  /**
   * `extract_conclusion`: a conclusion phrase on a conclusion-keyword line,
   * else the first non-empty cell of a conclusion column (the first of the
   * `values` the source collects), else the first phrase on any line.
   */
  function Conclusion(report: Report): Option<string> {
    var lines := TextLines(report);
    var onKeywordLine := FirstSome(ConclusionOnKeywordLine, lines);
    if onKeywordLine.Some? then onKeywordLine
    else
      var inColumn := ColumnValue(Tables(report), ConclusionKeywords);
      if inColumn.Some? then inColumn
      else FirstSome(FirstConclusion, lines)
  }

  /** No conclusion exactly when no line holds a phrase and no conclusion column holds a non-empty cell. */
  lemma ConclusionNone(report: Report)
    ensures Conclusion(report).None? <==> (
      && (forall k :: 0 <= k < |TextLines(report)| ==> FirstConclusion(TextLines(report)[k]).None?)
      && ColumnValue(Tables(report), ConclusionKeywords).None?)
  {
    var lines := TextLines(report);
    FirstSomeNone(ConclusionOnKeywordLine, lines);
    FirstSomeNone(FirstConclusion, lines);
  }

  /** A conclusion taken from a line is a conclusion phrase. */
  lemma FirstConclusionPhrase(text: string)
    requires FirstConclusion(text).Some?
    ensures IsConclusionPhrase(FirstConclusion(text).value)
  {
    var sp := Search(ConclusionAt, text, 0).value;
    ConclusionAtPhrase(text, sp.start);
  }

  /** A conclusion is a phrase from a line, or a non-empty stripped table cell. */
  lemma ConclusionShape(report: Report)
    requires Conclusion(report).Some?
    ensures IsConclusionPhrase(Conclusion(report).value) || ColumnValue(Tables(report), ConclusionKeywords) == Conclusion(report)
  {
    var lines := TextLines(report);
    if FirstSome(ConclusionOnKeywordLine, lines).Some? {
      FirstSomeFrom(ConclusionOnKeywordLine, lines);
      var k :| 0 <= k < |lines| && ConclusionOnKeywordLine(lines[k]) == FirstSome(ConclusionOnKeywordLine, lines);
      FirstConclusionPhrase(lines[k]);
    } else if ColumnValue(Tables(report), ConclusionKeywords).None? {
      FirstSomeFrom(FirstConclusion, lines);
      var k :| 0 <= k < |lines| && FirstConclusion(lines[k]) == FirstSome(FirstConclusion, lines);
      FirstConclusionPhrase(lines[k]);
    }
  }

  // ---------------------------------------------------------------- extract_food_name

  const Colons: set<char> := {'：', ':'}

  predicate IsColon(c: char) { c in Colons }

  /** `re.split(r"[：:]", line, maxsplit=1)[1].strip()`, when the line has a colon and that is non-empty. */
  function AfterColon(line: string): (r: Option<string>)
    ensures r.Some? ==> r.value != [] && IsStripped(r.value)
  {
    var c := FirstOf(line, Colons, 0);
    if c == |line| then None
    else
      var v := Strip(line[c + 1..]);
      if v != [] then Some(v) else None
  }

  /** The end of the run of characters from `k` that are neither colons nor whitespace: `[^：:\s]+`. */
  function TokenEnd(s: string, k: nat): (r: nat)
    requires k <= |s|
    ensures k <= r <= |s| && forall m :: k <= m < r ==> !IsColon(s[m]) && !IsSpace(s[m])
    decreases |s| - k
  {
    if k == |s| || IsColon(s[k]) || IsSpace(s[k]) then k else TokenEnd(s, k + 1)
  }

  /** `re.escape(kw) + r"\s*([^：:\s]+)"` tried at `i`: the span of the captured token. */
  function TokenAt(kw: string, s: string, i: nat): (r: Option<Span>)
    ensures r.Some? ==> i + |kw| <= r.value.start < r.value.end <= |s|
    ensures r.Some? ==> forall m :: r.value.start <= m < r.value.end ==> !IsColon(s[m]) && !IsSpace(s[m])
  {
    if !OccursAt(s, kw, i) then None
    else
      var k := SpaceRunEnd(s, i + |kw|);
      var e := TokenEnd(s, k);
      if e > k then Some(Span(k, e)) else None
  }

  /** The keyword pattern as a matcher: where its match ends. */
  function TokenMatcher(kw: string): Matcher {
    (s: string, i: nat) => match TokenAt(kw, s, i) case Some(sp) => Some(sp.end) case None => None
  }

  /** `m.group(1).strip()` for the first match of the keyword pattern in `line`. */
  function TokenAfter(kw: string, line: string): (r: Option<string>)
    ensures r.Some? ==> r.value != [] && NoSpace(r.value)
  {
    match Search(TokenMatcher(kw), line, 0)
    case None => None
    case Some(sp) =>
      var g := TokenAt(kw, line, sp.start).value;
      var token := line[g.start..g.end];
      assert forall m :: 0 <= m < |token| ==> token[m] == line[g.start + m];
      NoSpaceStripped(token);
      Some(Strip(token))
  }

  /** The inner loop over `NAME_KEYWORDS` for one line: the first keyword in the line decides unless neither reading gives a name. */
  function NameFromKeywords(line: string, kws: seq<string>): (r: Option<string>)
    ensures r.Some? ==> r.value != [] && IsStripped(r.value)
  {
    if kws == [] then None
    else if Contains(line, kws[0]) then
      var v := AfterColon(line);
      if v.Some? then v
      else
        var t := TokenAfter(kws[0], line);
        if t.Some? then (NoSpaceStripped(t.value); t) else NameFromKeywords(line, kws[1..])
    else NameFromKeywords(line, kws[1..])
  }

  /** The name a text line gives, if any. */
  function NameOnLine(line: string): Option<string> {
    NameFromKeywords(line, NameKeywords)
  }

  /** `extract_food_name`: the name on the first line that gives one, else the first non-empty cell of a name column. */
  function FoodName(report: Report): Option<string> {
    var onLine := FirstSome(NameOnLine, TextLines(report));
    if onLine.Some? then onLine else ColumnValue(Tables(report), NameKeywords)
  }

  /** On a line with a name keyword, the non-empty text after the first colon wins over the token after the keyword. */
  lemma {:induction false} ColonValueWins(line: string, kws: seq<string>)
    requires AnyIn(kws, line) && AfterColon(line).Some?
    ensures NameFromKeywords(line, kws) == AfterColon(line)
    decreases |kws|
  {
    if !Contains(line, kws[0]) {
      var k :| k in kws && Contains(line, k);
      assert k in kws[1..];
      ColonValueWins(line, kws[1..]);
    }
  }

  /** Without a usable colon, the line gives the token after the first keyword whose pattern matches. */
  lemma {:induction false} TokenFallback(line: string, kws: seq<string>, j: nat)
    requires AfterColon(line).None? && j < |kws| && TokenAfter(kws[j], line).Some?
    requires forall m :: 0 <= m < j ==> TokenAfter(kws[m], line).None?
    ensures NameFromKeywords(line, kws) == TokenAfter(kws[j], line)
    decreases j
  {
    var sp := Search(TokenMatcher(kws[j]), line, 0).value;
    assert OccursAt(line, kws[j], sp.start);
    assert Contains(line, kws[j]);
    if j > 0 {
      assert forall m :: 0 <= m < j - 1 ==> kws[1..][m] == kws[m + 1];
      TokenFallback(line, kws[1..], j - 1);
    }
  }

  /** A food name found is non-empty and stripped. */
  lemma FoodNameShape(report: Report)
    requires FoodName(report).Some?
    ensures FoodName(report).value != [] && IsStripped(FoodName(report).value)
  {
    var lines := TextLines(report);
    if FirstSome(NameOnLine, lines).Some? {
      FirstSomeFrom(NameOnLine, lines);
    }
  }

  /** No food name exactly when no line gives one and no name column holds a non-empty cell. */
  lemma FoodNameNone(report: Report)
    ensures FoodName(report).None? <==> (
      && (forall k :: 0 <= k < |TextLines(report)| ==> NameOnLine(TextLines(report)[k]).None?)
      && ColumnValue(Tables(report), NameKeywords).None?)
  {
    FirstSomeNone(NameOnLine, TextLines(report));
  }

  // ---------------------------------------------------------------- extract_gb_standards

  /** The dashes `[—\-‑–－]` between a standard's number and its year. */
  const GbDashes: set<char> := {'—', '-', '‑', '–', '－'}

  /**
   * `GB(?:/T)?\s*\d+(?:\.\d+)?\s*[—\-‑–－]\s*\d{4}` tried at `i`: the end of the
   * match. Every optional part and every run is taken greedily; giving any
   * of them back leaves a character the next part cannot start with.
   */
  function GbCodeAt(s: string, i: nat): (r: Option<nat>)
    ensures r.Some? ==> i + 8 <= r.value <= |s| && OccursAt(s, "GB", i) && IsDigit(s[r.value - 1])
  {
    if !OccursAt(s, "GB", i) then None
    else
      var a := if OccursAt(s, "/T", i + 2) then i + 4 else i + 2;
      var b := SpaceRunEnd(s, a);
      var c := DigitRunEnd(s, b);
      if c == b then None
      else
        var d := if c + 1 < |s| && s[c] == '.' && IsDigit(s[c + 1]) then DigitRunEnd(s, c + 1) else c;
        var e := SpaceRunEnd(s, d);
        if e == |s| || s[e] !in GbDashes then None
        else
          var f := SpaceRunEnd(s, e + 1);
          if HasDigitsAt(s, f, 4) then Some(f + 4) else None
  }

  /** `GB_REGEX.findall(re.sub(r"\s+", " ", text))`: the codes quoted in a text, in order. */
  function GbCodes(text: string): seq<string> {
    var n := CollapseSpaces(text);
    SpanTexts(n, FindAll(GbCodeAt, n, 0))
  }

  /** A code as reported: it starts with GB and has no surrounding whitespace. */
  predicate CleanCode(c: string) {
    c != [] && IsStripped(c) && StartsWith(c, "GB")
  }

  /** A match starts with GB and ends with a digit, so `strip()` keeps it whole. */
  lemma GbMatchClean(s: string, i: nat, e: nat)
    requires GbCodeAt(s, i) == Some(e)
    ensures CleanCode(s[i..e])
  {
    CleanSlice(s, i, e);
  }

  /** A slice that starts with GB and ends with a digit is a clean code. */
  lemma CleanSlice(s: string, i: nat, e: nat)
    requires i + 2 <= e <= |s| && OccursAt(s, "GB", i) && IsDigit(s[e - 1])
    ensures CleanCode(s[i..e])
  {
    var c := s[i..e];
    assert c[0] == s[i] == 'G';
    assert c[|c| - 1] == s[e - 1];
    assert c[..2] == s[i..i + 2];
  }

  /** Every code `GbCodes` finds is clean. */
  lemma GbCodesClean(text: string)
    ensures forall k :: 0 <= k < |GbCodes(text)| ==> CleanCode(GbCodes(text)[k])
  {
    var n := CollapseSpaces(text);
    var spans := FindAll(GbCodeAt, n, 0);
    forall k | 0 <= k < |spans|
      ensures CleanCode(SpanText(n, spans[k]))
    {
      GbMatchClean(n, spans[k].start, spans[k].end);
    }
  }

  /** A text that can quote a standard in a conclusion: it holds GB and a conclusion keyword or 经抽样检验. */
  predicate GbContext(t: string) {
    Contains(t, "GB") && (AnyIn(ConclusionKeywords, t) || Contains(t, "经抽样检验"))
  }

  /** The codes a line or row text contributes: those it quotes when it is a conclusion context, none otherwise. */
  function ContextCodes(t: string): seq<string> {
    if GbContext(t) then GbCodes(t) else []
  }

  /** `" ".join(str(cell) for cell in row)`. */
  function RowText(row: seq<Value>): string {
    Join(seq(|row|, k requires 0 <= k < |row| => Show(row[k])), " ")
  }

  /** The texts of the rows of one table, header row included. */
  function TableRowTexts(t: Table): seq<string> {
    seq(|t|, k requires 0 <= k < |t| => RowText(t[k]))
  }

  /** The text of every row of every table, in order. */
  function RowTexts(report: Report): seq<string> {
    Collect(TableRowTexts, Tables(report))
  }

  /** Every code quoted in a conclusion context: text lines first, then table rows, repeats included. */
  function FoundCodes(report: Report): seq<string> {
    Collect(ContextCodes, TextLines(report)) + Collect(ContextCodes, RowTexts(report))
  }

  /** `extract_gb_standards`, as a value: the codes found, each once, in first-seen order. */
  function GbStandards(report: Report): seq<string> {
    Distinct(FoundCodes(report))
  }

  /**
   * `extract_gb_standards`: the lines, then the table rows, that are
   * conclusion contexts add the codes they quote that were not seen yet.
   */
  method ExtractGbStandards(report: Report) returns (standards: seq<string>)
    ensures standards == GbStandards(report)
    ensures forall i, j :: 0 <= i < j < |standards| ==> standards[i] != standards[j]
  {
    var seen: set<string>;
    var lines := TextLines(report);
    standards, seen := AddFromTexts(lines, [], {}, []);
    var rows := RowTexts(report);
    ghost var fromLines := Collect(ContextCodes, lines);
    assert [] + fromLines == fromLines;
    standards, seen := AddFromTexts(rows, standards, seen, fromLines);
  }

  /** One of the two scans: each text that is a conclusion context adds its unseen codes. */
  method AddFromTexts(texts: seq<string>, standards: seq<string>, seen: set<string>, ghost found: seq<string>)
    returns (standards': seq<string>, seen': set<string>)
    requires standards == Distinct(found)
    requires forall x :: x in seen <==> x in standards
    ensures standards' == Distinct(found + Collect(ContextCodes, texts))
    ensures forall x :: x in seen' <==> x in standards'
  {
    standards', seen' := standards, seen;
    ghost var more: seq<string> := [];
    assert found + more == found;
    for i := 0 to |texts|
      invariant more == Collect(ContextCodes, texts[..i])
      invariant standards' == Distinct(found + more)
      invariant forall x :: x in seen' <==> x in standards'
    {
      CollectStep(ContextCodes, texts, i);
      standards', seen' := AddIfContext(texts[i], standards', seen', found + more);
      DistinctRegroup(found, more, ContextCodes(texts[i]));
      more := more + ContextCodes(texts[i]);
    }
    assert texts[..|texts|] == texts;
  }

  /** The test the two scans make before calling `_add_from_text` on a line or a row. */
  method AddIfContext(t: string, standards: seq<string>, seen: set<string>, ghost found: seq<string>)
    returns (standards': seq<string>, seen': set<string>)
    requires standards == Distinct(found)
    requires forall x :: x in seen <==> x in standards
    ensures standards' == Distinct(found + ContextCodes(t))
    ensures forall x :: x in seen' <==> x in standards'
  {
    if GbContext(t) {
      standards', seen' := AddCodes(t, standards, seen, found);
    } else {
      assert found + ContextCodes(t) == found;
      standards', seen' := standards, seen;
    }
  }

  /** `_add_from_text`: the codes of `text` not in `seen` are appended, in order, and remembered. */
  method AddCodes(text: string, standards: seq<string>, seen: set<string>, ghost found: seq<string>)
    returns (standards': seq<string>, seen': set<string>)
    requires standards == Distinct(found)
    requires forall x :: x in seen <==> x in standards
    ensures standards' == Distinct(found + GbCodes(text))
    ensures forall x :: x in seen' <==> x in standards'
  {
    var matches := GbCodes(text);
    GbCodesClean(text);
    standards', seen' := AddValues(matches, standards, seen, found);
  }

  /** The loop of `_add_from_text` over the matches, which `strip()` leaves whole. */
  method AddValues(matches: seq<string>, standards: seq<string>, seen: set<string>, ghost found: seq<string>)
    returns (standards': seq<string>, seen': set<string>)
    requires forall k :: 0 <= k < |matches| ==> CleanCode(matches[k])
    requires standards == Distinct(found)
    requires forall x :: x in seen <==> x in standards
    ensures standards' == Distinct(found + matches)
    ensures forall x :: x in seen' <==> x in standards'
  {
    standards', seen' := standards, seen;
    assert found + matches[..0] == found;
    for j := 0 to |matches|
      invariant standards' == Distinct(found + matches[..j])
      invariant forall x :: x in seen' <==> x in standards'
    {
      var value := Strip(matches[j]);
      DistinctStep(found, matches, j);
      if value != [] && value !in seen' {
        seen' := seen' + {value};
        standards' := standards' + [value];
      }
    }
    assert matches[..|matches|] == matches;
  }

  /** A code is reported exactly when some conclusion-context line or row quotes it. */
  lemma GbStandardsMember(report: Report, x: string)
    ensures x in GbStandards(report) <==> (
      || (exists k :: 0 <= k < |TextLines(report)| && GbContext(TextLines(report)[k]) && x in GbCodes(TextLines(report)[k]))
      || (exists k :: 0 <= k < |RowTexts(report)| && GbContext(RowTexts(report)[k]) && x in GbCodes(RowTexts(report)[k])))
  {
    CollectIn(ContextCodes, TextLines(report), x);
    CollectIn(ContextCodes, RowTexts(report), x);
  }

  /** The codes of the text lines come first, in their own first-seen order, before any code seen only in a table. */
  lemma GbStandardsLinesFirst(report: Report)
    ensures Distinct(Collect(ContextCodes, TextLines(report))) <= GbStandards(report)
  {
    DistinctPrefix(Collect(ContextCodes, TextLines(report)), Collect(ContextCodes, RowTexts(report)));
  }

  /** Every reported code is clean. */
  lemma GbStandardsClean(report: Report, x: string)
    requires x in GbStandards(report)
    ensures CleanCode(x)
  {
    GbStandardsMember(report, x);
    if k :| 0 <= k < |TextLines(report)| && GbContext(TextLines(report)[k]) && x in GbCodes(TextLines(report)[k]) {
      GbCodesClean(TextLines(report)[k]);
    } else {
      var k :| 0 <= k < |RowTexts(report)| && GbContext(RowTexts(report)[k]) && x in GbCodes(RowTexts(report)[k]);
      GbCodesClean(RowTexts(report)[k]);
    }
  }

  // ---------------------------------------------------------------- extract_gb_standards_with_title

  /** A standard with the title quoted after it; `title` is absent from the dict when it is empty. */
  datatype TitledCode = TitledCode(code: string, title: Option<string>)

  function CodeOf(e: TitledCode): string { e.code }

  /** The entry for a code and its title, the title left out when it is empty. */
  function Entry(code: string, title: string): TitledCode {
    TitledCode(code, if title == [] then None else Some(title))
  }

  /** The characters `[。；;]` that end a title not given in book-title marks. */
  const TitleStops: set<char> := {'。', '；', ';'}

  /** The characters `strip(" ，,《》[]（）()")` removes from a title. */
  const TitleTrim: set<char> := {' ', '，', ',', '《', '》', '[', ']', '（', '）', '(', ')'}

  /**
   * `re.search(r"《([^》]+)》", tail)` matching at position 0: where the
   * first `》` closes a non-empty `《…》` that opens the tail.
   */
  function BookClose(tail: string): (r: Option<nat>)
    ensures r.Some? ==> 2 <= r.value < |tail| && tail[0] == '《' && tail[r.value] == '》'
    ensures r.Some? ==> forall k :: 1 <= k < r.value ==> tail[k] != '》'
  {
    if tail != [] && tail[0] == '《' then
      var c := FirstOf(tail, {'》'}, 1);
      if 2 <= c < |tail| then Some(c) else None
    else None
  }

  /** The raw title after a code: inside the book-title marks, or up to the first full stop or semicolon. */
  function RawTitle(tail: string): string {
    match BookClose(tail)
    case Some(c) => tail[1..c]
    case None => tail[..FirstOf(tail, TitleStops, 0)]
  }

  /** The start of the run of `c` characters that ends at `j`. */
  function CharRunStart(s: string, c: char, j: nat): (k: nat)
    requires j <= |s|
    ensures k <= j && forall m :: k <= m < j ==> s[m] == c
    ensures k == 0 || s[k - 1] != c
  {
    if j > 0 && s[j - 1] == c then CharRunStart(s, c, j - 1) else j
  }

  /** `re.sub(r"[的]*要求$", "", t)`: a final 要求 is cut, with the 的 run before it. */
  function DropRequirement(t: string): (r: string)
    ensures r <= t
  {
    if EndsWith(t, "要求") then t[..CharRunStart(t, '的', |t| - 2)] else t
  }

  /** The title given after a code, when `tail` is the text after it. */
  function Title(tail: string): string {
    Strip(DropRequirement(StripChars(Strip(RawTitle(tail)), TitleTrim)))
  }

  /** What the title keeps comes from the raw title: a title in marks holds no `》`, another no stop. */
  lemma TitleInside(tail: string)
    ensures IsStripped(Title(tail))
    ensures BookClose(tail).Some? ==> Avoids(Title(tail), {'》'})
    ensures BookClose(tail).None? ==> Avoids(Title(tail), TitleStops)
  {
    var cs := if BookClose(tail).Some? then {'》'} else TitleStops;
    var raw := RawTitle(tail);
    assert Avoids(raw, cs);
    StripAvoids(raw, cs);
    StripCharsAvoids(Strip(raw), TitleTrim, cs);
    var d := DropRequirement(StripChars(Strip(raw), TitleTrim));
    assert Avoids(d, cs) by {
      forall k | 0 <= k < |d| ensures d[k] !in cs {
        assert d[k] == StripChars(Strip(raw), TitleTrim)[k];
      }
    }
    StripAvoids(d, cs);
  }

  /** The entry for the code matched at `sp`: the stripped code and the title after the match. */
  function TitledAt(n: string, sp: Span): TitledCode
    requires sp.end <= |n|
  {
    Entry(Strip(SpanText(n, sp)), Title(n[sp.end..]))
  }

  /** Every code match in `n` from `pos` on, with its title: the search resumes at the end of each match. */
  function TitledFrom(n: string, pos: nat): seq<TitledCode>
    decreases |n| + 1 - pos
  {
    match Search(GbCodeAt, n, pos)
    case None => []
    case Some(sp) => [TitledAt(n, sp)] + TitledFrom(n, sp.end)
  }

  /** Every code match in a text, whitespace runs collapsed, with its title. */
  function TitledCodes(text: string): seq<TitledCode> {
    TitledFrom(CollapseSpaces(text), 0)
  }

  /** The codes of the entries from `pos` on are the code matches from `pos` on. */
  lemma {:induction false} TitledFromCodes(n: string, pos: nat)
    ensures Project(CodeOf, TitledFrom(n, pos)) == SpanTexts(n, FindAll(GbCodeAt, n, pos))
    decreases |n| + 1 - pos
  {
    match Search(GbCodeAt, n, pos)
    case None =>
    case Some(sp) =>
      var rest := TitledFrom(n, sp.end);
      TitledFromCodes(n, sp.end);
      GbMatchClean(n, sp.start, sp.end);
      assert Project(CodeOf, [TitledAt(n, sp)]) == [SpanText(n, sp)];
      ProjectAppend(CodeOf, [TitledAt(n, sp)], rest);
      FindAllNext(GbCodeAt, n, pos);
      SpanTextsCons(n, sp, FindAll(GbCodeAt, n, sp.end));
  }

  /** The entries a line or row text contributes. */
  function ContextTitled(t: string): seq<TitledCode> {
    if GbContext(t) then TitledCodes(t) else []
  }

  /** Every entry found in a conclusion context, lines first, repeats included. */
  function FoundTitled(report: Report): seq<TitledCode> {
    Collect(ContextTitled, TextLines(report)) + Collect(ContextTitled, RowTexts(report))
  }

  /** `extract_gb_standards_with_title`, as a value: the first entry found for each code. */
  function GbStandardsWithTitle(report: Report): seq<TitledCode> {
    FirstPerKey(CodeOf, FoundTitled(report))
  }

  /** The codes of a text's entries are the codes `extract_gb_standards` takes from it. */
  lemma TitledCodesCodes(text: string)
    ensures Project(CodeOf, TitledCodes(text)) == GbCodes(text)
  {
    TitledFromCodes(CollapseSpaces(text), 0);
  }

  /** With or without titles, the same codes come out in the same order. */
  lemma WithTitleSameCodes(report: Report)
    ensures Project(CodeOf, GbStandardsWithTitle(report)) == GbStandards(report)
  {
    forall t ensures Project(CodeOf, ContextTitled(t)) == ContextCodes(t) {
      TitledCodesCodes(t);
    }
    ProjectCollect(CodeOf, ContextTitled, ContextCodes, TextLines(report));
    ProjectCollect(CodeOf, ContextTitled, ContextCodes, RowTexts(report));
    ProjectAppend(CodeOf, Collect(ContextTitled, TextLines(report)), Collect(ContextTitled, RowTexts(report)));
    FirstPerKeyProject(CodeOf, FoundTitled(report));
  }

  /** An entry is reported exactly when it is the first one found for its code. */
  lemma WithTitleFirstWins(report: Report, e: TitledCode)
    ensures e in GbStandardsWithTitle(report) <==>
      exists i :: 0 <= i < |FoundTitled(report)| && FoundTitled(report)[i] == e && FirstOfKey(CodeOf, FoundTitled(report), i)
  {
    var all := FoundTitled(report);
    if e in GbStandardsWithTitle(report) {
      FirstPerKeyOnlyFirst(CodeOf, all, e);
    }
    if i :| 0 <= i < |all| && all[i] == e && FirstOfKey(CodeOf, all, i) {
      FirstPerKeyKeeps(CodeOf, all, i);
    }
  }

  /**
   * What the loop of `extract_gb_standards_with_title` keeps, after the
   * entries `found`: the results, the codes used and the (code, title) pairs
   * seen. A pair is only ever seen once its code is used.
   */
  ghost predicate TitledState(results: seq<TitledCode>, seen: set<(string, string)>, usedCodes: set<string>, found: seq<TitledCode>) {
    && results == FirstPerKey(CodeOf, found)
    && (forall c :: c in usedCodes <==> HasKey(CodeOf, results, c))
    && (forall p :: p in seen ==> p.0 in usedCodes)
  }

  /**
   * `extract_gb_standards_with_title`: the lines, then the table rows, that
   * are conclusion contexts add an entry for each code not used yet.
   */
  method ExtractGbStandardsWithTitle(report: Report) returns (results: seq<TitledCode>)
    ensures results == GbStandardsWithTitle(report)
  {
    var seen: set<(string, string)>;
    var usedCodes: set<string>;
    var lines := TextLines(report);
    results, seen, usedCodes := AddTitledFromTexts(lines, [], {}, {}, []);
    var rows := RowTexts(report);
    ghost var fromLines := Collect(ContextTitled, lines);
    assert [] + fromLines == fromLines;
    results, seen, usedCodes := AddTitledFromTexts(rows, results, seen, usedCodes, fromLines);
  }

  /** One of the two scans: each text that is a conclusion context adds its entries. */
  method AddTitledFromTexts(texts: seq<string>, results: seq<TitledCode>, seen: set<(string, string)>,
                            usedCodes: set<string>, ghost found: seq<TitledCode>)
    returns (results': seq<TitledCode>, seen': set<(string, string)>, usedCodes': set<string>)
    requires TitledState(results, seen, usedCodes, found)
    ensures TitledState(results', seen', usedCodes', found + Collect(ContextTitled, texts))
  {
    results', seen', usedCodes' := results, seen, usedCodes;
    ghost var more: seq<TitledCode> := [];
    assert found + more == found;
    for i := 0 to |texts|
      invariant more == Collect(ContextTitled, texts[..i])
      invariant TitledState(results', seen', usedCodes', found + more)
    {
      CollectStep(ContextTitled, texts, i);
      results', seen', usedCodes' := AddTitledIfContext(texts[i], results', seen', usedCodes', found + more);
      Regroup(found, more, ContextTitled(texts[i]));
      more := more + ContextTitled(texts[i]);
    }
    assert texts[..|texts|] == texts;
  }

  /** The test the two scans make before calling `_add_from_text`. */
  method AddTitledIfContext(t: string, results: seq<TitledCode>, seen: set<(string, string)>,
                            usedCodes: set<string>, ghost found: seq<TitledCode>)
    returns (results': seq<TitledCode>, seen': set<(string, string)>, usedCodes': set<string>)
    requires TitledState(results, seen, usedCodes, found)
    ensures TitledState(results', seen', usedCodes', found + ContextTitled(t))
  {
    if GbContext(t) {
      results', seen', usedCodes' := AddTitledCodes(t, results, seen, usedCodes, found);
    } else {
      assert found + ContextTitled(t) == found;
      results', seen', usedCodes' := results, seen, usedCodes;
    }
  }

  /** `_add_from_text`: each successive code match and the title after it, the search resuming at the match's end. */
  method AddTitledCodes(text: string, results: seq<TitledCode>, seen: set<(string, string)>,
                        usedCodes: set<string>, ghost found: seq<TitledCode>)
    returns (results': seq<TitledCode>, seen': set<(string, string)>, usedCodes': set<string>)
    requires TitledState(results, seen, usedCodes, found)
    ensures TitledState(results', seen', usedCodes', found + TitledCodes(text))
  {
    results', seen', usedCodes' := results, seen, usedCodes;
    var normalized := CollapseSpaces(text);
    var pos := 0;
    ghost var done: seq<TitledCode> := [];
    assert found + done == found;
    while true
      invariant pos <= |normalized|
      invariant done + TitledFrom(normalized, pos) == TitledFrom(normalized, 0)
      invariant TitledState(results', seen', usedCodes', found + done)
      decreases |normalized| - pos
    {
      var m := Search(GbCodeAt, normalized, pos);
      if m.None? {
        break;
      }
      var code := Strip(normalized[m.value.start..m.value.end]);
      var title := Title(normalized[m.value.end..]);
      ghost var e := Entry(code, title);
      GbMatchClean(normalized, m.value.start, m.value.end);
      assert TitledFrom(normalized, pos) == [e] + TitledFrom(normalized, m.value.end);
      results', seen', usedCodes' := Record(code, title, results', seen', usedCodes', found + done);
      Regroup(found, done, [e]);
      Regroup(done, [e], TitledFrom(normalized, m.value.end));
      done := done + [e];
      pos := m.value.end;
    }
    assert done == TitledFrom(normalized, 0);
  }

  /** One match: a new (code, title) pair is remembered, and its code gives an entry unless it was used. */
  method Record(code: string, title: string, results: seq<TitledCode>, seen: set<(string, string)>,
                usedCodes: set<string>, ghost found: seq<TitledCode>)
    returns (results': seq<TitledCode>, seen': set<(string, string)>, usedCodes': set<string>)
    requires TitledState(results, seen, usedCodes, found)
    ensures code == [] ==> results' == results && seen' == seen && usedCodes' == usedCodes
    ensures code != [] ==> TitledState(results', seen', usedCodes', found + [Entry(code, title)])
  {
    results', seen', usedCodes' := results, seen, usedCodes;
    var key := (code, title);
    if code != [] && key !in seen {
      seen' := seen' + {key};
      if code !in usedCodes {
        usedCodes' := usedCodes' + {code};
        results' := results' + [Entry(code, title)];
      }
    }
    if code != [] {
      var e := Entry(code, title);
      assert (found + [e])[..|found|] == found;
      if !HasKey(CodeOf, results, code) {
        forall c ensures c in usedCodes' <==> HasKey(CodeOf, results', c) {
          if HasKey(CodeOf, results, c) {
            var k :| 0 <= k < |results| && CodeOf(results[k]) == c;
            assert results'[k] == results[k];
          }
          if c == code {
            assert CodeOf(results'[|results|]) == c;
          }
        }
      }
    }
  }

  // ---------------------------------------------------------------- extract_inspection_items

  /** The columns `extract_inspection_items` looks for. */
  datatype Role = IndexCol | ItemCol | UnitCol | StandardCol | ValueCol | ConclusionCol | MethodCol

  /** The header words that claim a column for each role. */
  function RoleKeywords(role: Role): seq<string> {
    match role
    case IndexCol => ["序号"]
    case ItemCol => ["检验项目", "项目名称", "项目"]
    case UnitCol => ["计量单位", "单位"]
    case StandardCol => ["标准指标", "标准要求", "限量", "标准值"]
    case ValueCol => ["实测值", "检验结果", "测定值", "结果"]
    case ConclusionCol => ["单项判定", "判定", "结论"]
    case MethodCol => ["检验方法", "检测方法", "方法", "检验依据", "依据"]
  }

  /** A header name claims a column for `role` when it holds one of the role's words. */
  predicate Claims(name: string, role: Role) {
    AnyIn(RoleKeywords(role), name)
  }

  /** The header's names: `str(c).strip()` for each cell. */
  function HeaderNames(header: seq<Value>): (r: seq<string>)
    ensures |r| == |header|
  {
    seq(|header|, k requires 0 <= k < |header| => Strip(Show(header[k])))
  }

  /** The first column at or after `from` whose name claims it for `role`. */
  function RoleColumn(names: seq<string>, role: Role, from: nat): (r: Option<nat>)
    requires from <= |names|
    ensures r.Some? ==> from <= r.value < |names| && Claims(names[r.value], role)
    ensures forall j :: from <= j < |names| && (r.None? || j < r.value) ==> !Claims(names[j], role)
    decreases |names| - from
  {
    if from == |names| then None
    else if Claims(names[from], role) then Some(from)
    else RoleColumn(names, role, from + 1)
  }

  /** `col_map.get(role)`. */
  function Col(colMap: map<Role, nat>, role: Role): Option<nat> {
    if role in colMap then Some(colMap[role]) else None
  }

  /**
   * The column map a header gives: each role goes to the first column whose
   * name claims it, and a role no name claims is absent.
   */
  method HeaderColumns(header: seq<Value>) returns (colMap: map<Role, nat>)
    ensures forall role :: Col(colMap, role) == RoleColumn(HeaderNames(header), role, 0)
  {
    var names := HeaderNames(header);
    colMap := map[];
    for idx := 0 to |names|
      invariant forall role :: Col(colMap, role).Some? ==> Col(colMap, role).value < idx && Claims(names[Col(colMap, role).value], role)
      invariant forall role, k :: 0 <= k < idx && (Col(colMap, role).None? || k < Col(colMap, role).value) ==> !Claims(names[k], role)
    {
      ghost var before := colMap;
      colMap := ClaimColumn(colMap, ClaimsOf(names[idx]), idx);
      forall role
        ensures Col(colMap, role).Some? ==> Col(colMap, role).value <= idx && Claims(names[Col(colMap, role).value], role)
        ensures forall k :: 0 <= k <= idx && (Col(colMap, role).None? || k < Col(colMap, role).value) ==> !Claims(names[k], role)
      {
        assert ClaimsOf(names[idx])(role) == Claims(names[idx], role);
        if Col(before, role).None? && Claims(names[idx], role) {
          assert Col(colMap, role) == Some(idx);
        } else {
          assert Col(colMap, role) == Col(before, role);
        }
      }
    }
    forall role ensures Col(colMap, role) == RoleColumn(names, role, 0) {
      FirstClaim(names, role, Col(colMap, role));
    }
  }

  /** The roles, in the order the tests on a header name are made. */
  const RoleOrder: seq<Role> := [IndexCol, ItemCol, UnitCol, StandardCol, ValueCol, ConclusionCol, MethodCol]

  /** The seven tests on one header name: each role it claims and that has no column yet gets this one. */
  method ClaimColumn(colMap: map<Role, nat>, claims: Role -> bool, idx: nat) returns (colMap': map<Role, nat>)
    ensures forall role :: Col(colMap', role) == if role !in colMap && claims(role) then Some(idx) else Col(colMap, role)
  {
    colMap' := colMap;
    for i := 0 to |RoleOrder|
      invariant forall role :: Col(colMap', role) == if role in RoleOrder[..i] && role !in colMap && claims(role) then Some(idx) else Col(colMap, role)
    {
      colMap' := ClaimRole(colMap', RoleOrder[i], claims, idx);
      assert forall role :: role in RoleOrder[..i + 1] <==> role in RoleOrder[..i] || role == RoleOrder[i];
    }
    assert RoleOrder[..|RoleOrder|] == RoleOrder;
    forall role ensures role in RoleOrder {
      match role
      case IndexCol =>
      case ItemCol =>
      case UnitCol =>
      case StandardCol =>
      case ValueCol =>
      case ConclusionCol =>
      case MethodCol =>
    }
  }

  /** One test: `if <claimed> and role not in col_map: col_map[role] = idx`. */
  method ClaimRole(colMap: map<Role, nat>, role: Role, claims: Role -> bool, idx: nat) returns (colMap': map<Role, nat>)
    ensures forall r :: Col(colMap', r) == if r == role && r !in colMap && claims(r) then Some(idx) else Col(colMap, r)
  {
    colMap' := colMap;
    if claims(role) && role !in colMap {
      colMap' := colMap[role := idx];
    }
  }

  /** The roles a header name claims, as the seven tests see them. */
  function ClaimsOf(name: string): Role -> bool {
    role => Claims(name, role)
  }

  /** A column that claims `role`, before which none does, is the one `RoleColumn` finds; no such column, no column. */
  lemma FirstClaim(names: seq<string>, role: Role, c: Option<nat>)
    requires c.Some? ==> c.value < |names| && Claims(names[c.value], role)
    requires forall k :: 0 <= k < |names| && (c.None? || k < c.value) ==> !Claims(names[k], role)
    ensures c == RoleColumn(names, role, 0)
  {
    var r := RoleColumn(names, role, 0);
    if r.Some? && c.Some? {
      assert !(r.value < c.value) && !(c.value < r.value);
    }
  }

  /** A row of the result: the cells under the mapped columns. */
  datatype InspectionRecord = InspectionRecord(
    index: string, item: string, unit: string, standard: string,
    value: string, testMethod: string, conclusion: string)

  /** `_get_cell`: the stripped text of the cell, empty when there is no column, no such cell or a `None`. */
  function GetCell(row: seq<Value>, col: Option<nat>): (r: string)
    ensures IsStripped(r)
    ensures col.None? || col.value >= |row| || row[col.value].Null? ==> r == []
    ensures col.Some? && col.value < |row| && !row[col.value].Null? ==> r == Strip(Show(row[col.value]))
  {
    if col.None? || col.value >= |row| then []
    else if row[col.value].Null? then []
    else Strip(Show(row[col.value]))
  }

  /** The record a row gives under a column map. */
  function RecordOf(row: seq<Value>, colMap: map<Role, nat>): InspectionRecord {
    InspectionRecord(
      GetCell(row, Col(colMap, IndexCol)), GetCell(row, Col(colMap, ItemCol)),
      GetCell(row, Col(colMap, UnitCol)), GetCell(row, Col(colMap, StandardCol)),
      GetCell(row, Col(colMap, ValueCol)), GetCell(row, Col(colMap, MethodCol)),
      GetCell(row, Col(colMap, ConclusionCol)))
  }

  /** A record is kept when it has an item, a value or a standard. */
  predicate Kept(rec: InspectionRecord) {
    rec.item != [] || rec.value != [] || rec.standard != []
  }

  /** What one row contributes: its record, when the record is kept. */
  function KeptOf(colMap: map<Role, nat>): seq<Value> -> seq<InspectionRecord> {
    row => var rec := RecordOf(row, colMap); if Kept(rec) then [rec] else []
  }

  /** The kept records of `rows`, in order. */
  function KeptRecords(rows: seq<seq<Value>>, colMap: map<Role, nat>): seq<InspectionRecord> {
    Collect(KeptOf(colMap), rows)
  }

  /** The map holding the column `colOf` gives each role, roles without one left out. */
  function MapOf(colOf: Role -> Option<nat>): map<Role, nat> {
    map role | role in RoleOrder && colOf(role).Some? :: colOf(role).value
  }

  /** `MapOf` loses nothing. */
  lemma MapOfCol(colOf: Role -> Option<nat>)
    ensures forall role :: Col(MapOf(colOf), role) == colOf(role)
  {
    forall role ensures Col(MapOf(colOf), role) == colOf(role) {
      match role
      case IndexCol =>
      case ItemCol =>
      case UnitCol =>
      case StandardCol =>
      case ValueCol =>
      case ConclusionCol =>
      case MethodCol =>
    }
  }

  /** The first-claim column of each role under a header. */
  function FirstClaims(header: seq<Value>): Role -> Option<nat> {
    role => RoleColumn(HeaderNames(header), role, 0)
  }

  /** The column map of a header, as a value. */
  function ColumnsOf(header: seq<Value>): map<Role, nat> {
    MapOf(FirstClaims(header))
  }

  /** The records one table gives: none unless its header has an item and a value column. */
  function TableItems(t: Table): seq<InspectionRecord> {
    if t == [] then []
    else
      var colMap := ColumnsOf(t[0]);
      if ItemCol in colMap && ValueCol in colMap then KeptRecords(t[1..], colMap) else []
  }

  /** The records of a table, when it gives any. */
  function TableRecords(t: Table): Option<seq<InspectionRecord>> {
    if TableItems(t) != [] then Some(TableItems(t)) else None
  }

  /** `extract_inspection_items`, as a value. */
  function InspectionItems(report: Report): seq<InspectionRecord> {
    match FirstSome(TableRecords, Tables(report))
    case None => []
    case Some(records) => records
  }

  /** The records of the rows after the header: `for row in table[1:]`, keeping those with content. */
  method RowRecords(rows: seq<seq<Value>>, colMap: map<Role, nat>) returns (records: seq<InspectionRecord>)
    ensures records == KeptRecords(rows, colMap)
  {
    records := [];
    for j := 0 to |rows|
      invariant records == KeptRecords(rows[..j], colMap)
    {
      var record := RecordOf(rows[j], colMap);
      CollectStep(KeptOf(colMap), rows, j);
      if Kept(record) {
        records := records + [record];
      }
    }
    assert rows[..|rows|] == rows;
  }

  /** One table of `extract_inspection_items`: the header's columns, then the records of the rows after it. */
  method ReadTable(table: Table) returns (records: seq<InspectionRecord>)
    ensures records == TableItems(table)
  {
    records := [];
    if table != [] {
      var colMap := HeaderColumns(table[0]);
      ColumnsOfCol(table[0]);
      ColEqual(colMap, ColumnsOf(table[0]));
      if ItemCol in colMap && ValueCol in colMap {
        records := RowRecords(table[1..], colMap);
      }
    }
  }

  /**
   * `extract_inspection_items`: the tables in order; a table whose header
   * maps an item and a value column gives its records, and the first table
   * that gives any ends the search.
   */
  method ExtractInspectionItems(report: Report) returns (items: seq<InspectionRecord>)
    ensures items == InspectionItems(report)
  {
    items := [];
    var tables := Tables(report);
    var i := 0;
    assert tables[0..] == tables;
    while i < |tables|
      invariant i <= |tables|
      invariant items == [] && FirstSome(TableRecords, tables[i..]) == FirstSome(TableRecords, tables)
    {
      var table := tables[i];
      assert tables[i..][0] == table && tables[i..][1..] == tables[i + 1..];
      var records := ReadTable(table);
      items := items + records;
      if items != [] {
        return;
      }
      i := i + 1;
    }
  }

  /** The map `ColumnsOf` gives is the first-claim column of each role. */
  lemma ColumnsOfCol(header: seq<Value>)
    ensures forall role :: Col(ColumnsOf(header), role) == RoleColumn(HeaderNames(header), role, 0)
  {
    MapOfCol(FirstClaims(header));
  }

  /** Two column maps that agree on every role are the same map. */
  lemma ColEqual(m1: map<Role, nat>, m2: map<Role, nat>)
    requires forall role :: Col(m1, role) == Col(m2, role)
    ensures m1 == m2
  {
    assert forall role :: role in m1 <==> Col(m1, role).Some?;
    assert forall role :: role in m2 <==> Col(m2, role).Some?;
  }

  /** A row gives a record exactly when its record has content. */
  lemma KeptRecordsMember(rows: seq<seq<Value>>, colMap: map<Role, nat>, rec: InspectionRecord)
    ensures rec in KeptRecords(rows, colMap) <==> Kept(rec) && exists j :: 0 <= j < |rows| && RecordOf(rows[j], colMap) == rec
  {
    CollectIn(KeptOf(colMap), rows, rec);
    forall j | 0 <= j < |rows|
      ensures rec in KeptOf(colMap)(rows[j]) <==> Kept(rec) && RecordOf(rows[j], colMap) == rec
    {
    }
  }

  /** Every field of a record is stripped text. */
  predicate StrippedRecord(rec: InspectionRecord) {
    && IsStripped(rec.index) && IsStripped(rec.item) && IsStripped(rec.unit) && IsStripped(rec.standard)
    && IsStripped(rec.value) && IsStripped(rec.testMethod) && IsStripped(rec.conclusion)
  }

  /**
   * The result is the records of one table, the first whose header maps an
   * item and a value column and that has a row with content; every table
   * before it gives nothing.
   */
  lemma InspectionItemsFirst(report: Report)
    ensures InspectionItems(report) != [] ==> exists i :: (0 <= i < |Tables(report)| && InspectionItems(report) == TableItems(Tables(report)[i])
      && forall k :: 0 <= k < i ==> TableItems(Tables(report)[k]) == [])
    ensures InspectionItems(report) == [] <==> forall k :: 0 <= k < |Tables(report)| ==> TableItems(Tables(report)[k]) == []
  {
    var tables := Tables(report);
    FirstSomeNone(TableRecords, tables);
    if FirstSome(TableRecords, tables).Some? {
      FirstSomeFirst(TableRecords, tables);
    }
  }

  /** A table gives records only under a header with an item and a value column, and each comes from a row after the header. */
  lemma TableItemsFrom(t: Table, rec: InspectionRecord)
    requires rec in TableItems(t)
    ensures t != [] && RoleColumn(HeaderNames(t[0]), ItemCol, 0).Some? && RoleColumn(HeaderNames(t[0]), ValueCol, 0).Some?
    ensures Kept(rec) && StrippedRecord(rec)
    ensures exists row :: row in t[1..] && RecordOf(row, ColumnsOf(t[0])) == rec
  {
    var cols := ColumnsOf(t[0]);
    var rows := t[1..];
    ColumnsOfCol(t[0]);
    assert Col(cols, ItemCol).Some? && Col(cols, ValueCol).Some?;
    KeptRecordsMember(rows, cols, rec);
    var j :| 0 <= j < |rows| && RecordOf(rows[j], cols) == rec;
    assert rows[j] in rows;
  }
}
