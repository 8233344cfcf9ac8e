/**
 * The table reader of the knowledge-base answers (`HtmlTableParser`): it turns
 * the first HTML table of a retrieved chunk into one dictionary per data row,
 * keyed by the cleaned header texts, and picks the inspection items out of
 * those rows: a name column, an optional basis column and an optional method
 * column, a cascade of filters on the name, and a final pass that splits a
 * cell naming several substances into one item per substance.
 *
 * The HTML parser itself is a parameter: it yields the cell texts of the
 * first table (`RawTable`), or nothing when there is no table.
 */
module HtmlTableParser {
  import opened Wrappers
  import opened Text
  import opened Assoc
  import opened Scan

  // ---------------------------------------------------------------- _clean_text

  /** Carriage returns and line feeds become spaces. */
  function BreaksToSpaces(s: string): (r: string)
    ensures |r| == |s|
    ensures forall i :: 0 <= i < |s| ==> r[i] == if s[i] == '\n' || s[i] == '\r' then ' ' else s[i]
  {
    seq(|s|, i requires 0 <= i < |s| => if s[i] == '\n' || s[i] == '\r' then ' ' else s[i])
  }

  /**
   * `_clean_text`: line breaks become spaces, the ends are stripped and every
   * whitespace run becomes one space. The result has no whitespace at either
   * end and no two whitespace characters in a row, each of them a plain space.
   */
  function CleanText(text: string): (r: string)
    ensures IsStripped(r) && SingleSpaced(r)
  {
    if text == [] then []
    else
      var t := Strip(BreaksToSpaces(text));
      if t == [] then CollapseSpaces(t)
      else
        CollapseFromLast(t, 0);
        CollapseSpaces(t)
  }

  /** Cleaning a cleaned text changes nothing. */
  lemma CleanTextIdempotent(text: string)
    ensures CleanText(CleanText(text)) == CleanText(text)
  {
    var r := CleanText(text);
    if r != [] {
      assert BreaksToSpaces(r) == r by {
        forall i | 0 <= i < |r| ensures BreaksToSpaces(r)[i] == r[i] {
          if IsSpace(r[i]) {
            assert r[i] == ' ';
          }
        }
      }
      CollapseSingleSpaced(r, 0);
      assert r[0..] == r;
    }
  }

  // ---------------------------------------------------------------- parse_table

  /**
   * What the HTML parser yields for the first `<table>`: the texts of the
   * first row's `<th>` cells (its `<td>` cells when it has none), and for each
   * later `<tr>` the texts of its `<td>` cells.
   */
  datatype RawTable = RawTable(headerCells: seq<string>, rows: seq<seq<string>>)

  /** A parsed row: the cleaned cell texts keyed by their column headers, in column order. */
  type Row = Dict<string, string>

  /** The cleaned header texts. */
  function Headers(t: RawTable): (r: seq<string>)
    ensures |r| == |t.headerCells|
    ensures forall i :: 0 <= i < |r| ==> r[i] == CleanText(t.headerCells[i])
  {
    seq(|t.headerCells|, i requires 0 <= i < |t.headerCells| => CleanText(t.headerCells[i]))
  }

  function Min(a: nat, b: nat): nat { if a < b then a else b }

  /** The cleaned cell texts. */
  function CleanCells(cells: seq<string>): (r: seq<string>)
    ensures |r| == |cells|
    ensures forall i :: 0 <= i < |r| ==> r[i] == CleanText(cells[i])
  {
    seq(|cells|, i requires 0 <= i < |cells| => CleanText(cells[i]))
  }

  /** The dictionary of a data row after its first `n` cells: each cleaned cell text assigned under its column's header. */
  function RowData(headers: seq<string>, cells: seq<string>, n: nat): Row
    requires n <= |headers| && n <= |cells|
  {
    PutPairs(headers, CleanCells(cells), n)
  }

  /** `any(row_data.values())`. */
  predicate HasContent(row: Row) {
    exists i :: 0 <= i < |row| && row[i].1 != []
  }

  /** The rows `parse_table` keeps from the data rows `rows`: rows with cells, assembled, and kept when some value is non-empty. */
  function KeptRows(headers: seq<string>, rows: seq<seq<string>>): (r: seq<Row>)
    ensures |r| <= |rows|
    ensures forall k :: 0 <= k < |r| ==> HasContent(r[k])
  {
    if rows == [] then []
    else
      var kept := KeptRows(headers, rows[..|rows| - 1]);
      var cells := rows[|rows| - 1];
      if cells == [] then kept
      else
        var row := RowData(headers, cells, Min(|cells|, |headers|));
        if HasContent(row) then kept + [row] else kept
  }

  /** `parse_table`, with the HTML parser as the parameter `soup`. */
  function ParsedTable(html: string, soup: string -> Option<RawTable>): seq<Row> {
    if html == [] then []
    else match soup(html)
      case None => []
      case Some(t) => if Headers(t) == [] then [] else KeptRows(Headers(t), t.rows)
  }

  /**
   * `parse_table`: an empty document, a document without a table and a table
   * without header cells give no rows; otherwise every later row with `<td>`
   * cells is assembled, cells beyond the header count are ignored, and rows
   * whose values are all empty are dropped.
   */
  method ParseTable(html: string, soup: string -> Option<RawTable>) returns (results: seq<Row>)
    ensures results == ParsedTable(html, soup)
    ensures forall k :: 0 <= k < |results| ==> HasContent(results[k])
  {
    if html == [] {
      return [];
    }
    var table := soup(html);
    if table.None? {
      return [];
    }
    var headers := Headers(table.value);
    if headers == [] {
      return [];
    }
    var rows := table.value.rows;
    results := [];
    var r := 0;
    while r < |rows|
      invariant r <= |rows|
      invariant results == KeptRows(headers, rows[..r])
    {
      var cells := rows[r];
      KeptRowsStep(headers, rows, r);
      if cells == [] {
        r := r + 1;
        continue;
      }
      var rowData := AssembleRow(headers, cells);
      if HasContent(rowData) {
        results := results + [rowData];
      }
      r := r + 1;
    }
    assert rows[..|rows|] == rows;
  }

  /** One more data row: it is kept, assembled, when it has cells and some value is non-empty. */
  lemma KeptRowsStep(headers: seq<string>, rows: seq<seq<string>>, r: nat)
    requires r < |rows|
    ensures KeptRows(headers, rows[..r + 1])
      == if rows[r] == [] || !HasContent(RowData(headers, rows[r], Min(|rows[r]|, |headers|))) then KeptRows(headers, rows[..r])
         else KeptRows(headers, rows[..r]) + [RowData(headers, rows[r], Min(|rows[r]|, |headers|))]
  {
    assert rows[..r + 1][..r] == rows[..r];
  }

  /**
   * The inner loop of `parse_table`: each cell with a header is assigned,
   * cleaned, under that header; cells beyond the headers are ignored.
   */
  method AssembleRow(headers: seq<string>, cells: seq<string>) returns (rowData: Row)
    ensures rowData == RowData(headers, cells, Min(|cells|, |headers|))
  {
    var cleaned := CleanCells(cells);
    rowData := AssignCells(headers, cleaned);
  }

  /** `row_data[headers[i]] = text` for each cleaned cell text that has a header, in column order. */
  method AssignCells(headers: seq<string>, texts: seq<string>) returns (rowData: Row)
    ensures rowData == PutPairs(headers, texts, Min(|texts|, |headers|))
  {
    rowData := [];
    var i := 0;
    while i < |texts|
      invariant i <= |texts|
      invariant rowData == PutPairs(headers, texts, Min(i, |headers|))
    {
      if i < |headers| {
        assert Min(i, |headers|) == i;
        rowData := Put(rowData, headers[i], texts[i]);
        assert Min(i + 1, |headers|) == i + 1;
      } else {
        assert Min(i + 1, |headers|) == Min(i, |headers|);
      }
      i := i + 1;
    }
  }

  /** The keys of an assembled row are the headers of its cells, each once, in first-seen order. */
  lemma RowDataKeys(headers: seq<string>, cells: seq<string>, n: nat)
    requires n <= |headers| && n <= |cells|
    ensures Keys(RowData(headers, cells, n)) == Distinct(headers[..n])
  {
    PutPairsKeys(headers, CleanCells(cells), n);
  }

  /** A header that repeats takes the cleaned text of its last cell. */
  lemma RowDataLast(headers: seq<string>, cells: seq<string>, n: nat, j: nat)
    requires j < n <= |headers| && n <= |cells|
    requires forall m :: j < m < n ==> headers[m] != headers[j]
    ensures Get(RowData(headers, cells, n), headers[j]) == Some(CleanText(cells[j]))
  {
    PutPairsLast(headers, CleanCells(cells), n, j);
  }

  /** A key no cell is under is absent. */
  lemma RowDataAbsent(headers: seq<string>, cells: seq<string>, n: nat, key: string)
    requires n <= |headers| && n <= |cells|
    requires forall m :: 0 <= m < n ==> headers[m] != key
    ensures Get(RowData(headers, cells, n), key).None?
  {
    PutPairsAbsent(headers, CleanCells(cells), n, key);
  }

  /** Every kept row has distinct keys, each one a header, and a non-empty value. */
  lemma {:induction false} KeptRowsShape(headers: seq<string>, rows: seq<seq<string>>, k: nat)
    requires k < |KeptRows(headers, rows)|
    ensures DistinctKeys(KeptRows(headers, rows)[k])
    ensures forall key :: key in Keys(KeptRows(headers, rows)[k]) ==> key in headers
  {
    var kept := KeptRows(headers, rows[..|rows| - 1]);
    var cells := rows[|rows| - 1];
    if k < |kept| {
      KeptRowsShape(headers, rows[..|rows| - 1], k);
    } else {
      var n := Min(|cells|, |headers|);
      PutPairsDistinct(headers, CleanCells(cells), n);
      RowDataKeys(headers, cells, n);
    }
  }

  // ---------------------------------------------------------------- find_inspection_items

  /** An inspection item: `item_name`, `standard_basis` and `test_method`. */
  datatype Item = Item(name: string, basis: string, testMethod: string)

  const NameTargets: seq<string> := ["检验项目", "项目名称", "项目"]
  const BasisTargets: seq<string> := ["依据法律法规", "依据法律法规或标准", "检验依据"]
  const MethodTargets: seq<string> := ["检测方法", "检验方法"]

  /** Words whose presence anywhere in a name marks a note, a placeholder or a reference rather than an item. */
  const Blacklist: seq<string> := [
    "注", "备注", "说明", "▲", "★", "类别", "分类", "序号", "检测项目",
    "无", "见下表", "如", "同", "及", "等",
    "目录", "页码", "页", "表", "附录", "参考", "依据", "标准", "方法", "单位", "限量", "指标",
    "共", "第", "见", "参见", "详见", "参照",
    "补充", "额外", "蔬菜"]

  /** Prefixes of standard codes; a name starting with one is a misplaced basis cell. */
  const StandardPrefixes: seq<string> := [
    "GB", "NY", "SN", "DB", "GH", "QB", "SB", "SC", "HG", "LY", "WB", "WM", "T/", "Q/", "JJG", "ISO"]

  /** The position of the first key at or after `from` that contains one of `targets`. */
  function FirstKey(row: Row, targets: seq<string>, from: nat): (r: Option<nat>)
    requires from <= |row|
    ensures r.Some? ==> from <= r.value < |row| && AnyIn(targets, row[r.value].0)
    ensures forall j :: from <= j < |row| && (r.None? || j < r.value) ==> !AnyIn(targets, row[j].0)
    decreases |row| - from
  {
    if from == |row| then None
    else if AnyIn(targets, row[from].0) then Some(from)
    else FirstKey(row, targets, from + 1)
  }

  /** The position of the last key before `n` that contains one of `targets`: a later match overwrites an earlier one. */
  function LastKey(row: Row, targets: seq<string>, n: nat): (r: Option<nat>)
    requires n <= |row|
    ensures r.Some? ==> r.value < n && AnyIn(targets, row[r.value].0)
    ensures forall j :: 0 <= j < n && (r.None? || r.value < j) ==> !AnyIn(targets, row[j].0)
  {
    if n == 0 then None
    else if AnyIn(targets, row[n - 1].0) then Some(n - 1)
    else LastKey(row, targets, n - 1)
  }

  const ProjectWord := "项目"

  /** The three name targets all contain "项目": a key contains one of them exactly when it contains "项目". */
  lemma NameTargetsProject(key: string)
    ensures AnyIn(NameTargets, key) <==> AnyIn([ProjectWord], key)
  {
    var p := ProjectWord;
    assert p in NameTargets && p in [ProjectWord];
    if AnyIn(NameTargets, key) {
      var t :| t in NameTargets && Contains(key, t);
      if t == "检验项目" {
        assert OccursAt(t, p, 2);
        ContainsAt(t, p, 2);
        ContainsTrans(key, t, p);
      } else if t == "项目名称" {
        assert OccursAt(t, p, 0);
        ContainsAt(t, p, 0);
        ContainsTrans(key, t, p);
      }
    }
  }

  /** The name column is the first key containing "项目". */
  lemma {:induction false} NameKeyIsProjectKey(row: Row, from: nat)
    requires from <= |row|
    ensures FirstKey(row, NameTargets, from) == FirstKey(row, [ProjectWord], from)
    decreases |row| - from
  {
    if from < |row| {
      NameTargetsProject(row[from].0);
      NameKeyIsProjectKey(row, from + 1);
    }
  }

  /** The number of CJK characters (`len(re.findall(r'[一-龥]', s))`). */
  function CjkCount(s: string): (n: nat)
    ensures n <= |s|
  {
    if s == [] then 0 else (if IsCjk(s[0]) then 1 else 0) + CjkCount(s[1..])
  }

  /** `str.isupper()` on ASCII: some upper-case letter and no lower-case one. */
  predicate UpperText(s: string) {
    (exists i :: 0 <= i < |s| && IsUpperAscii(s[i])) && forall i :: 0 <= i < |s| ==> !IsLowerAscii(s[i])
  }

  /** `re.match(r'^[a-zA-Z]$', s)`. */
  predicate SingleLetter(s: string) { |s| == 1 && IsLetterAscii(s[0]) }

  /** `re.match(r'^[\d\.\)\、]+$', s)`: a numbering such as "4.1" or "1)". */
  predicate Numbering(s: string) {
    |s| > 0 && forall i :: 0 <= i < |s| ==> IsDigit(s[i]) || s[i] == '.' || s[i] == ')' || s[i] == '、'
  }

  /** `re.search(r'[一-龥A-Za-z0-9]', s)`. */
  predicate HasWordChar(s: string) {
    exists i :: 0 <= i < |s| && (IsCjk(s[i]) || IsAlnumAscii(s[i]))
  }

  /** `s.upper().startswith(std_prefixes)`. */
  predicate HasStandardPrefix(s: string) {
    exists p :: p in StandardPrefixes && StartsWith(Upper(s), p)
  }

  /**
   * The name filters of `find_inspection_items`, in their order. A name
   * survives only if its stripped form is 2 to 50 characters long, it holds
   * no blacklisted word, it is not a number, a single letter, a standard code
   * or a numbering, it has a CJK or alphanumeric character, and it has at
   * least two CJK characters unless it is an upper-case name of at most ten.
   */
  function NameAccepted(raw: string): (ok: bool)
    ensures ok ==> 2 <= |Strip(raw)| <= 50
    ensures ok ==> CjkCount(Strip(raw)) >= 2 || |Strip(raw)| <= 10
  {
    var t := Strip(raw);
    if raw == [] || |t| < 2 then false
    else if |t| > 50 then false
    else if AnyIn(Blacklist, raw) then false
    else if AllDigits(t) then false
    else if SingleLetter(t) then false
    else if HasStandardPrefix(t) then false
    else if Numbering(t) then false
    else if !HasWordChar(raw) then false
    else if CjkCount(t) < 2 && !(UpperText(t) && 2 <= |t| <= 10) then false
    else true
  }

  /** The basis cell cleaned: its whitespace-separated tokens without repeats, in first-seen order, joined by single spaces. */
  function CleanBasis(raw: string): string {
    if raw == [] then [] else Join(Distinct(SplitSpaces(raw, 0)), " ")
  }

  /** The basis of a row: the cleaned value of the last basis column, or "" when there is none. */
  function BasisOf(row: Row): string {
    match LastKey(row, BasisTargets, |row|)
    case None => []
    case Some(k) => CleanBasis(row[k].1)
  }

  /** The method of a row: the value of the last method column, or "" when there is none. */
  function MethodOf(row: Row): string {
    match LastKey(row, MethodTargets, |row|)
    case None => []
    case Some(k) => row[k].1
  }

  /** The item a row yields before splitting: none without a name column or when the name fails a filter. */
  function ItemOf(row: Row): Option<Item> {
    match FirstKey(row, NameTargets, 0)
    case None => None
    case Some(k) =>
      var raw := row[k].1;
      if NameAccepted(raw) then Some(Item(raw, BasisOf(row), MethodOf(row))) else None
  }

  /** `ItemOf` as a list of zero or one items, to be collected over the rows. */
  function ItemSeq(row: Row): seq<Item> {
    match ItemOf(row)
    case None => []
    case Some(item) => [item]
  }

  /** The basis tokens of an item are the cell's tokens without repeats, in first-seen order. */
  lemma CleanBasisTokens(raw: string)
    ensures SplitSpaces(CleanBasis(raw), 0) == Distinct(SplitSpaces(raw, 0))
  {
    var words := SplitSpaces(raw, 0);
    if raw == [] {
      assert SpaceRunEnd(raw, 0) == 0;
      assert SplitSpaces(raw, 0) == [];
    } else {
      var d := Distinct(words);
      assert AreWords(d) by {
        forall k | 0 <= k < |d| ensures d[k] != [] && NoSpace(d[k]) {
          assert d[k] in words;
        }
      }
      SplitSpacesJoin(d);
    }
  }

  // ---------------------------------------------------------------- splitting items that name several substances

  const Brackets: set<char> := {'(', ')', '（', '）'}

  predicate OpensBracket(p: string) { p != [] && (p[0] == '(' || p[0] == '（') }
  predicate ClosesBracket(p: string) { p != [] && (p[|p| - 1] == ')' || p[|p| - 1] == '）') }

  /** `re.search('以.*为主要原料', p)`: "以" and later "为主要原料" with no line feed between. */
  predicate MainIngredientNote(p: string) {
    exists i, j :: 0 <= i < j <= |p| && p[i] == '以' && OccursAt(p, "为主要原料", j) && NoLineFeed(p, i, j)
  }

  predicate NoLineFeed(p: string, i: nat, j: nat)
    requires i <= j <= |p|
  {
    forall m :: i < m < j ==> p[m] != '\n'
  }

  /** `re.search('^[a-z]\.$', p)` or `re.search('^[a-z]、$', p)`: a lettered list mark. */
  predicate LetterMark(p: string) {
    (|p| == 2 || (|p| == 3 && p[2] == '\n')) && IsLowerAscii(p[0]) && (p[1] == '.' || p[1] == '、')
  }

  /** A note rather than a substance. */
  predicate NoteText(p: string) {
    Contains(p, "不检测") || Contains(p, "不适用") || Contains(p, "视产品") || Contains(p, "而定")
    || MainIngredientNote(p) || LetterMark(p)
  }

  /**
   * A piece of a multi-part name that counts as a substance: at least two
   * characters and not a number, no stray bracket at either end (a fully
   * bracketed piece is kept), at least two characters inside any brackets at
   * its ends, and not a note.
   */
  predicate ValidPart(p: string) {
    !(|p| < 2 || AllDigits(p))
    && !(ClosesBracket(p) && !OpensBracket(p))
    && !(OpensBracket(p) && !ClosesBracket(p))
    && |StripChars(p, Brackets)| >= 2
    && !NoteText(p)
  }

  /** The valid pieces, in order. */
  function ValidParts(parts: seq<string>): (r: seq<string>)
    ensures |r| <= |parts|
    ensures forall p :: p in r <==> p in parts && ValidPart(p)
  {
    if parts == [] then []
    else
      var r := ValidParts(parts[..|parts| - 1]);
      var p := parts[|parts| - 1];
      assert forall x :: x in parts <==> x in parts[..|parts| - 1] || x == p;
      if ValidPart(p) then r + [p] else r
  }

  /** Tried at `i`: the prefix of `(?:GB|NY|SN|GH)`. */
  predicate MethodPrefixAt(s: string, i: nat) {
    OccursAt(s, "GB", i) || OccursAt(s, "NY", i) || OccursAt(s, "SN", i) || OccursAt(s, "GH", i)
  }

  /** The end of `(?:\.\d+)*` from `e`. */
  function DecimalsEnd(s: string, e: nat): (r: nat)
    requires e <= |s|
    ensures e <= r <= |s|
    decreases |s| - e
  {
    if e + 1 < |s| && s[e] == '.' && IsDigit(s[e + 1]) then DecimalsEnd(s, DigitRunEnd(s, e + 1)) else e
  }

  /** `-\d{4}` at `f`. */
  predicate YearAt(s: string, f: nat) {
    f + 5 <= |s| && s[f] == '-' && AllDigits(s[f + 1..f + 5])
  }

  /**
   * `(?:GB|NY|SN|GH)(?:/T)?\s*\d+(?:\.\d+)*(?:-\d{4})?` tried at `i`. Every
   * optional part is taken when it can be, and giving one back never lets a
   * later part match, so the greedy scan is the match the engine returns.
   */
  function MethodCodeAt(s: string, i: nat): (r: Option<nat>)
    ensures r.Some? ==> i + 3 <= r.value <= |s| && MethodPrefixAt(s, i)
  {
    if !MethodPrefixAt(s, i) then None
    else
      var k := if OccursAt(s, "/T", i + 2) then i + 4 else i + 2;
      var d := SpaceRunEnd(s, k);
      var e := DigitRunEnd(s, d);
      if e == d then None
      else
        var f := DecimalsEnd(s, e);
        Some(if YearAt(s, f) then f + 5 else f)
  }

  /** `re.findall(gb_pattern, test_method)`: the method's standard codes, in order. */
  function MethodCodes(testMethod: string): (r: seq<string>) {
    SpanTexts(testMethod, FindAll(MethodCodeAt, testMethod, 0))
  }

  /** Where the `i`-th block of `q` codes starts, counted up block by block. */
  function Start(q: nat, i: nat): nat {
    if i == 0 then 0 else Start(q, i - 1) + q
  }

  /** The start of the `i`-th block is `i * q`, the index the splitting computes. */
  lemma {:induction false} StartIsProduct(q: nat, i: nat)
    ensures Start(q, i) == i * q
  {
    if i > 0 {
      StartIsProduct(q, i - 1);
      Distrib(i - 1, q);
    }
  }

  /** Every block ends within the codes, and the last one ends exactly at their end. */
  lemma StartFits(m: nat, n: nat, i: nat)
    requires 0 < n <= m && i < n
    ensures Start(m / n, i) + m / n <= m
    ensures Start(m / n, n - 1) + m / n + m % n == m
  {
    StartIsProduct(m / n, i);
    StartIsProduct(m / n, n - 1);
    BlockBounds(m, n, i);
  }

  /** The codes the `i`-th of `n` parts receives: a contiguous block of `|codes| / n` codes, the last part taking all the rest. */
  function Block<T>(codes: seq<T>, n: nat, i: nat): (r: seq<T>)
    requires 0 < n <= |codes| && i < n
    ensures i < n - 1 ==> |r| == |codes| / n
    ensures i == n - 1 ==> |r| == |codes| / n + |codes| % n
  {
    var q := |codes| / n;
    var start := Start(q, i);
    StartFits(|codes|, n, i);
    if i == n - 1 then codes[start..] else codes[start..start + q]
  }

  /** `(i + 1) * (m / n) <= m` for `i < n`, and the last block starts at `m - m / n - m % n`. */
  lemma BlockBounds(m: nat, n: nat, i: nat)
    requires 0 < n <= m && i < n
    ensures i * (m / n) + m / n <= m
    ensures (n - 1) * (m / n) + m / n + m % n == m
  {
    var q := m / n;
    assert m == n * q + m % n;
    MulLe(i + 1, n, q);
    assert (i + 1) * q == i * q + q;
    assert n * q == (n - 1) * q + q;
  }

  lemma Distrib(i: nat, q: nat)
    ensures (i + 1) * q == i * q + q
  {
  }

  lemma MulLe(a: nat, b: nat, q: nat)
    requires a <= b
    ensures a * q <= b * q
  {
    assert b * q == a * q + (b - a) * q;
  }

  /** The blocks of parts `i` to `n - 1`, concatenated. */
  function BlocksFrom<T>(codes: seq<T>, n: nat, i: nat): seq<T>
    requires 0 < n <= |codes| && i <= n
    decreases n - i
  {
    if i == n then [] else Block(codes, n, i) + BlocksFrom(codes, n, i + 1)
  }

  /** The blocks of the parts from `i` on cover the codes from the start of block `i` on, in order. */
  lemma {:induction false} BlocksCover<T>(codes: seq<T>, n: nat, i: nat)
    requires 0 < n <= |codes| && i < n
    ensures Start(|codes| / n, i) <= |codes| && BlocksFrom(codes, n, i) == codes[Start(|codes| / n, i)..]
    decreases n - i
  {
    var q := |codes| / n;
    var a := Start(q, i);
    StartFits(|codes|, n, i);
    if i < n - 1 {
      BlocksCover(codes, n, i + 1);
      assert Start(q, i + 1) == a + q;
      SliceSplit(codes, a, a + q);
    }
  }

  lemma SliceSplit<T>(s: seq<T>, a: nat, b: nat)
    requires a <= b <= |s|
    ensures s[a..] == s[a..b] + s[b..]
  {
  }

  /** The parts' blocks partition the method codes: concatenated they give every code once, in order. */
  lemma BlocksPartition<T>(codes: seq<T>, n: nat)
    requires 0 < n <= |codes|
    ensures BlocksFrom(codes, n, 0) == codes
  {
    BlocksCover(codes, n, 0);
    assert codes[0..] == codes;
  }

  /** The basis tokens an expanded item draws on: none for an empty basis. */
  function BasisParts(item: Item): seq<string> {
    if item.basis == [] then [] else SplitSpaces(item.basis, 0)
  }

  /** The method codes an expanded item draws on: none for an empty method. */
  function MethodParts(item: Item): seq<string> {
    if item.testMethod == [] then [] else MethodCodes(item.testMethod)
  }

  /** The `i`-th of the `n` items a split produces. */
  function Part(item: Item, valid: seq<string>, i: nat): Item
    requires 2 <= |valid| && i < |valid|
  {
    var basisParts := BasisParts(item);
    var codes := MethodParts(item);
    var basis := if |basisParts| == |valid| then basisParts[i] else item.basis;
    var testMethod := if |codes| >= |valid| then Join(Block(codes, |valid|, i), " ") else item.testMethod;
    Item(valid[i], basis, testMethod)
  }

  /** The post-pass for one item: a name with at least two valid whitespace-separated parts becomes one item per part. */
  function Expand(item: Item): (r: seq<Item>)
    ensures r != []
  {
    var parts := SplitSpaces(item.name, 0);
    if |parts| <= 1 then [item]
    else
      var valid := ValidParts(parts);
      if |valid| <= 1 then [item]
      else seq(|valid|, i requires 0 <= i < |valid| => Part(item, valid, i))
  }

  /**
   * An item stays whole unless its name has at least two valid parts; then it
   * becomes one item per valid part, in order. The basis is split one token
   * per part exactly when the token count equals the part count, and is
   * shared otherwise; when there are at least as many method codes as parts,
   * each part takes its block of codes, and otherwise the whole method is
   * shared.
   */
  lemma ExpandParts(item: Item)
    ensures var valid := ValidParts(SplitSpaces(item.name, 0));
      && (|valid| <= 1 ==> Expand(item) == [item])
      && (|valid| >= 2 ==> |Expand(item)| == |valid|)
      && (|valid| >= 2 ==> forall i :: 0 <= i < |valid| ==> (
            && Expand(item)[i].name == valid[i]
            && Expand(item)[i].basis == (if |BasisParts(item)| == |valid| then BasisParts(item)[i] else item.basis)
            && Expand(item)[i].testMethod
               == (if |MethodParts(item)| >= |valid| then Join(Block(MethodParts(item), |valid|, i), " ") else item.testMethod)))
  {
  }

  /** An expanded item is the item itself, or carries a valid whitespace-free piece of the item's name. */
  lemma ExpandMember(item: Item, x: Item)
    requires x in Expand(item)
    ensures x == item || (x.name in SplitSpaces(item.name, 0) && ValidPart(x.name) && NoSpace(x.name))
  {
    var parts := SplitSpaces(item.name, 0);
    if x != item {
      var valid := ValidParts(parts);
      var i :| 0 <= i < |valid| && Expand(item)[i] == x;
      assert valid[i] in valid;
    }
  }

  /** The items of the rows, before splitting. */
  function Items(table: seq<Row>): seq<Item> {
    Collect(ItemSeq, table)
  }

  /** `find_inspection_items`: the item of every row, in row order, each then expanded in place. */
  method FindInspectionItems(table: seq<Row>) returns (expanded: seq<Item>)
    ensures expanded == Collect(Expand, Items(table))
  {
    var items: seq<Item> := [];
    var r := 0;
    while r < |table|
      invariant r <= |table|
      invariant items == Collect(ItemSeq, table[..r])
    {
      CollectStep(ItemSeq, table, r);
      var found := ItemOf(table[r]);
      if found.Some? {
        items := items + [found.value];
      }
      r := r + 1;
    }
    assert table[..|table|] == table;
    expanded := [];
    var k := 0;
    while k < |items|
      invariant k <= |items|
      invariant expanded == Collect(Expand, items[..k])
    {
      CollectStep(Expand, items, k);
      expanded := expanded + Expand(items[k]);
      k := k + 1;
    }
    assert items[..|items|] == items;
  }

  /**
   * Every item found comes from a row with a name column whose name passes
   * the filters: it is that row's item, or a valid piece of its name.
   */
  lemma FoundItemOrigin(table: seq<Row>, x: Item)
    requires x in Collect(Expand, Items(table))
    ensures exists row :: row in table && ItemFromRow(row, x)
  {
    var r, item := FoundItemRow(table, x);
    ExpandMember(item, x);
    assert table[r] in table && ItemFromRow(table[r], x);
  }

  /** Every item found is an expansion of the item of some row. */
  lemma FoundItemRow(table: seq<Row>, x: Item) returns (r: nat, item: Item)
    requires x in Collect(Expand, Items(table))
    ensures r < |table| && ItemOf(table[r]) == Some(item) && x in Expand(item)
  {
    var items := Items(table);
    CollectIn(Expand, items, x);
    var i :| 0 <= i < |items| && x in Expand(items[i]);
    item := items[i];
    CollectIn(ItemSeq, table, item);
    r :| 0 <= r < |table| && item in ItemSeq(table[r]);
  }

  /** `x` is the item of `row`, whose name passed the filters, or a valid piece of that name. */
  predicate ItemFromRow(row: Row, x: Item) {
    && ItemOf(row).Some?
    && NameAccepted(ItemOf(row).value.name)
    && (x == ItemOf(row).value || (x.name in SplitSpaces(ItemOf(row).value.name, 0) && ValidPart(x.name)))
  }
}
