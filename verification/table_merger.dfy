/**
 * Merging a table that a PDF page break split in two: which table pairs on
 * consecutive pages belong together, how their rows and HTML are joined, and
 * the summary checked afterwards. The ratio of two header cells
 * (`difflib.SequenceMatcher`) is a parameter.
 */
module TableMerger {
  import opened Wrappers
  import opened Text
  import opened Scan

  type Row = seq<string>

  /** A table as the extractor hands it over: each key of the dict may be missing. */
  datatype Table = Table(
    rows: Option<seq<Row>>,
    html: Option<string>,
    page: Option<int>,
    sourcePages: Option<seq<int>>,
    isCrossPage: Option<bool>)

  /** `{}`. */
  const Empty := Table(None, None, None, None, None)

  /** `table.get('rows', [])`. */
  function RowsOf(t: Table): seq<Row> {
    t.rows.GetOr([])
  }

  /** The similarity of two header cells, a number in [0, 1]. */
  type Ratio = (string, string) -> real

  // ---------------------------------------------------------------- HTML patterns

  /** `<t[dh]`: the start of a cell tag. */
  function CellOpenAt(s: string, i: nat): (r: Option<nat>)
    ensures r.Some? ==> r.value == i + 3 <= |s| && s[i] == '<' && s[i + 1] == 't'
  {
    if i + 3 <= |s| && s[i] == '<' && s[i + 1] == 't' && (s[i + 2] == 'd' || s[i + 2] == 'h') then Some(i + 3) else None
  }

  /** The text of the first row of the HTML: everything before the first `</tr>`, or all of it. */
  function FirstRowText(html: string): (r: string)
    ensures !Contains(html, "</tr>") ==> r == html
    ensures Contains(html, "</tr>") ==> |r| <= |html| && r == html[..|r|] && OccursAt(html, "</tr>", |r|) && !Contains(r, "</tr>")
  {
    var k := Find(html, "</tr>");
    if k == -1 then html
    else
      PrefixAvoids(html, "</tr>", k);
      html[..k]
  }

  /** A prefix of `s` that ends before the first occurrence of `pat` does not contain it. */
  lemma PrefixAvoids(s: string, pat: string, k: int)
    requires pat != [] && 0 <= k <= |s| && forall i :: 0 <= i < k ==> !OccursAt(s, pat, i)
    ensures !Contains(s[..k], pat)
  {
    forall i | 0 <= i <= k - |pat| ensures !OccursAt(s[..k], pat, i) {
      assert s[..k][i..i + |pat|] == s[i..i + |pat|];
      assert !OccursAt(s, pat, i);
    }
  }

  /** `_get_column_count`: the cell tags of the first HTML row, else the length of the first row, else 0. */
  function ColumnCount(t: Table): (n: nat)
    ensures t.html.None? && RowsOf(t) == [] ==> n == 0
    ensures t.html.None? && RowsOf(t) != [] ==> n == |RowsOf(t)[0]|
  {
    match t.html
    case Some(html) => |FindAll(CellOpenAt, FirstRowText(html), 0)|
    case None => if RowsOf(t) != [] then |RowsOf(t)[0]| else 0
  }

  /** `<tr[^>]*>(.*?)</tr>` with DOTALL at `i`: the index just past the tag's `>`, and the match end. */
  function RowTagAt(s: string, i: nat): (r: Option<(nat, nat)>)
    ensures r.Some? ==> i + 3 < r.value.0 && r.value.0 + 5 <= r.value.1 <= |s|
    ensures r.Some? ==> OccursAt(s, "<tr", i) && s[r.value.0 - 1] == '>' && OccursAt(s, "</tr>", r.value.1 - 5)
  {
    if i + 3 > |s| || !MatchesFrom(s, "<tr", i, 0) then None
    else
      MatchesOccurs(s, "<tr", i);
      var g := FindFrom(s, ">", i + 3);
      if g == -1 then None
      else
        FindFromFound(s, ">", i + 3);
        var c := FindFrom(s, "</tr>", g + 1);
        if c == -1 then None
        else
          FindFromFound(s, "</tr>", g + 1);
          Some((g + 1, c + 5))
  }

  /** The row pattern as a matcher. */
  function RowAt(s: string, i: nat): Option<nat> {
    match RowTagAt(s, i)
    case Some((_, e)) => Some(e)
    case None => None
  }

  /** `re.findall(r'<tr[^>]*>.*?</tr>', html, re.DOTALL)`: the rows from `from` on, each search resuming after the previous row. */
  function HtmlRowsFrom(html: string, from: nat): seq<string>
    decreases |html| - from
  {
    if from >= |html| then []
    else match RowTagAt(html, from)
      case Some((_, e)) => [html[from..e]] + HtmlRowsFrom(html, e)
      case None => HtmlRowsFrom(html, from + 1)
  }

  function HtmlRows(html: string): seq<string> {
    HtmlRowsFrom(html, 0)
  }

  /** Every row found is a whole `<tr ...>...</tr>` element of the HTML. */
  lemma {:induction false} HtmlRowsAreRows(html: string, from: nat)
    ensures forall k :: 0 <= k < |HtmlRowsFrom(html, from)| ==>
      var row := HtmlRowsFrom(html, from)[k];
      |row| >= 9 && row[..3] == "<tr" && row[|row| - 5..] == "</tr>"
    decreases |html| - from
  {
    if from < |html| {
      match RowTagAt(html, from)
      case Some((g, e)) =>
        HtmlRowsAreRows(html, e);
        var row := html[from..e];
        assert row[..3] == html[from..from + 3];
        assert row[|row| - 5..] == html[e - 5..e];
      case None =>
        HtmlRowsAreRows(html, from + 1);
    }
  }

  /** The lazy `(.*?)` then `</t[dh]>` without DOTALL: the first closing cell tag from `k` on, unless a newline comes first. */
  function CellCloseFrom(s: string, k: nat): (r: Option<nat>)
    ensures r.Some? ==> k <= r.value && r.value + 5 <= |s|
    ensures r.Some? ==> forall j :: k <= j < r.value ==> s[j] != '\n'
    decreases |s| - k
  {
    if k + 5 > |s| then None
    else if s[k] == '<' && s[k + 1] == '/' && s[k + 2] == 't' && (s[k + 3] == 'd' || s[k + 3] == 'h') && s[k + 4] == '>' then Some(k)
    else if s[k] == '\n' then None
    else CellCloseFrom(s, k + 1)
  }

  /** `<t[dh][^>]*>(.*?)</t[dh]>` at `i`: the captured content's bounds. */
  function CellAt(s: string, i: nat): (r: Option<(nat, nat)>)
    ensures r.Some? ==> i + 3 < r.value.0 <= r.value.1 && r.value.1 + 5 <= |s|
  {
    if CellOpenAt(s, i).None? then None
    else
      var g := FindFrom(s, ">", i + 3);
      if g == -1 then None
      else match CellCloseFrom(s, g + 1)
        case Some(c) => Some((g + 1, c))
        case None => None
  }

  function CellMatch(s: string, i: nat): Option<nat> {
    match CellAt(s, i)
    case Some((_, c)) => Some(c + 5)
    case None => None
  }

  /** The captured contents of successive matches. */
  function CellContents(s: string, sps: seq<Span>): (r: seq<string>)
    ensures |r| == |sps|
  {
    if sps == [] then []
    else
      var c := match CellAt(s, sps[0].start)
        case Some((a, b)) => s[a..b]
        case None => [];
      [c] + CellContents(s, sps[1..])
  }

  /** `_clean_html`: the tags removed, then stripped. */
  function CleanHtml(s: string): (r: string)
    ensures IsStripped(r) && NoTag(r)
    ensures (forall k :: 0 <= k < |s| ==> s[k] != '<') ==> r == Strip(s)
  {
    RemoveTagsLeavesNoTag(s, 0);
    StripKeepsNoTag(RemoveTags(s));
    assert (forall k :: 0 <= k < |s| ==> s[k] != '<') ==> RemoveTags(s) == s by {
      if forall k :: 0 <= k < |s| ==> s[k] != '<' {
        RemoveTagsPlain(s, 0);
      }
    }
    Strip(RemoveTags(s))
  }

  /** `_get_table_header`: the first row, else the cleaned cells of the first HTML row, else none. */
  function Header(t: Table): (h: Option<seq<string>>)
    ensures RowsOf(t) != [] ==> h == Some(RowsOf(t)[0])
    ensures RowsOf(t) == [] && t.html.None? ==> h.None?
  {
    if RowsOf(t) != [] then Some(RowsOf(t)[0])
    else match t.html
      case None => None
      case Some(html) =>
        match Search(RowAt, html, 0)
        case None => None
        case Some(sp) =>
          var (a, b) := RowTagAt(html, sp.start).value;
          var inner := html[a..b - 5];
          var cells := CellContents(inner, FindAll(CellMatch, inner, 0));
          Some(seq(|cells|, k requires 0 <= k < |cells| => CleanHtml(cells[k])))
  }

  // ---------------------------------------------------------------- which tables to merge

  function SumFrom(xs: seq<real>): real {
    if xs == [] then 0.0 else xs[0] + SumFrom(xs[1..])
  }

  /** `_calculate_similarity`: the mean ratio of corresponding cells, 0 when the lengths differ. */
  function Similarity(h1: seq<string>, h2: seq<string>, ratio: Ratio): (r: real)
    ensures |h1| != |h2| ==> r == 0.0
    ensures h1 == [] ==> r == 0.0
  {
    if |h1| != |h2| || h1 == [] then 0.0
    else SumFrom(seq(|h1|, k requires 0 <= k < |h1| => ratio(h1[k], h2[k]))) / (|h1| as real)
  }

  /** `_should_merge`. */
  predicate ShouldMerge(t1: Table, t2: Table, ratio: Ratio, threshold: real) {
    && ColumnCount(t1) == ColumnCount(t2)
    && ColumnCount(t1) != 0
    && Header(t1).Some? && Header(t1).value != []
    && Header(t2).Some? && Header(t2).value != []
    && Similarity(Header(t1).value, Header(t2).value, ratio) >= threshold
  }

  /** Tables are merged only with equal, non-zero column counts and two headers. */
  lemma ShouldMergeNeeds(t1: Table, t2: Table, ratio: Ratio, threshold: real)
    requires ShouldMerge(t1, t2, ratio, threshold)
    ensures ColumnCount(t1) == ColumnCount(t2) > 0
    ensures Header(t1).Some? && Header(t2).Some?
  {
  }

  /** With a positive threshold, headers of different lengths never merge. */
  lemma HeaderLengthsMustAgree(t1: Table, t2: Table, ratio: Ratio, threshold: real)
    requires threshold > 0.0
    requires Header(t1).Some? && Header(t2).Some? && |Header(t1).value| != |Header(t2).value|
    ensures !ShouldMerge(t1, t2, ratio, threshold)
  {
  }

  /** `sorted(tables_by_page.keys())`: the pages in increasing order, each once. */
  predicate SortedPages(pages: seq<int>, byPage: map<int, seq<Table>>) {
    && (forall i, j :: 0 <= i < j < |pages| ==> pages[i] < pages[j])
    && (forall i :: 0 <= i < |pages| ==> pages[i] in byPage)
    && (forall p :: p in byPage ==> p in pages)
  }

  /** A test of whether two tables are one table split by a page break. */
  type Fits = (Table, Table) -> bool

  /** `_should_merge` with the merger's ratio and threshold. */
  function Merger(ratio: Ratio, threshold: real): (f: Fits)
    ensures forall t1, t2 :: f(t1, t2) == ShouldMerge(t1, t2, ratio, threshold)
  {
    (t1, t2) => ShouldMerge(t1, t2, ratio, threshold)
  }

  /** The pairs from one table of the first page with each table of the next, in order. */
  function PairsWith(c: Table, nexts: seq<Table>, fits: Fits): (r: seq<(Table, Table)>)
    ensures forall k :: 0 <= k < |r| ==> r[k].0 == c && r[k].1 in nexts && fits(c, r[k].1)
  {
    if nexts == [] then []
    else
      var init := PairsWith(c, nexts[..|nexts| - 1], fits);
      var n := nexts[|nexts| - 1];
      init + (if fits(c, n) then [(c, n)] else [])
  }

  /** All mergeable pairs of two pages' tables, the first page's tables in the outer loop. */
  function PagePairs(currents: seq<Table>, nexts: seq<Table>, fits: Fits): (r: seq<(Table, Table)>)
    ensures forall k :: 0 <= k < |r| ==> r[k].0 in currents && r[k].1 in nexts && fits(r[k].0, r[k].1)
  {
    if currents == [] then []
    else
      PagePairs(currents[..|currents| - 1], nexts, fits)
      + PairsWith(currents[|currents| - 1], nexts, fits)
  }

  /** Two pages whose numbers follow each other. */
  predicate Consecutive(pages: seq<int>, i: int) {
    0 <= i < |pages| - 1 && pages[i + 1] == pages[i] + 1
  }

  /** The pair is a table of page position `i` and a table of the page right after it that `fits` accepts. */
  predicate PairOfPages(pages: seq<int>, byPage: map<int, seq<Table>>, i: int, pair: (Table, Table), fits: Fits)
    requires forall i :: 0 <= i < |pages| ==> pages[i] in byPage
  {
    && Consecutive(pages, i)
    && pair.0 in byPage[pages[i]] && pair.1 in byPage[pages[i + 1]]
    && fits(pair.0, pair.1)
  }

  /** `detect_cross_page_tables` over the first `n` page positions. */
  function Groups(pages: seq<int>, byPage: map<int, seq<Table>>, n: nat, fits: Fits): (r: seq<(Table, Table)>)
    requires n <= |pages| && forall i :: 0 <= i < |pages| ==> pages[i] in byPage
  {
    if n == 0 then []
    else
      var init := Groups(pages, byPage, n - 1, fits);
      var i := n - 1;
      if i + 1 < |pages| && pages[i + 1] == pages[i] + 1 then
        init + PagePairs(byPage[pages[i]], byPage[pages[i + 1]], fits)
      else init
  }

  /** The pair joins tables of two consecutive page positions among the first `n`. */
  predicate FromPages(pages: seq<int>, byPage: map<int, seq<Table>>, n: nat, pair: (Table, Table), fits: Fits)
    requires forall i :: 0 <= i < |pages| ==> pages[i] in byPage
  {
    exists i :: 0 <= i < n && PairOfPages(pages, byPage, i, pair, fits)
  }

  /** Every group joins a table of some page with a table of the page numbered one higher, and the pair passes the test. */
  lemma {:induction false} GroupsArePairs(pages: seq<int>, byPage: map<int, seq<Table>>, n: nat, fits: Fits)
    requires n <= |pages| && forall i :: 0 <= i < |pages| ==> pages[i] in byPage
    ensures forall k :: 0 <= k < |Groups(pages, byPage, n, fits)| ==> FromPages(pages, byPage, n, Groups(pages, byPage, n, fits)[k], fits)
  {
    if n > 0 {
      GroupsArePairs(pages, byPage, n - 1, fits);
      var init := Groups(pages, byPage, n - 1, fits);
      var r := Groups(pages, byPage, n, fits);
      var i := n - 1;
      forall k | 0 <= k < |r| ensures FromPages(pages, byPage, n, r[k], fits) {
        if k < |init| {
          assert r[k] == init[k];
          assert FromPages(pages, byPage, n - 1, init[k], fits);
          var j :| 0 <= j < n - 1 && PairOfPages(pages, byPage, j, init[k], fits);
          assert PairOfPages(pages, byPage, j, r[k], fits);
        } else {
          var more := PagePairs(byPage[pages[i]], byPage[pages[i + 1]], fits);
          assert r == init + more;
          assert r[k] == more[k - |init|];
          assert PairOfPages(pages, byPage, i, r[k], fits);
        }
      }
    } else {
      assert Groups(pages, byPage, n, fits) == [];
    }
  }

  /** `detect_cross_page_tables`. */
  method DetectCrossPageTables(byPage: map<int, seq<Table>>, pages: seq<int>, ratio: Ratio, threshold: real)
    returns (groups: seq<(Table, Table)>)
    requires SortedPages(pages, byPage)
    ensures groups == Groups(pages, byPage, |pages|, Merger(ratio, threshold))
  {
    var fits := Merger(ratio, threshold);
    groups := [];
    if |pages| == 0 {
      return;
    }
    var i := 0;
    while i < |pages| - 1
      invariant 0 <= i <= |pages| - 1
      invariant groups == Groups(pages, byPage, i, fits)
    {
      if pages[i + 1] == pages[i] + 1 {
        var pairs := PairsOfPages(byPage[pages[i]], byPage[pages[i + 1]], fits);
        groups := groups + pairs;
      }
      i := i + 1;
    }
    assert Groups(pages, byPage, |pages|, fits) == Groups(pages, byPage, |pages| - 1, fits);
  }

  /** The outer loop over the first page's tables. */
  method PairsOfPages(currents: seq<Table>, nexts: seq<Table>, fits: Fits)
    returns (pairs: seq<(Table, Table)>)
    ensures pairs == PagePairs(currents, nexts, fits)
  {
    pairs := [];
    var a := 0;
    while a < |currents|
      invariant 0 <= a <= |currents|
      invariant pairs == PagePairs(currents[..a], nexts, fits)
    {
      assert currents[..a + 1][..a] == currents[..a];
      var more := PairsOfTable(currents[a], nexts, fits);
      pairs := pairs + more;
      a := a + 1;
    }
    assert currents[..a] == currents;
  }

  /** The inner loop over the next page's tables. */
  method PairsOfTable(current: Table, nexts: seq<Table>, fits: Fits)
    returns (pairs: seq<(Table, Table)>)
    ensures pairs == PairsWith(current, nexts, fits)
  {
    pairs := [];
    var b := 0;
    while b < |nexts|
      invariant 0 <= b <= |nexts|
      invariant pairs == PairsWith(current, nexts[..b], fits)
    {
      assert nexts[..b + 1][..b] == nexts[..b];
      if fits(current, nexts[b]) {
        pairs := pairs + [(current, nexts[b])];
      }
      b := b + 1;
    }
    assert nexts[..b] == nexts;
  }

  // ---------------------------------------------------------------- merging

  /** The rows table `idx` contributes: all of the first table's, the others' without their header when asked. */
  function KeptRows(t: Table, idx: nat, removeHeader: bool): (r: seq<Row>)
    ensures idx == 0 || !removeHeader || RowsOf(t) == [] ==> r == RowsOf(t)
    ensures idx > 0 && removeHeader && RowsOf(t) != [] ==> r == RowsOf(t)[1..]
  {
    if idx > 0 && removeHeader && RowsOf(t) != [] then RowsOf(t)[1..] else RowsOf(t)
  }

  /** The merged rows of the first `n` tables. */
  function MergedRows(tables: seq<Table>, n: nat, removeHeader: bool): seq<Row>
    requires n <= |tables|
  {
    if n == 0 then [] else MergedRows(tables, n - 1, removeHeader) + KeptRows(tables[n - 1], n - 1, removeHeader)
  }

  /** The pages of the first `n` tables that have one, in order. */
  function SourcePages(tables: seq<Table>, n: nat): (r: seq<int>)
    requires n <= |tables|
    ensures |r| <= n
  {
    if n == 0 then []
    else SourcePages(tables, n - 1) + (if tables[n - 1].page.Some? then [tables[n - 1].page.value] else [])
  }

  /** The rows of the first `n` tables, counted. */
  function TotalRows(tables: seq<Table>, n: nat): nat
    requires n <= |tables|
  {
    if n == 0 then 0 else TotalRows(tables, n - 1) + |RowsOf(tables[n - 1])|
  }

  /** The tables after the first, among the first `n`, that have rows. */
  function LaterWithRows(tables: seq<Table>, n: nat): nat
    requires n <= |tables|
  {
    if n <= 1 then 0 else LaterWithRows(tables, n - 1) + (if RowsOf(tables[n - 1]) != [] then 1 else 0)
  }

  /** Every row is kept, except one header row of each later table that has rows when headers are removed. */
  lemma {:induction false} MergedRowsCount(tables: seq<Table>, n: nat, removeHeader: bool)
    requires n <= |tables|
    ensures |MergedRows(tables, n, removeHeader)| ==
      TotalRows(tables, n) - (if removeHeader then LaterWithRows(tables, n) else 0)
    ensures removeHeader ==> LaterWithRows(tables, n) <= TotalRows(tables, n)
  {
    if n > 0 {
      MergedRowsCount(tables, n - 1, removeHeader);
      assert LaterWithRows(tables, n - 1) <= TotalRows(tables, n - 1) by {
        MergedRowsCount(tables, n - 1, true);
      }
    }
  }

  /** The first table's rows come first, unchanged. */
  lemma {:induction false} MergedRowsStartWithFirst(tables: seq<Table>, n: nat, removeHeader: bool)
    requires 1 <= n <= |tables|
    ensures |MergedRows(tables, n, removeHeader)| >= |RowsOf(tables[0])|
    ensures MergedRows(tables, n, removeHeader)[..|RowsOf(tables[0])|] == RowsOf(tables[0])
  {
    if n > 1 {
      MergedRowsStartWithFirst(tables, n - 1, removeHeader);
      var m := MergedRows(tables, n - 1, removeHeader);
      assert (m + KeptRows(tables[n - 1], n - 1, removeHeader))[..|RowsOf(tables[0])|] == m[..|RowsOf(tables[0])|];
    } else {
      assert MergedRows(tables, 1, removeHeader) == RowsOf(tables[0]);
    }
  }

  /** The merged HTML of the first `n` tables, without the enclosing table tags. */
  function HtmlBody(tables: seq<Table>, n: nat): string
    requires n <= |tables|
  {
    if n == 0 then [] else HtmlBody(tables, n - 1) + HtmlPart(tables[n - 1].html.GetOr(""), n == 1)
  }

  /** What one table adds: all its rows for the first table, the rows after the first for the others. */
  function HtmlPart(html: string, first: bool): string {
    var rows := HtmlRows(html);
    if first then Concat(rows) else if |rows| > 1 then Concat(rows[1..]) else ""
  }

  /** `_merge_html_tables`. */
  function MergedHtml(tables: seq<Table>): string {
    "<table>" + HtmlBody(tables, |tables|) + "</table>"
  }

  /** The merged HTML is one table element around the rows of all tables, the first table's rows first. */
  lemma MergedHtmlFramed(tables: seq<Table>)
    requires tables != []
    ensures var r := MergedHtml(tables);
      && StartsWith(r, "<table>") && EndsWith(r, "</table>")
      && StartsWith(r[7..], Concat(HtmlRows(tables[0].html.GetOr(""))))
  {
    var r := MergedHtml(tables);
    var b := HtmlBody(tables, |tables|);
    assert r == "<table>" + b + "</table>";
    assert r[..7] == "<table>";
    assert r[|r| - 8..] == "</table>";
    HtmlBodyStartsWithFirst(tables, |tables|);
    assert r[7..] == b + "</table>";
  }

  /** The body begins with all the rows of the first table. */
  lemma {:induction false} HtmlBodyStartsWithFirst(tables: seq<Table>, n: nat)
    requires 1 <= n <= |tables|
    ensures StartsWith(HtmlBody(tables, n), Concat(HtmlRows(tables[0].html.GetOr(""))))
  {
    var first := Concat(HtmlRows(tables[0].html.GetOr("")));
    if n == 1 {
      assert HtmlBody(tables, 1) == first;
    } else {
      HtmlBodyStartsWithFirst(tables, n - 1);
      var b := HtmlBody(tables, n - 1);
      assert (b + HtmlPart(tables[n - 1].html.GetOr(""), false))[..|first|] == b[..|first|];
    }
  }

  /** A later table with at most one row adds nothing to the HTML. */
  lemma HeaderOnlyAddsNothing(tables: seq<Table>, n: nat)
    requires 2 <= n <= |tables| && |HtmlRows(tables[n - 1].html.GetOr(""))| <= 1
    ensures HtmlBody(tables, n) == HtmlBody(tables, n - 1)
  {
  }

  /** `merge_tables` as a value. */
  function Merge(tables: seq<Table>, removeHeader: bool): (r: Table)
    ensures tables == [] ==> r == Empty
    ensures |tables| == 1 ==> r == tables[0]
    ensures |tables| >= 2 ==> r.isCrossPage == Some(true) && r.page.None?
    ensures |tables| >= 2 ==> r.rows == Some(MergedRows(tables, |tables|, removeHeader))
    ensures |tables| >= 2 ==> r.sourcePages == Some(SourcePages(tables, |tables|))
    ensures |tables| >= 2 ==> (r.html.Some? <==> tables[0].html.Some?)
  {
    if tables == [] then Empty
    else if |tables| == 1 then tables[0]
    else Table(
      Some(MergedRows(tables, |tables|, removeHeader)),
      if tables[0].html.Some? then Some(MergedHtml(tables)) else None,
      None,
      Some(SourcePages(tables, |tables|)),
      Some(true))
  }

  /** `merge_tables`. */
  method MergeTables(tables: seq<Table>, removeHeader: bool) returns (merged: Table)
    ensures merged == Merge(tables, removeHeader)
  {
    if |tables| == 0 {
      return Empty;
    }
    if |tables| == 1 {
      return tables[0];
    }
    var rows, pages := MergeRows(tables, removeHeader);
    var html: Option<string> := None;
    if tables[0].html.Some? {
      var h := MergeHtmlTables(tables);
      html := Some(h);
    }
    merged := Table(Some(rows), html, None, Some(pages), Some(true));
  }

  /** The loop of `merge_tables` over the tables: their rows and their pages. */
  method MergeRows(tables: seq<Table>, removeHeader: bool) returns (rows: seq<Row>, pages: seq<int>)
    ensures rows == MergedRows(tables, |tables|, removeHeader)
    ensures pages == SourcePages(tables, |tables|)
  {
    rows := [];
    pages := [];
    var idx := 0;
    while idx < |tables|
      invariant 0 <= idx <= |tables|
      invariant rows == MergedRows(tables, idx, removeHeader)
      invariant pages == SourcePages(tables, idx)
    {
      var table := tables[idx];
      if table.page.Some? {
        pages := pages + [table.page.value];
      }
      var tableRows := RowsOf(table);
      if idx == 0 {
        rows := rows + tableRows;
      } else {
        var start := if removeHeader && tableRows != [] then 1 else 0;
        rows := rows + tableRows[start..];
      }
      idx := idx + 1;
    }
  }

  /** `_merge_html_tables`. */
  method MergeHtmlTables(tables: seq<Table>) returns (html: string)
    ensures html == MergedHtml(tables)
  {
    var body := "";
    var idx := 0;
    while idx < |tables|
      invariant 0 <= idx <= |tables|
      invariant body == HtmlBody(tables, idx)
    {
      var part := HtmlPart(tables[idx].html.GetOr(""), idx == 0);
      body := body + part;
      idx := idx + 1;
    }
    html := "<table>" + body + "</table>";
  }

  // ---------------------------------------------------------------- checking a merge

  datatype Warning = NoRows | UnevenColumns(counts: set<nat>)

  /** What `validate_merge` reports. */
  datatype Validation = Validation(
    isValid: bool,
    warnings: seq<Warning>,
    totalRows: nat,
    columnCount: Option<nat>,
    sourcePages: seq<int>,
    pageCount: nat)

  /** The column counts of the rows. */
  function ColumnCounts(rows: seq<Row>): (r: set<nat>)
    ensures forall k :: 0 <= k < |rows| ==> |rows[k]| in r
    ensures forall c :: c in r ==> exists k :: 0 <= k < |rows| && |rows[k]| == c
  {
    set k | 0 <= k < |rows| :: |rows[k]|
  }

  /** `validate_merge`. */
  function ValidateMerge(t: Table): (v: Validation)
    ensures v.isValid <==> RowsOf(t) != []
    ensures NoRows in v.warnings <==> RowsOf(t) == []
    ensures (exists c :: UnevenColumns(c) in v.warnings) <==> exists i, j :: 0 <= i < j < |RowsOf(t)| && |RowsOf(t)[i]| != |RowsOf(t)[j]|
    ensures v.totalRows == |RowsOf(t)| && v.pageCount == |v.sourcePages|
    ensures v.sourcePages == t.sourcePages.GetOr([])
    ensures RowsOf(t) != [] ==> v.columnCount == Some(|RowsOf(t)[0]|)
  {
    var rows := RowsOf(t);
    var counts := ColumnCounts(rows);
    var uneven := exists i, j :: 0 <= i < j < |rows| && |rows[i]| != |rows[j]|;
    assert uneven <==> |counts| > 1 by {
      if uneven {
        var i, j :| 0 <= i < j < |rows| && |rows[i]| != |rows[j]|;
        assert {|rows[i]|, |rows[j]|} <= counts;
        assert |{|rows[i]|, |rows[j]|}| == 2;
        SubsetSize({|rows[i]|, |rows[j]|}, counts);
      } else if rows != [] {
        assert counts == {|rows[0]|} by {
          forall c | c in counts ensures c == |rows[0]| {
            var k :| 0 <= k < |rows| && |rows[k]| == c;
            if k > 0 {
              assert !(|rows[0]| != |rows[k]|);
            }
          }
        }
      } else {
        assert counts == {};
      }
    }
    var warnings := (if rows == [] then [NoRows] else []) + (if |counts| > 1 then [UnevenColumns(counts)] else []);
    var pages := t.sourcePages.GetOr([]);
    Validation(rows != [], warnings, |rows|, if rows != [] then Some(|rows[0]|) else None, pages, |pages|)
  }

  lemma SubsetSize(a: set<nat>, b: set<nat>)
    requires a <= b
    ensures |a| <= |b|
  {
    assert b == a + (b - a);
  }

  /** Checking a merge of several tables: it is valid when some row survives, and counts the pages of the tables that had one. */
  lemma ValidateMerged(tables: seq<Table>, removeHeader: bool)
    requires |tables| >= 2
    ensures var v := ValidateMerge(Merge(tables, removeHeader));
      && (v.isValid <==> MergedRows(tables, |tables|, removeHeader) != [])
      && v.sourcePages == SourcePages(tables, |tables|)
      && v.pageCount <= |tables|
  {
  }
}
