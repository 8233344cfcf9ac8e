/**
 * The business-logic row filters (`DataFilter`): they pick `name -> value`
 * pairs out of the rows of OCR-extracted tables, either by keywords in a
 * chosen column or by the rows that follow a category header.
 *
 * A table is the list of its rows and a row the list of its cell texts; a
 * table without `rows` or a row without `cells` is the empty list.
 */
module BusinessLogicFilter {
  import opened Wrappers
  import opened Text
  import opened Assoc

  type Row = seq<string>
  type Table = seq<Row>

  /** All rows of all tables, in order. */
  function Flatten(tables: seq<Table>): seq<Row> {
    if tables == [] then [] else tables[0] + Flatten(tables[1..])
  }

  lemma {:induction false} FlattenSnoc(tables: seq<Table>, t: Table)
    ensures Flatten(tables + [t]) == Flatten(tables) + t
    decreases |tables|
  {
    if tables == [] {
      assert ([] + [t])[1..] == [];
    } else {
      assert (tables + [t])[0] == tables[0];
      assert (tables + [t])[1..] == tables[1..] + [t];
      FlattenSnoc(tables[1..], t);
    }
  }

  /** The stripped cell after column `column`, or "" when the row has no such cell. */
  function RowValue(row: Row, column: nat): string {
    if |row| > column + 1 then Strip(row[column + 1]) else ""
  }

  // ---------------------------------------------------------------- filter_by_keywords

  /** A row has a cell in column `column` and its stripped text holds a keyword. */
  predicate Hits(keywords: seq<string>, column: nat, row: Row) {
    |row| > column && AnyIn(keywords, Strip(row[column]))
  }

  /** The entry a row gives `filter_by_keywords`: its stripped name and value, when the name holds a keyword. */
  function KeywordEntry(keywords: seq<string>, column: nat): Row -> Option<(string, string)> {
    row => if Hits(keywords, column, row) then Some((Strip(row[column]), RowValue(row, column))) else None
  }

  /** What `filter_by_keywords` returns for the rows of all tables. */
  function KeywordFilter(rows: seq<Row>, keywords: seq<string>, column: nat): map<string, string> {
    Assigned(KeywordEntry(keywords, column), rows)
  }

  /** `DataFilter.filter_by_keywords`. */
  method FilterByKeywords(tables: seq<Table>, keywords: seq<string>, column: nat) returns (result: map<string, string>)
    ensures result == KeywordFilter(Flatten(tables), keywords, column)
  {
    var entry := KeywordEntry(keywords, column);
    result := map[];
    var t := 0;
    while t < |tables|
      invariant t <= |tables|
      invariant result == Assigned(entry, Flatten(tables[..t]))
    {
      var rows := tables[t];
      var r := 0;
      assert Flatten(tables[..t]) + rows[..r] == Flatten(tables[..t]);
      while r < |rows|
        invariant r <= |rows|
        invariant result == Assigned(entry, Flatten(tables[..t]) + rows[..r])
      {
        var cells := rows[r];
        ghost var before := Flatten(tables[..t]) + rows[..r];
        TakeOneMore(Flatten(tables[..t]), rows, r);
        AssignedSnoc(entry, before, cells);
        if |cells| > column {
          var name := Strip(cells[column]);
          var value := if |cells| > column + 1 then Strip(cells[column + 1]) else "";
          if AnyIn(keywords, name) {
            result := result[name := value];
          }
        }
        r := r + 1;
      }
      TakeAll(rows);
      TakeSnoc(tables, t);
      FlattenSnoc(tables[..t], rows);
      t := t + 1;
    }
    TakeAll(tables);
  }

  lemma TakeOneMore<T>(a: seq<T>, s: seq<T>, i: nat)
    requires i < |s|
    ensures a + s[..i + 1] == a + s[..i] + [s[i]]
  {
    assert s[..i + 1] == s[..i] + [s[i]];
  }

  lemma TakeSnoc<T>(s: seq<T>, i: nat)
    requires i < |s|
    ensures s[..i + 1] == s[..i] + [s[i]]
  {
  }

  lemma DropSplit<T>(s: seq<T>, i: nat)
    requires i < |s|
    ensures s[i..][0] == s[i] && s[i..][1..] == s[i + 1..]
  {
  }

  lemma TakeAll<T>(s: seq<T>)
    ensures s[..|s|] == s
  {
  }

  /** A name is in the result exactly when some row has more than `column` cells and its stripped name holds a keyword. */
  lemma KeywordFilterKeys(rows: seq<Row>, keywords: seq<string>, column: nat, name: string)
    ensures name in KeywordFilter(rows, keywords, column) <==>
      exists i :: 0 <= i < |rows| && Hits(keywords, column, rows[i]) && Strip(rows[i][column]) == name
  {
    AssignedKeys(KeywordEntry(keywords, column), rows, name);
  }

  /** A later row under the same name overwrites the value: a name's value comes from the last row that holds a keyword under it. */
  lemma KeywordFilterLastWins(rows: seq<Row>, keywords: seq<string>, column: nat, i: nat)
    requires i < |rows| && Hits(keywords, column, rows[i])
    requires forall j :: i < j < |rows| && Hits(keywords, column, rows[j]) ==> Strip(rows[j][column]) != Strip(rows[i][column])
    ensures Strip(rows[i][column]) in KeywordFilter(rows, keywords, column)
      && KeywordFilter(rows, keywords, column)[Strip(rows[i][column])] == RowValue(rows[i], column)
  {
    var f := KeywordEntry(keywords, column);
    forall j | i < j < |rows| && f(rows[j]).Some? ensures f(rows[j]).value.0 != f(rows[i]).value.0 {
    }
    AssignedLast(f, rows, i);
  }

  // ---------------------------------------------------------------- filter_by_category

  /** The category names that end a category's block of rows. */
  const KnownCategories: seq<string> :=
    ["谷物", "油料和油脂", "蔬菜", "水果", "坚果", "糖料", "饮料类", "食用菌", "调味料", "药用植物"]

  /** The scan's state: whether it is inside the category, and the entries kept so far. */
  datatype State = State(inCategory: bool, result: map<string, string>)

  /** The state after some rows, and whether the last of them ended the table's scan (`break`). */
  datatype Pass = Pass(state: State, stopped: bool)

  /** `item in name and len(name) <= 10`. */
  predicate ItemFits(name: string, item: string) {
    Contains(name, item) && |name| <= 10
  }

  /** An in-category row is kept when its value is non-empty, its name at most ten characters long and holds an item. */
  predicate Keeps(name: string, value: string, items: seq<string>) {
    value != "" && exists item :: item in items && ItemFits(name, item)
  }

  /** The row is another known category, met inside the category: the table's scan ends. */
  predicate Stops(st: State, row: Row, category: string) {
    row != [] && Strip(row[0]) != category && st.inCategory && Strip(row[0]) in KnownCategories
  }

  /** The row is stored: an ordinary row inside the category that `Keeps` accepts. */
  predicate Stores(st: State, row: Row, category: string, items: seq<string>) {
    row != [] && Strip(row[0]) != category && st.inCategory && Strip(row[0]) !in KnownCategories
    && Keeps(Strip(row[0]), RowValue(row, 0), items)
  }

  /** One row of the scan. */
  function Step(st: State, row: Row, category: string, items: seq<string>): Pass {
    if row == [] then Pass(st, false)
    else
      var name := Strip(row[0]);
      var value := RowValue(row, 0);
      if name == category then Pass(st.(inCategory := true), false)
      else if st.inCategory && name in KnownCategories && name != category then Pass(st.(inCategory := false), true)
      else if st.inCategory && Keeps(name, value, items) then Pass(st.(result := st.result[name := value]), false)
      else Pass(st, false)
  }

  /** The rows of one table, until the end or the first row that ends the category. */
  function ScanRows(st: State, rows: seq<Row>, category: string, items: seq<string>): Pass
    decreases |rows|
  {
    if rows == [] then Pass(st, false)
    else
      var p := Step(st, rows[0], category, items);
      if p.stopped then p else ScanRows(p.state, rows[1..], category, items)
  }

  /** The tables in order; the state, `in_category` included, passes from one table to the next. */
  function ScanTables(st: State, tables: seq<Table>, category: string, items: seq<string>): State
    decreases |tables|
  {
    if tables == [] then st
    else ScanTables(ScanRows(st, tables[0], category, items).state, tables[1..], category, items)
  }

  /** What `filter_by_category` returns. */
  function CategoryFilter(tables: seq<Table>, category: string, items: seq<string>): map<string, string> {
    ScanTables(State(false, map[]), tables, category, items).result
  }

  /** `DataFilter.filter_by_category`. */
  method FilterByCategory(tables: seq<Table>, category: string, items: seq<string>) returns (result: map<string, string>)
    ensures result == CategoryFilter(tables, category, items)
  {
    var st := State(false, map[]);
    var t := 0;
    while t < |tables|
      invariant t <= |tables|
      invariant ScanTables(st, tables[t..], category, items) == ScanTables(State(false, map[]), tables, category, items)
    {
      DropSplit(tables, t);
      st := FilterTable(st, tables[t], category, items);
      t := t + 1;
    }
    result := st.result;
  }

  /** The row loop of `filter_by_category` over one table, from the state the previous tables left. */
  method FilterTable(start: State, rows: seq<Row>, category: string, items: seq<string>) returns (st: State)
    ensures st == ScanRows(start, rows, category, items).state
  {
    var inCategory := start.inCategory;
    var result := start.result;
    var r := 0;
    while r < |rows|
      invariant r <= |rows|
      invariant ScanRows(State(inCategory, result), rows[r..], category, items) == ScanRows(start, rows, category, items)
    {
      var cells := rows[r];
      DropSplit(rows, r);
      ghost var before := State(inCategory, result);
      if cells == [] {
        r := r + 1;
        continue;
      }
      var name := Strip(cells[0]);
      var value := if |cells| > 1 then Strip(cells[1]) else "";
      if name == category {
        inCategory := true;
        r := r + 1;
        continue;
      }
      if inCategory && name in KnownCategories {
        if name != category {
          inCategory := false;
          break;
        }
      }
      if inCategory && value != "" {
        var fits := AnyItemFits(name, items);
        if fits {
          result := result[name := value];
        }
      }
      assert Step(before, cells, category, items).state == State(inCategory, result);
      r := r + 1;
    }
    st := State(inCategory, result);
  }

  /** The `for item in items` loop of `filter_by_category`: whether some item is in `name` while `name` is at most ten characters long. */
  method AnyItemFits(name: string, items: seq<string>) returns (fits: bool)
    ensures fits <==> exists item :: item in items && ItemFits(name, item)
  {
    var k := 0;
    while k < |items|
      invariant k <= |items|
      invariant forall j :: 0 <= j < k ==> !ItemFits(name, items[j])
    {
      if Contains(name, items[k]) && |name| <= 10 {
        assert items[k] in items && ItemFits(name, items[k]);
        return true;
      }
      k := k + 1;
    }
    return false;
  }

  /** The scan never stores an entry under the category's own name. */
  lemma StepSkipsHeader(st: State, row: Row, category: string, items: seq<string>)
    requires category !in st.result
    ensures category !in Step(st, row, category, items).state.result
  {
  }

  lemma {:induction false} RowsSkipHeader(st: State, rows: seq<Row>, category: string, items: seq<string>)
    requires category !in st.result
    ensures category !in ScanRows(st, rows, category, items).state.result
    decreases |rows|
  {
    if rows != [] {
      StepSkipsHeader(st, rows[0], category, items);
      RowsSkipHeader(Step(st, rows[0], category, items).state, rows[1..], category, items);
    }
  }

  lemma {:induction false} TablesSkipHeader(st: State, tables: seq<Table>, category: string, items: seq<string>)
    requires category !in st.result
    ensures category !in ScanTables(st, tables, category, items).result
    decreases |tables|
  {
    if tables != [] {
      RowsSkipHeader(st, tables[0], category, items);
      TablesSkipHeader(ScanRows(st, tables[0], category, items).state, tables[1..], category, items);
    }
  }

  /** The category's header row itself is never part of the result. */
  lemma CategoryHeaderExcluded(tables: seq<Table>, category: string, items: seq<string>)
    ensures category !in CategoryFilter(tables, category, items)
  {
    TablesSkipHeader(State(false, map[]), tables, category, items);
  }

  /**
   * Inside the category, a row named after another known category ends the
   * scan of its table: the rest of the table is skipped, nothing is stored and
   * the scan leaves the category.
   */
  lemma OtherCategoryStops(st: State, row: Row, rest: seq<Row>, category: string, items: seq<string>)
    requires st.inCategory && row != [] && Strip(row[0]) in KnownCategories && Strip(row[0]) != category
    ensures ScanRows(st, [row] + rest, category, items) == Pass(State(false, st.result), true)
  {
    assert ([row] + rest)[0] == row;
  }

  /** Rows after the one that ended a table's scan change nothing. */
  lemma {:induction false} StoppedIgnoresTail(st: State, rows: seq<Row>, tail: seq<Row>, category: string, items: seq<string>)
    requires ScanRows(st, rows, category, items).stopped
    ensures ScanRows(st, rows + tail, category, items) == ScanRows(st, rows, category, items)
    decreases |rows|
  {
    assert (rows + tail)[0] == rows[0];
    if !Step(st, rows[0], category, items).stopped {
      assert (rows + tail)[1..] == rows[1..] + tail;
      StoppedIgnoresTail(Step(st, rows[0], category, items).state, rows[1..], tail, category, items);
    }
  }

  /** No row is named after a known category other than `category`. */
  predicate NoOtherCategory(rows: seq<Row>, category: string) {
    forall j :: 0 <= j < |rows| && rows[j] != [] ==> (Strip(rows[j][0]) !in KnownCategories || Strip(rows[j][0]) == category)
  }

  lemma {:induction false} StaysInCategory(st: State, rows: seq<Row>, category: string, items: seq<string>)
    requires st.inCategory && NoOtherCategory(rows, category)
    ensures !ScanRows(st, rows, category, items).stopped && ScanRows(st, rows, category, items).state.inCategory
    decreases |rows|
  {
    if rows != [] {
      assert NoOtherCategory(rows[1..], category) by {
        forall j | 0 <= j < |rows[1..]| ensures rows[1..][j] == rows[j + 1] { }
      }
      StaysInCategory(Step(st, rows[0], category, items).state, rows[1..], category, items);
    }
  }

  /**
   * `in_category` is not reset between tables: a table that holds the header
   * and no other known category ends inside the category, so the next table's
   * rows are scanned as part of it.
   */
  lemma {:induction false} CategoryCarriesOver(st: State, rows: seq<Row>, h: nat, category: string, items: seq<string>)
    requires h < |rows| && rows[h] != [] && Strip(rows[h][0]) == category
    requires NoOtherCategory(rows, category)
    ensures !ScanRows(st, rows, category, items).stopped && ScanRows(st, rows, category, items).state.inCategory
    decreases h
  {
    assert NoOtherCategory(rows[1..], category) by {
      forall j | 0 <= j < |rows[1..]| ensures rows[1..][j] == rows[j + 1] { }
    }
    var p := Step(st, rows[0], category, items);
    if h == 0 {
      StaysInCategory(p.state, rows[1..], category, items);
    } else {
      assert rows[1..][h - 1] == rows[h];
      CategoryCarriesOver(p.state, rows[1..], h - 1, category, items);
    }
  }

  /**
   * Inside the category, an ordinary row (not a header, not another known
   * category) is kept exactly when `Keeps` holds, under its stripped name with
   * its stripped value; otherwise the state does not change.
   */
  lemma InCategoryRow(st: State, row: Row, category: string, items: seq<string>)
    requires st.inCategory && row != [] && Strip(row[0]) != category && Strip(row[0]) !in KnownCategories
    ensures var name := Strip(row[0]); var p := Step(st, row, category, items);
      && !p.stopped && p.state.inCategory
      && (Keeps(name, RowValue(row, 0), items) ==> p.state.result == st.result[name := RowValue(row, 0)])
      && (!Keeps(name, RowValue(row, 0), items) ==> p.state == st)
  {
  }

  /** Every stored entry comes from a row that satisfies `Keeps`, with that row's name and value. */
  predicate Justified(result: map<string, string>, rows: seq<Row>, items: seq<string>) {
    forall name :: name in result ==> exists row :: (row in rows && row != [] && Strip(row[0]) == name
      && RowValue(row, 0) == result[name] && Keeps(name, result[name], items))
  }

  lemma JustifiedMore(result: map<string, string>, rows: seq<Row>, more: seq<Row>, items: seq<string>)
    requires Justified(result, rows, items)
    ensures Justified(result, rows + more, items)
  {
    forall name | name in result ensures exists row :: (row in rows + more && row != [] && Strip(row[0]) == name
      && RowValue(row, 0) == result[name] && Keeps(name, result[name], items))
    {
      var row :| row in rows && row != [] && Strip(row[0]) == name && RowValue(row, 0) == result[name] && Keeps(name, result[name], items);
      assert row in rows + more;
    }
  }

  /** A step stores the row's entry when `Stores` holds and leaves the result alone otherwise. */
  lemma StepResult(st: State, row: Row, category: string, items: seq<string>)
    ensures Step(st, row, category, items).state.result ==
      if Stores(st, row, category, items) then st.result[Strip(row[0]) := RowValue(row, 0)] else st.result
  {
  }

  lemma StepJustified(st: State, row: Row, seen: seq<Row>, category: string, items: seq<string>)
    requires Justified(st.result, seen, items)
    ensures Justified(Step(st, row, category, items).state.result, seen + [row], items)
  {
    JustifiedMore(st.result, seen, [row], items);
    StepResult(st, row, category, items);
    if Stores(st, row, category, items) {
      var name := Strip(row[0]);
      var r := st.result[name := RowValue(row, 0)];
      assert row in seen + [row];
      forall n | n in r ensures exists x :: (x in seen + [row] && x != [] && Strip(x[0]) == n
        && RowValue(x, 0) == r[n] && Keeps(n, r[n], items))
      {
        if n != name {
          assert n in st.result && r[n] == st.result[n];
        }
      }
    }
  }

  lemma {:induction false} RowsJustified(st: State, rows: seq<Row>, seen: seq<Row>, category: string, items: seq<string>)
    requires Justified(st.result, seen, items)
    ensures Justified(ScanRows(st, rows, category, items).state.result, seen + rows, items)
    decreases |rows|
  {
    if rows == [] {
      assert seen + rows == seen;
    } else {
      ConsSplit(seen, rows);
      StepJustified(st, rows[0], seen, category, items);
      var p := Step(st, rows[0], category, items);
      if p.stopped {
        JustifiedMore(p.state.result, seen + [rows[0]], rows[1..], items);
      } else {
        RowsJustified(p.state, rows[1..], seen + [rows[0]], category, items);
      }
    }
  }

  lemma ConsSplit<T>(a: seq<T>, b: seq<T>)
    requires b != []
    ensures a + [b[0]] + b[1..] == a + b
  {
    assert [b[0]] + b[1..] == b;
  }

  lemma {:induction false} TablesJustified(st: State, tables: seq<Table>, seen: seq<Row>, category: string, items: seq<string>)
    requires Justified(st.result, seen, items)
    ensures Justified(ScanTables(st, tables, category, items).result, seen + Flatten(tables), items)
    decreases |tables|
  {
    if tables == [] {
      assert seen + Flatten(tables) == seen;
    } else {
      RowsJustified(st, tables[0], seen, category, items);
      TablesJustified(ScanRows(st, tables[0], category, items).state, tables[1..], seen + tables[0], category, items);
      assert seen + tables[0] + Flatten(tables[1..]) == seen + Flatten(tables);
    }
  }

  /**
   * Every entry of the result is the stripped name and value of some row of
   * the tables whose value is non-empty, whose name is at most ten characters
   * long and holds one of the items.
   */
  lemma CategoryEntriesKept(tables: seq<Table>, category: string, items: seq<string>, name: string)
    requires name in CategoryFilter(tables, category, items)
    ensures exists row :: (row in Flatten(tables) && row != [] && Strip(row[0]) == name
      && RowValue(row, 0) == CategoryFilter(tables, category, items)[name] && Keeps(name, CategoryFilter(tables, category, items)[name], items))
  {
    TablesJustified(State(false, map[]), tables, [], category, items);
    assert [] + Flatten(tables) == Flatten(tables);
  }

  lemma {:induction false} RowsNeverEnter(st: State, rows: seq<Row>, category: string, items: seq<string>)
    requires st == State(false, map[])
    requires forall row :: row in rows && row != [] ==> Strip(row[0]) != category
    ensures ScanRows(st, rows, category, items).state == st
    decreases |rows|
  {
    if rows != [] {
      assert rows[0] in rows;
      assert forall row :: row in rows[1..] ==> row in rows;
      RowsNeverEnter(st, rows[1..], category, items);
    }
  }

  lemma {:induction false} TablesNeverEnter(tables: seq<Table>, category: string, items: seq<string>)
    requires forall row :: row in Flatten(tables) && row != [] ==> Strip(row[0]) != category
    ensures ScanTables(State(false, map[]), tables, category, items) == State(false, map[])
    decreases |tables|
  {
    if tables != [] {
      assert forall row :: row in tables[0] ==> row in Flatten(tables);
      assert forall row :: row in Flatten(tables[1..]) ==> row in Flatten(tables);
      RowsNeverEnter(State(false, map[]), tables[0], category, items);
      TablesNeverEnter(tables[1..], category, items);
    }
  }

  /** Without a header row the scan never enters the category and keeps nothing. */
  lemma NoHeaderNothingKept(tables: seq<Table>, category: string, items: seq<string>)
    requires forall row :: row in Flatten(tables) && row != [] ==> Strip(row[0]) != category
    ensures CategoryFilter(tables, category, items) == map[]
  {
    TablesNeverEnter(tables, category, items);
  }
}
