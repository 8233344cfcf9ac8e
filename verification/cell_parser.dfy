/**
 * Reading the text of one table cell: its lines, the food names listed in it,
 * the OCR boxes that fall inside it (top to bottom), and the merged text of
 * several cells. Coordinates are reals.
 */
module CellParser {
  import opened Wrappers
  import opened Text

  // ---------------------------------------------------------------- lines of a cell

  /** Each line stripped, the empty ones dropped, the order kept. */
  function CleanLines(lines: seq<string>): (r: seq<string>)
    ensures forall k :: 0 <= k < |r| ==> r[k] != [] && IsStripped(r[k])
  {
    var r := Collect(CleanLine, lines);
    forall k | 0 <= k < |r| ensures r[k] != [] && IsStripped(r[k]) {
      CollectIn(CleanLine, lines, r[k]);
    }
    r
  }

  /** One line stripped, or nothing when that leaves it empty. */
  function CleanLine(line: string): (r: seq<string>)
    ensures |r| <= 1
    ensures r == [] <==> Strip(line) == []
    ensures r != [] ==> r[0] == Strip(line)
  {
    if Strip(line) != [] then [Strip(line)] else []
  }

  /** Cleaning works line by line: the lines of two blocks are the lines of each, in order. */
  lemma CleanLinesAppend(a: seq<string>, b: seq<string>)
    ensures CleanLines(a + b) == CleanLines(a) + CleanLines(b)
  {
    CollectAppend(CleanLine, a, b);
  }

  /** A line is kept exactly when some input line strips to it. */
  lemma CleanLinesMembers(lines: seq<string>, x: string)
    ensures x in CleanLines(lines) <==> x != [] && exists i :: 0 <= i < |lines| && Strip(lines[i]) == x
  {
    CollectIn(CleanLine, lines, x);
    if x != [] && exists i :: 0 <= i < |lines| && Strip(lines[i]) == x {
      var i :| 0 <= i < |lines| && Strip(lines[i]) == x;
      assert x in CleanLine(lines[i]);
    }
  }

  /** Lines that are already stripped and non-empty are kept as they are. */
  lemma {:induction false} CleanLinesKeeps(lines: seq<string>)
    requires forall k :: 0 <= k < |lines| ==> lines[k] != [] && IsStripped(lines[k])
    ensures CleanLines(lines) == lines
    decreases |lines|
  {
    if lines != [] {
      CleanLinesKeeps(lines[..|lines| - 1]);
      assert Collect(CleanLine, lines) == Collect(CleanLine, lines[..|lines| - 1]) + CleanLine(lines[|lines| - 1]);
    }
  }

  /** `extract_multiline_content`. */
  function MultilineContent(cellText: string): (r: seq<string>)
    ensures cellText == [] ==> r == []
  {
    if cellText == [] then [] else CleanLines(SplitOn(cellText, '\n'))
  }

  /** `extract_multiline_content`. */
  method ExtractMultilineContent(cellText: string) returns (lines: seq<string>)
    ensures lines == MultilineContent(cellText)
  {
    if cellText == [] {
      return [];
    }
    var pieces := SplitOn(cellText, '\n');
    lines := [];
    for i := 0 to |pieces|
      invariant lines == CleanLines(pieces[..i])
    {
      CollectStep(CleanLine, pieces, i);
      var line := Strip(pieces[i]);
      if line != [] {
        lines := lines + [line];
      }
    }
    assert pieces[..|pieces|] == pieces;
  }

  /** Lines that are stripped, non-empty and free of newlines come back from their newline-joined text. */
  lemma MultilineRoundTrip(lines: seq<string>)
    requires forall k :: 0 <= k < |lines| ==> lines[k] != [] && IsStripped(lines[k]) && '\n' !in lines[k]
    ensures MultilineContent(Join(lines, "\n")) == lines
  {
    if lines != [] {
      assert Join(lines, "\n") != [] by {
        if |lines| == 1 {
          assert Join(lines, "\n") == lines[0];
        } else {
          JoinStartsWithFirst(lines, "\n");
        }
      }
      SplitOnJoin(lines, '\n');
      CleanLinesKeeps(lines);
    }
  }

  // ---------------------------------------------------------------- hierarchy

  datatype Level = Level(text: string, indent: nat, level: nat)

  datatype Hierarchy = Hierarchy(kind: string, levels: seq<Level>)

  /** One line with its leading whitespace counted, two characters to a level. */
  function LevelOf(line: string): Level {
    var indent := |line| - |TrimStart(line)|;
    Level(Strip(line), indent, indent / 2)
  }

  function Levels(lines: seq<string>): (r: seq<Level>)
    ensures |r| == |lines|
  {
    if lines == [] then [] else Levels(lines[..|lines| - 1]) + [LevelOf(lines[|lines| - 1])]
  }

  /** `parse_hierarchical_content`. */
  method ParseHierarchicalContent(cellText: string) returns (h: Hierarchy)
    ensures h == Hierarchy("hierarchical", Levels(MultilineContent(cellText)))
  {
    var lines := ExtractMultilineContent(cellText);
    var levels: seq<Level> := [];
    for i := 0 to |lines|
      invariant levels == Levels(lines[..i])
    {
      assert lines[..i + 1][..i] == lines[..i];
      var line := lines[i];
      var indent := |line| - |TrimStart(line)|;
      var entry := Level(Strip(line), indent, indent / 2);
      assert entry == LevelOf(line);
      levels := levels + [entry];
    }
    assert lines[..|lines|] == lines;
    h := Hierarchy("hierarchical", levels);
  }

  /** The lines reach the hierarchy already stripped, so every entry is the line itself at indent 0, level 0. */
  lemma {:induction false} HierarchyIsFlat(cellText: string)
    ensures var lines := MultilineContent(cellText);
      forall k :: 0 <= k < |lines| ==> Levels(lines)[k] == Level(lines[k], 0, 0)
  {
    var lines := MultilineContent(cellText);
    forall k | 0 <= k < |lines| ensures Levels(lines)[k] == Level(lines[k], 0, 0) {
      LevelsAt(lines, k);
      var line := lines[k];
      assert SpaceRunEnd(line, 0) == 0;
    }
  }

  lemma {:induction false} LevelsAt(lines: seq<string>, k: nat)
    requires k < |lines|
    ensures Levels(lines)[k] == LevelOf(lines[k])
    decreases |lines|
  {
    if k < |lines| - 1 {
      LevelsAt(lines[..|lines| - 1], k);
    }
  }

  // ---------------------------------------------------------------- food items

  /** `[\d\.\-\*\s]`: the characters of a list numbering. */
  predicate NumberingChar(c: char) {
    IsDigit(c) || c == '.' || c == '-' || c == '*' || IsSpace(c)
  }

  function NumberingEnd(s: string, i: nat): (j: nat)
    requires i <= |s|
    ensures i <= j <= |s|
    ensures forall k :: i <= k < j ==> NumberingChar(s[k])
    ensures j == |s| || !NumberingChar(s[j])
    decreases |s| - i
  {
    if i < |s| && NumberingChar(s[i]) then NumberingEnd(s, i + 1) else i
  }

  /** `re.sub(r'^[\d\.\-\*\s]+', '', line)`: the line without its leading numbering. */
  function StripNumbering(line: string): (r: string)
    ensures |r| <= |line| && r == line[|line| - |r|..]
    ensures forall k :: 0 <= k < |line| - |r| ==> NumberingChar(line[k])
    ensures r == [] || !NumberingChar(r[0])
  {
    line[NumberingEnd(line, 0)..]
  }

  /** The line without its numbering, or nothing when no name is left. */
  function FoodItem(line: string): (r: seq<string>)
    ensures r == [] <==> StripNumbering(line) == []
    ensures r != [] ==> r == [StripNumbering(line)]
  {
    var cleaned := StripNumbering(line);
    if cleaned != [] then [cleaned] else []
  }

  function FoodItems(lines: seq<string>): seq<string> {
    Collect(FoodItem, lines)
  }

  /** Every food item is non-empty, starts with no numbering character, and is what is left of some line. */
  lemma FoodItemsShape(lines: seq<string>, item: string)
    requires item in FoodItems(lines)
    ensures item != [] && !NumberingChar(item[0])
    ensures exists i :: 0 <= i < |lines| && item == StripNumbering(lines[i])
  {
    CollectIn(FoodItem, lines, item);
  }

  /** A line made only of numbering characters yields no item. */
  lemma NumberingOnlyLine(line: string)
    requires forall k :: 0 <= k < |line| ==> NumberingChar(line[k])
    ensures FoodItem(line) == []
  {
  }

  /** `extract_food_items`. */
  method ExtractFoodItems(cellText: string) returns (items: seq<string>)
    ensures items == FoodItems(MultilineContent(cellText))
  {
    var lines := ExtractMultilineContent(cellText);
    items := [];
    for i := 0 to |lines|
      invariant items == FoodItems(lines[..i])
    {
      CollectStep(FoodItem, lines, i);
      var cleaned := StripNumbering(lines[i]);
      if cleaned != [] {
        items := items + [cleaned];
      }
    }
    assert lines[..|lines|] == lines;
  }

  // ---------------------------------------------------------------- merging cells

  /** `merge_cell_content`: the non-blank cells, stripped, joined with the separator. */
  function MergeCellContent(cells: seq<string>, separator: string): string {
    Join(CleanLines(cells), separator)
  }

  /** Blank cells contribute nothing: when all are blank the merge is empty, and one non-blank cell merges to itself stripped. */
  lemma MergeBlankCells(cells: seq<string>, separator: string)
    ensures (forall k :: 0 <= k < |cells| ==> Strip(cells[k]) == []) ==> MergeCellContent(cells, separator) == []
    ensures forall c :: Strip(c) != [] ==> MergeCellContent([c], separator) == Strip(c)
  {
    if forall k :: 0 <= k < |cells| ==> Strip(cells[k]) == [] {
      CollectEmpty(CleanLine, cells);
    }
    forall c | Strip(c) != [] ensures MergeCellContent([c], separator) == Strip(c) {
      assert [c][..0] == [];
      assert Collect(CleanLine, [c]) == [Strip(c)];
    }
  }

  /** Cells merged with a newline come apart again into their stripped, non-blank texts. */
  lemma MergeThenSplit(cells: seq<string>)
    requires forall k :: 0 <= k < |cells| ==> '\n' !in cells[k]
    ensures MultilineContent(MergeCellContent(cells, "\n")) == CleanLines(cells)
  {
    var kept := CleanLines(cells);
    forall k | 0 <= k < |kept| ensures '\n' !in kept[k] {
      CleanLinesMembers(cells, kept[k]);
      var i :| 0 <= i < |cells| && Strip(cells[i]) == kept[k];
      StripInside(cells[i]);
      NoCharInside(cells[i], kept[k], '\n');
    }
    MultilineRoundTrip(kept);
  }

  /** A character absent from a string is absent from every piece of it. */
  lemma NoCharInside(s: string, piece: string, c: char)
    requires c !in s && Contains(s, piece)
    ensures c !in piece
  {
    var i :| 0 <= i <= |s| - |piece| && OccursAt(s, piece, i);
    forall k | 0 <= k < |piece| ensures piece[k] != c {
      assert piece[k] == s[i + k];
    }
  }

  // ---------------------------------------------------------------- OCR boxes in a cell

  /** A cell's bounding box `(x1, y1, x2, y2)`. */
  datatype Box = Box(x1: real, y1: real, x2: real, y2: real)

  /** One OCR result; each key of its dict may be missing. */
  datatype Ocr = Ocr(text: Option<string>, bbox: Option<seq<real>>, confidence: Option<real>)

  datatype TextLine = TextLine(text: string, bbox: seq<real>, confidence: real)

  datatype CellStructure = CellStructure(bbox: Box, textLines: seq<TextLine>, lineCount: nat)

  /** `_is_inside_cell`: the centre of the text box lies in the cell, edges included. */
  predicate IsInsideCell(ocr: Ocr, cell: Box) {
    && ocr.bbox.Some? && |ocr.bbox.value| >= 4
    && var b := ocr.bbox.value;
    && cell.x1 <= (b[0] + b[2]) / 2.0 <= cell.x2
    && cell.y1 <= (b[1] + b[3]) / 2.0 <= cell.y2
  }

  /** A text box lying wholly within the cell is inside it. */
  lemma WithinIsInside(ocr: Ocr, cell: Box)
    requires ocr.bbox.Some? && |ocr.bbox.value| >= 4
    requires var b := ocr.bbox.value;
      cell.x1 <= b[0] <= b[2] <= cell.x2 && cell.y1 <= b[1] <= b[3] <= cell.y2
    ensures IsInsideCell(ocr, cell)
  {
  }

  /** Nothing is inside a cell whose corners are the wrong way round, nor without a box of four numbers. */
  lemma InsideNeedsBoxes(ocr: Ocr, cell: Box)
    requires IsInsideCell(ocr, cell)
    ensures cell.x1 <= cell.x2 && cell.y1 <= cell.y2
    ensures ocr.bbox.Some? && |ocr.bbox.value| >= 4
  {
  }

  /** The OCR results inside the cell with some text, as text lines, in input order. */
  function KeptLines(cell: Box, ocrs: seq<Ocr>): (r: seq<TextLine>)
    ensures forall k :: 0 <= k < |r| ==> r[k].text != [] && IsStripped(r[k].text) && |r[k].bbox| >= 4
  {
    if ocrs == [] then []
    else
      var init := KeptLines(cell, ocrs[..|ocrs| - 1]);
      var ocr := ocrs[|ocrs| - 1];
      var text := ocr.text.GetOr("");
      if IsInsideCell(ocr, cell) && Strip(text) != [] then
        init + [TextLine(Strip(text), ocr.bbox.GetOr([]), ocr.confidence.GetOr(0.0))]
      else init
  }

  /** The sort key: the top edge of the line's box. */
  function Top(line: TextLine): real {
    if |line.bbox| >= 2 then line.bbox[1] else 0.0
  }

  predicate SortedByTop(s: seq<TextLine>) {
    forall i, j :: 0 <= i < j < |s| ==> Top(s[i]) <= Top(s[j])
  }

  /** The lines of `s` whose top is `t`, in order. */
  function WithTop(s: seq<TextLine>, t: real): seq<TextLine> {
    if s == [] then [] else WithTop(s[..|s| - 1], t) + Tagged(s[|s| - 1], t)
  }

  /** The line alone when its top is `t`, else nothing. */
  function Tagged(x: TextLine, t: real): seq<TextLine> {
    if Top(x) == t then [x] else []
  }

  /** `x` placed after every line whose top is not below its own. */
  function InsertByTop(s: seq<TextLine>, x: TextLine): seq<TextLine> {
    if s == [] then [x]
    else if Top(s[|s| - 1]) <= Top(x) then s + [x]
    else InsertByTop(s[..|s| - 1], x) + [s[|s| - 1]]
  }

  /** `list.sort(key=top)`, which is stable: an insertion sort that keeps equal keys in order. */
  function SortByTop(s: seq<TextLine>): seq<TextLine> {
    if s == [] then []
    else InsertByTop(SortByTop(s[..|s| - 1]), s[|s| - 1])
  }

  /** Insertion adds exactly the one line. */
  lemma {:induction false} InsertPerm(s: seq<TextLine>, x: TextLine)
    ensures multiset(InsertByTop(s, x)) == multiset(s) + multiset{x}
    decreases |s|
  {
    if s != [] && Top(s[|s| - 1]) > Top(x) {
      InsertPerm(s[..|s| - 1], x);
      assert s == s[..|s| - 1] + [s[|s| - 1]];
    }
  }

  lemma {:induction false} InsertSorted(s: seq<TextLine>, x: TextLine)
    requires SortedByTop(s)
    ensures SortedByTop(InsertByTop(s, x))
    decreases |s|
  {
    if s != [] && Top(s[|s| - 1]) > Top(x) {
      var init := s[..|s| - 1];
      var last := s[|s| - 1];
      assert SortedByTop(init);
      InsertSorted(init, x);
      var m := InsertByTop(init, x);
      forall y | y in m ensures Top(y) <= Top(last) {
        InsertMembers(init, x, y);
        if y != x {
          var i :| 0 <= i < |init| && init[i] == y;
          assert s[i] == y;
        }
      }
      var r := m + [last];
      forall i, j | 0 <= i < j < |r| ensures Top(r[i]) <= Top(r[j]) {
        if j == |r| - 1 {
          assert r[i] in m;
        } else {
          assert r[i] == m[i] && r[j] == m[j];
        }
      }
    }
  }

  lemma {:induction false} InsertMembers(s: seq<TextLine>, x: TextLine, y: TextLine)
    ensures y in InsertByTop(s, x) ==> y == x || y in s
    decreases |s|
  {
    if s != [] && Top(s[|s| - 1]) > Top(x) {
      InsertMembers(s[..|s| - 1], x, y);
    }
  }

  lemma WithTopSnoc(m: seq<TextLine>, y: TextLine, t: real)
    ensures WithTop(m + [y], t) == WithTop(m, t) + Tagged(y, t)
  {
    assert (m + [y])[..|m|] == m;
  }

  /** Lines with different tops never both have top `t`. */
  lemma TaggedSwap(x: TextLine, y: TextLine, t: real)
    requires Top(x) != Top(y)
    ensures Tagged(x, t) + Tagged(y, t) == Tagged(y, t) + Tagged(x, t)
  {
  }

  lemma SwapLast<T>(w: seq<T>, a: seq<T>, b: seq<T>)
    requires a + b == b + a
    ensures w + a + b == w + b + a
  {
    calc {
      w + a + b;
      w + (a + b);
      w + (b + a);
      w + b + a;
    }
  }

  lemma {:induction false} InsertStable(s: seq<TextLine>, x: TextLine, t: real)
    ensures WithTop(InsertByTop(s, x), t) == WithTop(s, t) + Tagged(x, t)
    decreases |s|
  {
    if s == [] {
      WithTopSnoc([], x, t);
    } else if Top(s[|s| - 1]) <= Top(x) {
      WithTopSnoc(s, x, t);
    } else {
      var init := s[..|s| - 1];
      var last := s[|s| - 1];
      var m := InsertByTop(init, x);
      assert InsertByTop(s, x) == m + [last];
      InsertStable(init, x, t);
      WithTopSnoc(m, last, t);
      assert s == init + [last];
      WithTopSnoc(init, last, t);
      TaggedSwap(x, last, t);
      SwapLast(WithTop(init, t), Tagged(x, t), Tagged(last, t));
    }
  }

  /** The sort puts the lines in order of their top edge, keeps every line, and keeps lines with equal tops in input order. */
  lemma {:induction false} SortByTopSpec(s: seq<TextLine>)
    ensures SortedByTop(SortByTop(s))
    ensures multiset(SortByTop(s)) == multiset(s)
    ensures forall t :: WithTop(SortByTop(s), t) == WithTop(s, t)
    decreases |s|
  {
    if s != [] {
      var init := s[..|s| - 1];
      SortByTopSpec(init);
      InsertSorted(SortByTop(init), s[|s| - 1]);
      InsertPerm(SortByTop(init), s[|s| - 1]);
      assert s == init + [s[|s| - 1]];
      forall t ensures WithTop(SortByTop(s), t) == WithTop(s, t) {
        InsertStable(SortByTop(init), s[|s| - 1], t);
      }
    }
  }

  /** `parse_cell_structure`. */
  method ParseCellStructure(cell: Box, ocrs: seq<Ocr>) returns (c: CellStructure)
    ensures c.bbox == cell && c.lineCount == |c.textLines|
    ensures c.textLines == SortByTop(KeptLines(cell, ocrs))
  {
    var kept: seq<TextLine> := [];
    for i := 0 to |ocrs|
      invariant kept == KeptLines(cell, ocrs[..i])
    {
      assert ocrs[..i + 1][..i] == ocrs[..i];
      var ocr := ocrs[i];
      if IsInsideCell(ocr, cell) {
        var text := ocr.text.GetOr("");
        if Strip(text) != [] {
          kept := kept + [TextLine(Strip(text), ocr.bbox.GetOr([]), ocr.confidence.GetOr(0.0))];
        }
      }
    }
    assert ocrs[..|ocrs|] == ocrs;
    var lines := SortByTop(kept);
    c := CellStructure(cell, lines, |lines|);
  }

  /** Every line of a parsed cell is a non-blank, stripped text whose box centre lies in the cell; they run top to bottom. */
  lemma CellStructureLines(cell: Box, ocrs: seq<Ocr>)
    ensures var lines := SortByTop(KeptLines(cell, ocrs));
      && SortedByTop(lines)
      && multiset(lines) == multiset(KeptLines(cell, ocrs))
      && forall k :: 0 <= k < |lines| ==> lines[k].text != [] && IsStripped(lines[k].text) && |lines[k].bbox| >= 4 && Top(lines[k]) == lines[k].bbox[1]
  {
    var kept := KeptLines(cell, ocrs);
    var lines := SortByTop(kept);
    SortByTopSpec(kept);
    forall k | 0 <= k < |lines| ensures lines[k].text != [] && IsStripped(lines[k].text) && |lines[k].bbox| >= 4 {
      assert lines[k] in multiset(kept);
      var i :| 0 <= i < |kept| && kept[i] == lines[k];
    }
  }

  /** The line's text is the stripped text of an OCR result inside the cell. */
  predicate ReadInside(cell: Box, ocrs: seq<Ocr>, line: TextLine) {
    exists i :: 0 <= i < |ocrs| && IsInsideCell(ocrs[i], cell) && line.text == Strip(ocrs[i].text.GetOr(""))
  }

  /** Each kept line comes from an OCR result inside the cell. */
  lemma {:induction false} KeptLinesInside(cell: Box, ocrs: seq<Ocr>)
    ensures forall k :: 0 <= k < |KeptLines(cell, ocrs)| ==> ReadInside(cell, ocrs, KeptLines(cell, ocrs)[k])
    decreases |ocrs|
  {
    if ocrs != [] {
      var init := ocrs[..|ocrs| - 1];
      KeptLinesInside(cell, init);
      var r := KeptLines(cell, ocrs);
      forall k | 0 <= k < |r| ensures ReadInside(cell, ocrs, r[k]) {
        if k < |KeptLines(cell, init)| {
          assert r[k] == KeptLines(cell, init)[k];
          assert ReadInside(cell, init, r[k]);
          var i :| 0 <= i < |init| && IsInsideCell(init[i], cell) && r[k].text == Strip(init[i].text.GetOr(""));
          assert ocrs[i] == init[i];
        } else {
          assert IsInsideCell(ocrs[|ocrs| - 1], cell);
        }
      }
    }
  }

  /** `preserve_text_order`: the texts joined by newlines. */
  function PreserveTextOrder(lines: seq<TextLine>): string {
    Join(seq(|lines|, k requires 0 <= k < |lines| => lines[k].text), "\n")
  }

  /** Single-line texts joined in order are read back as the same lines. */
  lemma PreserveThenSplit(lines: seq<TextLine>)
    requires forall k :: 0 <= k < |lines| ==> lines[k].text != [] && IsStripped(lines[k].text) && '\n' !in lines[k].text
    ensures MultilineContent(PreserveTextOrder(lines)) == seq(|lines|, k requires 0 <= k < |lines| => lines[k].text)
  {
    MultilineRoundTrip(seq(|lines|, k requires 0 <= k < |lines| => lines[k].text));
  }
}
