/**
 * The compliance check of a report's inspection items against the
 * implementation rules held in the retrieval service (`ragflow_verifier`).
 *
 * The retrieved chunks pass a similarity gate (layer 1) and a structural
 * filter (layer 2); the inspection items in their tables are deduplicated;
 * their standard bases are unified; each required item is paired with the
 * first report item that names it; each pair is checked for a consistent test
 * method and a cited basis and, with the limit text found for it, for an
 * exceeded limit; and everything rolls up into one status.
 *
 * The retrieval service, the HTML parser and the per-item limit search are
 * parameters.
 */
module RagflowVerifier {
  import opened Wrappers
  import opened Text
  import opened Assoc
  import opened Scan
  import opened ItemNameMatcher
  import HtmlTableParser
  import GbNumber

  // ---------------------------------------------------------------- food categories

  /** The GB 2763 category of each mapped food (every entry of the mapping lists the category, then the food itself). */
  const FoodCategory: map<string, string> := map[
    "黄瓜" := "瓜类蔬菜", "冬瓜" := "瓜类蔬菜", "苦瓜" := "瓜类蔬菜", "南瓜" := "瓜类蔬菜",
    "西葡芦" := "瓜类蔬菜", "丝瓜" := "瓜类蔬菜", "佛手瓜" := "瓜类蔬菜",
    "茄子" := "茄果类蔬菜", "番茄" := "茄果类蔬菜", "辣椒" := "茄果类蔬菜",
    "白菜" := "叶菜类蔬菜", "菠菜" := "叶菜类蔬菜", "生菜" := "叶菜类蔬菜", "油菜" := "叶菜类蔬菜",
    "芥菜" := "叶菜类蔬菜",
    "豆角" := "豆类蔬菜", "豌豆" := "豆类蔬菜", "荱豆" := "豆类蔬菜",
    "萝卜" := "根茎类和薯苋类蔬菜", "胡萝卜" := "根茎类和薯苋类蔬菜", "土豆" := "根茎类和薯苋类蔬菜"]

  /** `get_food_categories`: the names a food may appear under in a limit table. */
  function FoodCategories(foodName: string): (r: seq<string>)
    ensures 1 <= |r| <= 2 && r[|r| - 1] == foodName
    ensures |r| == 2 <==> foodName in FoodCategory
    ensures |r| == 2 ==> r[0] == FoodCategory[foodName]
  {
    if foodName in FoodCategory then [FoodCategory[foodName], foodName] else [foodName]
  }

  /** The category comes before the food itself: cucumber is looked up as 瓜类蔬菜 first. */
  lemma CategoryBeforeFood()
    ensures FoodCategories("黄瓜") == ["瓜类蔬菜", "黄瓜"]
  {
  }

  // ---------------------------------------------------------------- layer 0: the query

  /** `build_optimized_query`: the food name followed by the search terms of the query type; any other type gives the name alone. */
  function BuildOptimizedQuery(foodName: string, queryType: string): (q: string)
    ensures StartsWith(q, foodName)
    ensures q == foodName <==> queryType != "inspection" && queryType != "basis" && queryType != "method"
  {
    if queryType == "inspection" then foodName + " 检验项目表 必检项目 限量指标"
    else if queryType == "basis" then foodName + " 依据法律法规 判定依据 标准"
    else if queryType == "method" then foodName + " 检测方法 检验方法 国标方法"
    else foodName
  }

  // ---------------------------------------------------------------- layer 2: structure

  const ProjectKeywords: seq<string> := ["检验项目", "检测项目", "项目名称", "必检项"]
  const TableIndicators: seq<string> := ["<table", "<td", "表格"]

  /**
   * `check_structural_validity`: the chunk must name the food; in strict mode
   * it must also carry an inspection-item keyword and a table marker.
   */
  function CheckStructuralValidity(content: string, foodName: string, requireStrict: bool): (ok: bool)
    ensures ok <==> Contains(content, foodName) && (requireStrict ==> AnyIn(ProjectKeywords, content) && AnyIn(TableIndicators, content))
  {
    if !Contains(content, foodName) then false
    else
      var hasProjectKeyword := AnyIn(ProjectKeywords, content);
      if !hasProjectKeyword && requireStrict then false
      else
        var hasTable := AnyIn(TableIndicators, content);
        !(requireStrict && !hasTable)
  }

  // ---------------------------------------------------------------- test methods

  /** `re.sub(r'-\d{4}', '', s)`: every year suffix removed, scanning left to right. */
  function DropYears(s: string): (r: string)
    ensures |r| <= |s|
    decreases |s|
  {
    if s == [] then []
    else if GbNumber.YearMarkAt(s, 0) then DropYears(s[5..])
    else [s[0]] + DropYears(s[1..])
  }

  /** The `clean` of `_fuzzy_match_method`: years and whitespace removed, lower case. */
  function CleanMethod(s: string): string {
    Lower(RemoveSpaces(DropYears(s)))
  }

  /** `_fuzzy_match_method`: after cleaning, one method contains the other. */
  predicate FuzzyMatchMethod(reportMethod: string, requiredMethod: string) {
    var rm := CleanMethod(reportMethod);
    var qm := CleanMethod(requiredMethod);
    Contains(rm, qm) || Contains(qm, rm)
  }

  /** The method match does not depend on which side is the report's. */
  lemma FuzzyMatchMethodSymmetric(a: string, b: string)
    ensures FuzzyMatchMethod(a, b) <==> FuzzyMatchMethod(b, a)
  {
  }

  /** Every method matches itself. */
  lemma FuzzyMatchMethodReflexive(a: string)
    ensures FuzzyMatchMethod(a, a)
  {
    ContainsSelf(CleanMethod(a));
  }

  /** A method that cleans to nothing (only years and whitespace) matches every method. */
  lemma BlankMethodMatchesAll(a: string, b: string)
    requires CleanMethod(a) == []
    ensures FuzzyMatchMethod(a, b) && FuzzyMatchMethod(b, a)
  {
    ContainsEmpty(CleanMethod(b));
  }

  /** `_normalize_name`: every whitespace character removed. */
  function NormalizeName(name: string): (r: string)
    ensures NoSpace(r) && |r| <= |name|
  {
    RemoveSpaces(name)
  }

  // ---------------------------------------------------------------- numbers

  /** A character of `[\d\.]`. */
  predicate IsNumChar(c: char) { IsDigit(c) || c == '.' }

  /** The end of the run of digits and dots starting at `i`. */
  function NumRunEnd(s: string, i: nat): (j: nat)
    requires i <= |s|
    ensures i <= j <= |s|
    ensures forall k :: i <= k < j ==> IsNumChar(s[k])
    ensures j == |s| || !IsNumChar(s[j])
    decreases |s| - i
  {
    if i < |s| && IsNumChar(s[i]) then NumRunEnd(s, i + 1) else i
  }

  /** `re.search(r'([\d\.]+)', s)` from `i`: the leftmost run of digits and dots. */
  function NumRun(s: string, i: nat): (r: Option<(nat, nat)>)
    requires i <= |s|
    ensures r.Some? ==> i <= r.value.0 < r.value.1 <= |s| && r.value.1 == NumRunEnd(s, r.value.0)
    ensures forall k :: i <= k < |s| && (r.None? || k < r.value.0) ==> !IsNumChar(s[k])
    decreases |s| - i
  {
    if i == |s| then None
    else if IsNumChar(s[i]) then Some((i, NumRunEnd(s, i)))
    else NumRun(s, i + 1)
  }

  /** The first dot at or after `i`, or |t|. */
  function DotAt(t: string, i: nat): (d: nat)
    requires i <= |t|
    ensures i <= d <= |t|
    ensures forall k :: i <= k < d ==> t[k] != '.'
    ensures d < |t| ==> t[d] == '.'
    decreases |t| - i
  {
    if i == |t| || t[i] == '.' then i else DotAt(t, i + 1)
  }

  function Pow10(n: nat): (p: nat)
    ensures p >= 1
  {
    if n == 0 then 1 else 10 * Pow10(n - 1)
  }

  /**
   * Python `float(t)` for a run of digits and dots: a number when there is at
   * most one dot and at least one digit ("1.", ".5"), an error otherwise.
   */
  function FloatOf(t: string): (r: Option<real>)
    requires forall k :: 0 <= k < |t| ==> IsNumChar(t[k])
    ensures r.Some? ==> r.value >= 0.0
    ensures r.Some? <==> (exists k :: 0 <= k < |t| && IsDigit(t[k])) && forall a, b :: 0 <= a < b < |t| && t[a] == '.' ==> t[b] != '.'
  {
    var d := DotAt(t, 0);
    if d == |t| then
      assert forall k :: 0 <= k < |t| ==> IsNumChar(t[k]) && IsDigit(t[k]);
      if t == [] then None else Some(DigitsValue(t) as real)
    else
      var whole := t[..d];
      var frac := t[d + 1..];
      var e := DotAt(t, d + 1);
      assert forall k :: 0 <= k < |whole| ==> whole[k] == t[k] && IsNumChar(t[k]) && IsDigit(whole[k]);
      if e < |t| then None
      else
        assert forall k :: 0 <= k < |frac| ==> frac[k] == t[d + 1 + k] && IsNumChar(t[d + 1 + k]) && IsDigit(frac[k]);
        if whole == [] && frac == [] then None
        else Some(DigitsValue(whole) as real + DigitsValue(frac) as real / Pow10(|frac|) as real)
  }

  /**
   * `_parse_value`: an empty value is unreadable; 未检出, ND (in any case) or a
   * leading '<' read as zero; otherwise the first run of digits and dots is
   * read as a number, and an unreadable run makes the value unreadable.
   */
  function ParseValue(valStr: string): (r: Option<real>)
    ensures r.Some? ==> r.value >= 0.0
  {
    if valStr == [] then None
    else
      var v := Strip(valStr);
      if Contains(v, "未检出") || Contains(Upper(v), "ND") then Some(0.0)
      else if StartsWith(v, "<") then Some(0.0)
      else
        match NumRun(v, 0)
        case None => None
        case Some(run) => FloatOf(v[run.0..run.1])
  }

  /** A value marked 未检出 or ND (in any case), or written as "<…", reads as zero. */
  lemma ParseValueZero(valStr: string)
    requires Contains(Strip(valStr), "未检出") || Contains(Upper(Strip(valStr)), "ND") || StartsWith(Strip(valStr), "<")
    ensures ParseValue(valStr) == Some(0.0)
  {
  }

  /** The digits of a whole number read back as that number. */
  lemma {:induction false} DigitsOfNat(n: nat)
    ensures DigitsValue(NatToString(n)) == n
    decreases n
  {
    if n >= 10 {
      DigitsOfNat(n / 10);
      var s := NatToString(n / 10) + [DigitChar(n % 10)];
      assert s[..|s| - 1] == NatToString(n / 10);
    }
  }

  /** A whole number written in decimal is read back as itself. */
  lemma ParseWholeNumber(n: nat)
    ensures ParseValue(NatToString(n)) == Some(n as real)
  {
    var s := NatToString(n);
    assert NoSpace(s);
    NoSpaceStripped(s);
    assert Strip(s) == s;
    assert Upper(s) == s;
    NotContainsFirstChar(s, "未检出");
    NotContainsFirstChar(s, "ND");
    assert !StartsWith(s, "<") by {
      assert s[0] != '<';
    }
    assert NumRun(s, 0) == Some((0, |s|)) by {
      NumRunAll(s, 0);
    }
    assert s[0..|s|] == s;
    assert DotAt(s, 0) == |s| by {
      DotAtNone(s, 0);
    }
    DigitsOfNat(n);
  }

  lemma {:induction false} NumRunAll(s: string, i: nat)
    requires i <= |s| && forall k :: 0 <= k < |s| ==> IsDigit(s[k])
    ensures NumRunEnd(s, i) == |s|
    decreases |s| - i
  {
    if i < |s| {
      NumRunAll(s, i + 1);
    }
  }

  lemma {:induction false} DotAtNone(s: string, i: nat)
    requires i <= |s| && forall k :: 0 <= k < |s| ==> IsDigit(s[k])
    ensures DotAt(s, i) == |s|
    decreases |s| - i
  {
    if i < |s| {
      DotAtNone(s, i + 1);
    }
  }
  // ---------------------------------------------------------------- layer 1: similarity

  /** A retrieved chunk; a missing `page_num` reads as 1, a missing `score` as 0. */
  datatype Chunk = Chunk(content: string, score: real, pageNum: int, chunkId: string, docName: string)

  const HardThreshold: real := 0.4
  const SoftThreshold: real := 0.25

  /** A chunk that passed layer 1, with the `require_strict` flag layer 1 gave it. */
  datatype Gated = Gated(chunk: Chunk, requireStrict: bool)

  /** Layer 1 on one chunk: dropped without content or below the soft threshold, kept strict between the thresholds, kept lenient from the hard one. */
  function Gate(c: Chunk): Option<bool> {
    if c.content == [] then None
    else if c.score >= HardThreshold then Some(false)
    else if c.score >= SoftThreshold then Some(true)
    else None
  }

  /** Layer 1 on one chunk, as the zero or one chunks it passes on. */
  function Admit(c: Chunk): seq<Gated> {
    match Gate(c)
    case None => []
    case Some(strict) => [Gated(c, strict)]
  }

  /** The chunks layer 1 passes on, in retrieval order. */
  function Layer1(chunks: seq<Chunk>): seq<Gated> {
    Collect(Admit, chunks)
  }

  /** The layer-1 loop: empty and low-scoring chunks are skipped, the rest are marked strict or not. */
  method Layer1Filter(queryResult: seq<Chunk>) returns (layer1Passed: seq<Gated>)
    ensures layer1Passed == Layer1(queryResult)
  {
    layer1Passed := [];
    for i := 0 to |queryResult|
      invariant layer1Passed == Layer1(queryResult[..i])
    {
      CollectStep(Admit, queryResult, i);
      var chunk := queryResult[i];
      if chunk.content == [] {
        continue;
      }
      if chunk.score >= HardThreshold {
        layer1Passed := layer1Passed + [Gated(chunk, false)];
      } else if chunk.score >= SoftThreshold {
        layer1Passed := layer1Passed + [Gated(chunk, true)];
      }
    }
    assert queryResult[..|queryResult|] == queryResult;
  }

  /**
   * A chunk passes layer 1 exactly when it has content and scores at least
   * 0.25; it is strict exactly when it scores below 0.4.
   */
  lemma Layer1Member(chunks: seq<Chunk>, c: Chunk, strict: bool)
    ensures Gated(c, strict) in Layer1(chunks) <==>
      c in chunks && c.content != [] && (if strict then SoftThreshold <= c.score < HardThreshold else c.score >= HardThreshold)
  {
    CollectIn(Admit, chunks, Gated(c, strict));
    if Gated(c, strict) in Layer1(chunks) {
      var i :| 0 <= i < |chunks| && Gated(c, strict) in Admit(chunks[i]);
      assert chunks[i] == c;
    }
    if c in chunks && Gate(c) == Some(strict) {
      var i :| 0 <= i < |chunks| && chunks[i] == c;
      assert Gated(c, strict) in Admit(chunks[i]);
    }
  }

  /** Layer 1 keeps retrieval order: the chunks it passes on are the admitted ones, in order. */
  lemma {:induction false} Layer1Order(chunks: seq<Chunk>)
    ensures Project(ChunkOf, Layer1(chunks)) == Filter(Admitted, chunks)
    decreases |chunks|
  {
    if chunks != [] {
      var init := chunks[..|chunks| - 1];
      var c := chunks[|chunks| - 1];
      Layer1Order(init);
      ProjectAppend(ChunkOf, Layer1(init), Admit(c));
    }
  }

  function ChunkOf(g: Gated): Chunk { g.chunk }

  predicate Admitted(c: Chunk) { Gate(c).Some? }

  // ---------------------------------------------------------------- layer 2: structure

  /** Layer 2 on one chunk: its structural check, strict as layer 1 marked it. */
  function StructureOk(foodName: string): Gated -> bool {
    (g: Gated) => CheckStructuralValidity(g.chunk.content, foodName, g.requireStrict)
  }

  /** The chunks layer 2 passes on, in order. */
  function Layer2(foodName: string, passed: seq<Gated>): seq<Gated> {
    Filter(StructureOk(foodName), passed)
  }

  /** The layer-2 loop: chunks failing their structural check are skipped. */
  method Layer2Filter(layer1Passed: seq<Gated>, foodName: string) returns (layer2Passed: seq<Gated>)
    ensures layer2Passed == Layer2(foodName, layer1Passed)
  {
    layer2Passed := [];
    for i := 0 to |layer1Passed|
      invariant layer2Passed == Layer2(foodName, layer1Passed[..i])
    {
      var chunk := layer1Passed[i];
      FilterStep(StructureOk(foodName), layer1Passed, i);
      if CheckStructuralValidity(chunk.chunk.content, foodName, chunk.requireStrict) {
        layer2Passed := layer2Passed + [chunk];
      }
    }
    assert layer1Passed[..|layer1Passed|] == layer1Passed;
  }

  /**
   * The screened chunks: a retrieved chunk survives both layers exactly when
   * it has content, names the food, and either scores at least 0.4 or scores
   * at least 0.25 and also carries an item keyword and a table marker.
   */
  lemma Screened(chunks: seq<Chunk>, foodName: string, c: Chunk, strict: bool)
    ensures Gated(c, strict) in Layer2(foodName, Layer1(chunks)) <==>
      && c in chunks && c.content != [] && Contains(c.content, foodName)
      && (if strict
          then SoftThreshold <= c.score < HardThreshold && AnyIn(ProjectKeywords, c.content) && AnyIn(TableIndicators, c.content)
          else c.score >= HardThreshold)
  {
    FilterIn(StructureOk(foodName), Layer1(chunks), Gated(c, strict));
    Layer1Member(chunks, c, strict);
  }

  // ---------------------------------------------------------------- evidence and required items

  /** An evidence entry: a screened chunk, or the limit text found for a matched item. */
  datatype Evidence =
    | Snippet(content: string, chunkId: string, score: real, pageNum: int, docName: string)
    | Indicator(item: string, content: string, extractedLimit: string, chunkId: string, pageNum: int, docName: string)

  function SnippetOf(g: Gated): Evidence {
    Snippet(g.chunk.content, g.chunk.chunkId, g.chunk.score, g.chunk.pageNum, g.chunk.docName)
  }

  /** A required inspection item with its source chunk; `requiredBasis` is set once the bases are unified. */
  datatype Required = Required(item: HtmlTableParser.Item, sourcePage: int, sourceChunkId: string, sourceScore: real, requiredBasis: Option<string>)

  /** An item tagged with the chunk it was found in. */
  function TagOf(g: Gated): HtmlTableParser.Item -> Required {
    (item: HtmlTableParser.Item) => Required(item, g.chunk.pageNum, g.chunk.chunkId, g.chunk.score, None)
  }

  /** The inspection items of one screened chunk's tables, tagged with their source. */
  function ChunkItems(soup: string -> Option<HtmlTableParser.RawTable>): Gated -> seq<Required> {
    (g: Gated) => Project(TagOf(g), Collect(HtmlTableParser.Expand, HtmlTableParser.Items(HtmlTableParser.ParsedTable(g.chunk.content, soup))))
  }

  /** The tagging loop over the items of one chunk. */
  method TagItems(items: seq<HtmlTableParser.Item>, g: Gated) returns (tagged: seq<Required>)
    ensures tagged == Project(TagOf(g), items)
  {
    tagged := [];
    for i := 0 to |items|
      invariant tagged == Project(TagOf(g), items[..i])
    {
      ProjectStep(TagOf(g), items, i);
      tagged := tagged + [Required(items[i], g.chunk.pageNum, g.chunk.chunkId, g.chunk.score, None)];
    }
    assert items[..|items|] == items;
  }

  /**
   * The evidence loop: every screened chunk becomes an evidence entry, and
   * the items of its tables, tagged with their source, are appended to the
   * required items.
   */
  method CollectEvidence(screened: seq<Gated>, soup: string -> Option<HtmlTableParser.RawTable>) returns (evidence: seq<Evidence>, required: seq<Required>)
    ensures evidence == Project(SnippetOf, screened)
    ensures required == Collect(ChunkItems(soup), screened)
  {
    evidence := [];
    required := [];
    for i := 0 to |screened|
      invariant evidence == Project(SnippetOf, screened[..i])
      invariant required == Collect(ChunkItems(soup), screened[..i])
    {
      var chunk := screened[i];
      ProjectStep(SnippetOf, screened, i);
      CollectStep(ChunkItems(soup), screened, i);
      evidence := evidence + [SnippetOf(chunk)];
      var parsedTables := HtmlTableParser.ParseTable(chunk.chunk.content, soup);
      var items := HtmlTableParser.FindInspectionItems(parsedTables);
      var tagged := TagItems(items, chunk);
      required := required + tagged;
    }
    assert screened[..|screened|] == screened;
  }

  /** Every required item comes from a screened chunk, tagged with that chunk's page, id and score. */
  lemma RequiredSource(screened: seq<Gated>, soup: string -> Option<HtmlTableParser.RawTable>, r: Required)
    requires r in Collect(ChunkItems(soup), screened)
    ensures exists g :: g in screened && r.sourcePage == g.chunk.pageNum && r.sourceChunkId == g.chunk.chunkId && r.sourceScore == g.chunk.score
    ensures r.requiredBasis.None?
  {
    CollectIn(ChunkItems(soup), screened, r);
    var i :| 0 <= i < |screened| && r in ChunkItems(soup)(screened[i]);
    assert screened[i] in screened;
  }

  // ---------------------------------------------------------------- dedup

  function NameOf(r: Required): string { r.item.name }

  /** The last validity check: a name of 2 to 50 characters. */
  predicate NameLengthOk(r: Required) { 2 <= |r.item.name| <= 50 }

  /**
   * The post-filter: the first item for each name, then only names of a
   * plausible length (an empty name fails the length check too).
   */
  function Deduped(items: seq<Required>): seq<Required> {
    Filter(NameLengthOk, FirstPerKey(NameOf, items))
  }

  /** One more item is kept exactly when its name is new and of a plausible length. */
  lemma DedupedSnoc(items: seq<Required>, x: Required)
    ensures Deduped(items + [x]) == if HasKey(NameOf, items, NameOf(x)) || !NameLengthOk(x) then Deduped(items) else Deduped(items) + [x]
  {
    FirstPerKeySnoc(NameOf, items, x);
    FilterSnoc(NameLengthOk, FirstPerKey(NameOf, items), x);
  }

  /**
   * The dedup loop: empty names are skipped without being remembered; a name
   * seen before is skipped; every other name is remembered, and its item is
   * kept when the name's length is plausible.
   */
  method DedupRequired(requiredItems: seq<Required>) returns (filteredItems: seq<Required>)
    ensures filteredItems == Deduped(requiredItems)
  {
    var seenNames: set<string> := {};
    filteredItems := [];
    for i := 0 to |requiredItems|
      invariant filteredItems == Deduped(requiredItems[..i])
      invariant forall n :: n in seenNames <==> n != [] && HasKey(NameOf, requiredItems[..i], n)
    {
      var item := requiredItems[i];
      var name := item.item.name;
      assert requiredItems[..i + 1] == requiredItems[..i] + [item];
      DedupedSnoc(requiredItems[..i], item);
      forall n ensures HasKey(NameOf, requiredItems[..i + 1], n) <==> HasKey(NameOf, requiredItems[..i], n) || name == n {
        HasKeySnoc(NameOf, requiredItems[..i], item, n);
      }
      if name == [] {
        continue;
      }
      if name in seenNames {
        continue;
      }
      seenNames := seenNames + {name};
      if |name| > 50 || |name| < 2 {
        continue;
      }
      filteredItems := filteredItems + [item];
    }
    assert requiredItems[..|requiredItems|] == requiredItems;
  }

  /** An item survives the post-filter exactly when it is the first with its name and the name has 2 to 50 characters. */
  lemma DedupedMember(items: seq<Required>, x: Required)
    ensures x in Deduped(items) <==> NameLengthOk(x) && exists i :: 0 <= i < |items| && items[i] == x && FirstOfKey(NameOf, items, i)
  {
    FilterIn(NameLengthOk, FirstPerKey(NameOf, items), x);
    if x in FirstPerKey(NameOf, items) {
      FirstPerKeyOnlyFirst(NameOf, items, x);
    }
    if exists i :: 0 <= i < |items| && items[i] == x && FirstOfKey(NameOf, items, i) {
      var i :| 0 <= i < |items| && items[i] == x && FirstOfKey(NameOf, items, i);
      FirstPerKeyKeeps(NameOf, items, i);
    }
  }

  /** No name survives twice. */
  lemma DedupedUnique(items: seq<Required>)
    ensures UniqueKeys(NameOf, Deduped(items))
  {
    FirstPerKeyUnique(NameOf, items);
    FilterUnique(NameLengthOk, NameOf, FirstPerKey(NameOf, items));
  }

  /** The post-filter keeps the order of the items. */
  lemma DedupedOrder(items: seq<Required>, i: nat, j: nat)
    requires i < j < |Deduped(items)|
    ensures exists a, b :: 0 <= a < b < |items| && items[a] == Deduped(items)[i] && items[b] == Deduped(items)[j]
  {
    var f := FirstPerKey(NameOf, items);
    FilterOrder(NameLengthOk, f, i, j);
    var a, b :| 0 <= a < b < |f| && f[a] == Deduped(items)[i] && f[b] == Deduped(items)[j];
    FirstPerKeyOrder(NameOf, items, a, b);
  }
  // ---------------------------------------------------------------- basis unification

  /** An item's `standard_basis`, stripped. */
  function BasisOf(r: Required): string {
    Strip(r.item.basis)
  }

  /** The non-empty texts `f` gives for the elements of `xs`. */
  function NonEmptyImages<T>(f: T -> string, xs: seq<T>): set<string> {
    if xs == [] then {}
    else
      var t := f(xs[|xs| - 1]);
      NonEmptyImages(f, xs[..|xs| - 1]) + if t != [] then {t} else {}
  }

  /** A text is among the images exactly when it is non-empty and some element gives it. */
  lemma {:induction false} NonEmptyImagesMember<T>(f: T -> string, xs: seq<T>, b: string)
    ensures b in NonEmptyImages(f, xs) <==> b != [] && exists i :: 0 <= i < |xs| && f(xs[i]) == b
    decreases |xs|
  {
    if xs != [] {
      var init := xs[..|xs| - 1];
      NonEmptyImagesMember(f, init, b);
      if exists i :: 0 <= i < |xs| && f(xs[i]) == b {
        var i :| 0 <= i < |xs| && f(xs[i]) == b;
        if i < |init| {
          assert init[i] == xs[i];
        }
      }
      if exists i :: 0 <= i < |init| && f(init[i]) == b {
        var i :| 0 <= i < |init| && f(init[i]) == b;
        assert init[i] == xs[i];
      }
    }
  }

  /** The stripped, non-empty `standard_basis` values of the items. */
  function AllBases(items: seq<Required>): set<string> {
    NonEmptyImages(BasisOf, items)
  }

  /** A basis is collected exactly when some item's stripped basis is that non-empty text. */
  lemma AllBasesMember(items: seq<Required>, b: string)
    ensures b in AllBases(items) <==> b != [] && exists i :: 0 <= i < |items| && BasisOf(items[i]) == b
  {
    NonEmptyImagesMember(BasisOf, items, b);
  }

  /** The loop collecting the set of bases. */
  method CollectBases(requiredItems: seq<Required>) returns (allBases: set<string>)
    ensures allBases == AllBases(requiredItems)
  {
    allBases := {};
    for i := 0 to |requiredItems|
      invariant allBases == AllBases(requiredItems[..i])
    {
      assert requiredItems[..i + 1][..i] == requiredItems[..i];
      var basis := Strip(requiredItems[i].item.basis);
      if basis != [] {
        allBases := allBases + {basis};
      }
    }
    assert requiredItems[..|requiredItems|] == requiredItems;
  }

  /** `re.match(r'GB\s*\d+', basis, re.IGNORECASE)`: "GB" in either case at the start, whitespace, then a digit. */
  predicate GbStart(b: string) {
    && |b| >= 2 && LowerChar(b[0]) == 'g' && LowerChar(b[1]) == 'b'
    && SpaceRunEnd(b, 2) < |b| && IsDigit(b[SpaceRunEnd(b, 2)])
  }

  /** `b` is a substring of a different basis. */
  predicate InsideOther(b: string, all: set<string>) {
    exists other :: other in all && other != b && Contains(other, b)
  }

  /** The bases kept: a complete GB code always, any other basis unless it is a fragment of a different one. */
  function KeptBases(all: set<string>): set<string> {
    set b | b in all && (GbStart(b) || !InsideOther(b, all))
  }

  /** The inner loop: is `basis` a substring of a different basis? Stops at the first one found. */
  method IsInsideOther(basis: string, allBases: set<string>) returns (isSubstring: bool)
    ensures isSubstring <==> InsideOther(basis, allBases)
  {
    var rest := allBases;
    while rest != {}
      invariant rest <= allBases
      invariant forall other :: other in allBases - rest ==> !(other != basis && Contains(other, basis))
      decreases |rest|
    {
      var other :| other in rest;
      if other != basis && Contains(other, basis) {
        return true;
      }
      rest := rest - {other};
    }
    return false;
  }

  /** The filtering loop over the set of bases. */
  method FilterBases(allBases: set<string>) returns (filteredBases: set<string>)
    ensures filteredBases == KeptBases(allBases)
  {
    filteredBases := {};
    var rest := allBases;
    while rest != {}
      invariant rest <= allBases
      invariant forall b :: b in filteredBases <==> b in allBases - rest && (GbStart(b) || !InsideOther(b, allBases))
      decreases |rest|
    {
      var basis :| basis in rest;
      if GbStart(basis) {
        filteredBases := filteredBases + {basis};
      } else {
        var isSubstring := IsInsideOther(basis, allBases);
        if !isSubstring {
          filteredBases := filteredBases + {basis};
        }
      }
      rest := rest - {basis};
    }
  }

  /** A substring of a different string is strictly shorter. */
  lemma InsideShorter(b: string, other: string)
    requires other != b && Contains(other, b)
    ensures |b| < |other|
  {
    var i :| 0 <= i <= |other| - |b| && OccursAt(other, b, i);
  }

  /** A basis of greatest length is never a fragment of another, so some basis is always kept. */
  lemma KeptNonEmpty(all: set<string>)
    requires all != {}
    ensures KeptBases(all) != {}
  {
    var longest := Longest(all);
    if InsideOther(longest, all) {
      var other :| other in all && other != longest && Contains(other, longest);
      InsideShorter(longest, other);
      assert false;
    }
    assert longest in KeptBases(all);
  }

  /** An element of greatest length. */
  lemma {:induction false} Longest(all: set<string>) returns (m: string)
    requires all != {}
    ensures m in all && forall x :: x in all ==> |x| <= |m|
    decreases |all|
  {
    var x :| x in all;
    if all == {x} {
      m := x;
    } else {
      var m' := Longest(all - {x});
      m := if |x| <= |m'| then m' else x;
    }
  }

  // ---------------------------------------------------------------- sorting strings

  /** Python's order on strings: lexicographic by code point, a prefix first. */
  predicate Below(a: string, b: string)
    decreases |a|
  {
    a == [] || (b != [] && (a[0] < b[0] || (a[0] == b[0] && Below(a[1..], b[1..]))))
  }

  lemma {:induction false} BelowTotal(a: string, b: string)
    ensures Below(a, b) || Below(b, a)
    decreases |a|
  {
    if a != [] && b != [] && a[0] == b[0] {
      BelowTotal(a[1..], b[1..]);
    }
  }

  lemma {:induction false} BelowAntisymmetric(a: string, b: string)
    requires Below(a, b) && Below(b, a)
    ensures a == b
    decreases |a|
  {
    if a != [] {
      BelowAntisymmetric(a[1..], b[1..]);
      assert a == [a[0]] + a[1..] && b == [b[0]] + b[1..];
    }
  }

  lemma {:induction false} BelowTransitive(a: string, b: string, c: string)
    requires Below(a, b) && Below(b, c)
    ensures Below(a, c)
    decreases |a|
  {
    if a != [] && a[0] == b[0] && b[0] == c[0] {
      BelowTransitive(a[1..], b[1..], c[1..]);
    }
  }

  predicate IsLeast(m: string, s: set<string>) {
    forall x :: x in s ==> Below(m, x)
  }

  lemma {:induction false} LeastExists(s: set<string>)
    requires s != {}
    ensures exists m :: m in s && IsLeast(m, s)
    decreases |s|
  {
    var x :| x in s;
    if s == {x} {
      assert IsLeast(x, s) by {
        BelowTotal(x, x);
      }
    } else {
      LeastExists(s - {x});
      var m :| m in s - {x} && IsLeast(m, s - {x});
      BelowTotal(x, m);
      if Below(x, m) {
        forall y | y in s ensures Below(x, y) {
          if y != x {
            BelowTransitive(x, m, y);
          } else {
            BelowTotal(x, x);
          }
        }
      } else {
        assert Below(m, x);
      }
    }
  }

  lemma LeastUnique(s: set<string>)
    ensures forall a, b :: a in s && IsLeast(a, s) && b in s && IsLeast(b, s) ==> a == b
  {
    forall a, b | a in s && IsLeast(a, s) && b in s && IsLeast(b, s) ensures a == b {
      BelowAntisymmetric(a, b);
    }
  }

  predicate Ascending(r: seq<string>) {
    forall i, j :: 0 <= i < j < |r| ==> Below(r[i], r[j])
  }

  /** Python `sorted(s)` of a set of strings. */
  function SortedSet(s: set<string>): seq<string>
    decreases |s|
  {
    if s == {} then []
    else
      LeastExists(s);
      LeastUnique(s);
      var m :| m in s && IsLeast(m, s);
      [m] + SortedSet(s - {m})
  }

  /** The least element comes first, then the rest sorted. */
  lemma SortedSetFirst(s: set<string>, m: string)
    requires m in s && IsLeast(m, s)
    ensures SortedSet(s) == [m] + SortedSet(s - {m})
  {
    LeastUnique(s);
  }

  /** Sorting keeps exactly the elements of the set, each once. */
  lemma {:induction false} SortedSetMember(s: set<string>)
    ensures |SortedSet(s)| == |s|
    ensures forall x :: x in SortedSet(s) <==> x in s
    decreases |s|
  {
    if s != {} {
      LeastExists(s);
      var m :| m in s && IsLeast(m, s);
      SortedSetFirst(s, m);
      SortedSetMember(s - {m});
    }
  }

  /** `sorted` gives the elements in ascending order. */
  lemma {:induction false} SortedSetAscending(s: set<string>)
    ensures Ascending(SortedSet(s))
    decreases |s|
  {
    if s != {} {
      LeastExists(s);
      var m :| m in s && IsLeast(m, s);
      SortedSetFirst(s, m);
      var rest := SortedSet(s - {m});
      SortedSetAscending(s - {m});
      SortedSetMember(s - {m});
      var r := [m] + rest;
      forall i, j | 0 <= i < j < |r| ensures Below(r[i], r[j]) {
        if i == 0 {
          assert r[j] == rest[j - 1] && rest[j - 1] in rest;
        } else {
          assert r[i] == rest[i - 1] && r[j] == rest[j - 1];
        }
      }
    }
  }

  /** The unified basis: the kept bases, sorted and joined by spaces ("" when none is kept). */
  function UnifiedBasis(items: seq<Required>): string {
    Join(SortedSet(KeptBases(AllBases(items))), " ")
  }

  /** Every item takes the same unified basis. */
  function WithBasis(unified: string): Required -> Required {
    (r: Required) => r.(requiredBasis := Some(unified))
  }

  /**
   * Basis unification: the bases are collected and filtered, the kept ones
   * sorted and joined, and every required item takes the result as its
   * `required_basis`.
   */
  method UnifyBasis(requiredItems: seq<Required>) returns (unified: string, unifiedItems: seq<Required>)
    ensures unified == UnifiedBasis(requiredItems)
    ensures unifiedItems == Project(WithBasis(unified), requiredItems)
  {
    var allBases := CollectBases(requiredItems);
    var filteredBases := FilterBases(allBases);
    unified := if filteredBases != {} then Join(SortedSet(filteredBases), " ") else "";
    unifiedItems := [];
    for i := 0 to |requiredItems|
      invariant unifiedItems == Project(WithBasis(unified), requiredItems[..i])
    {
      ProjectStep(WithBasis(unified), requiredItems, i);
      unifiedItems := unifiedItems + [requiredItems[i].(requiredBasis := Some(unified))];
    }
    assert requiredItems[..|requiredItems|] == requiredItems;
  }

  /** A part of a join occurs in the joined text. */
  lemma {:induction false} JoinContains(parts: seq<string>, sep: string, k: nat)
    requires k < |parts|
    ensures Contains(Join(parts, sep), parts[k])
    decreases |parts|
  {
    var r := Join(parts, sep);
    if |parts| == 1 {
      ContainsSelf(r);
    } else if k == 0 {
      assert r == parts[0] + (sep + Join(parts[1..], sep));
      assert OccursAt(r, parts[0], 0);
    } else {
      JoinContains(parts[1..], sep, k - 1);
      var tail := Join(parts[1..], sep);
      assert r == (parts[0] + sep) + tail;
      var i :| 0 <= i <= |tail| - |parts[k]| && OccursAt(tail, parts[k], i);
      assert OccursAt(r, parts[k], |parts[0] + sep| + i) by {
        assert r[|parts[0] + sep| + i..|parts[0] + sep| + i + |parts[k]|] == tail[i..i + |parts[k]|];
      }
    }
  }

  /**
   * Every complete GB code among the bases, and every basis that is no
   * fragment of another, occurs in the unified basis; and the unified basis is
   * empty only when no item has a basis.
   */
  lemma UnifiedBasisCovers(items: seq<Required>, b: string)
    requires b in AllBases(items) && (GbStart(b) || !InsideOther(b, AllBases(items)))
    ensures Contains(UnifiedBasis(items), b)
  {
    var sorted := SortedSet(KeptBases(AllBases(items)));
    SortedSetMember(KeptBases(AllBases(items)));
    assert b in sorted;
    var k :| 0 <= k < |sorted| && sorted[k] == b;
    JoinContains(sorted, " ", k);
  }

  /** Some item with a non-blank basis makes the unified basis non-empty. */
  lemma UnifiedBasisNonEmpty(items: seq<Required>, i: nat)
    requires i < |items| && BasisOf(items[i]) != []
    ensures UnifiedBasis(items) != []
  {
    var all := AllBases(items);
    AllBasesMember(items, BasisOf(items[i]));
    KeptNonEmpty(all);
    var kept := KeptBases(all);
    var b :| b in kept;
    AllBasesMember(items, b);
    var sorted := SortedSet(kept);
    SortedSetMember(kept);
    var k :| 0 <= k < |sorted| && sorted[k] == b;
    JoinContains(sorted, " ", k);
    var j :| 0 <= j <= |UnifiedBasis(items)| - |b| && OccursAt(UnifiedBasis(items), b, j);
  }
  // ---------------------------------------------------------------- report and required maps

  /** A report item: its `item`, `name` and `item_name` keys, its `method` and its `value` (a missing key reads as ""). */
  datatype ReportItem = ReportItem(item: string, name: string, itemName: string, testMethod: string, value: string)

  /** `item.get("item") or item.get("name") or item.get("item_name")`. */
  function ReportName(r: ReportItem): string {
    if r.item != [] then r.item else if r.name != [] then r.name else r.itemName
  }

  /** The assignment a report item makes in `report_map`: none when it has no name. */
  function ReportEntry(r: ReportItem): Option<(string, ReportItem)> {
    var name := ReportName(r);
    if name == [] then None else Some((name, r))
  }

  /** The loop building `report_map`: each named item is assigned under its name. */
  method BuildReportMap(reportItems: seq<ReportItem>) returns (reportMap: Dict<string, ReportItem>)
    ensures reportMap == PutEach(ReportEntry, reportItems)
  {
    reportMap := [];
    for i := 0 to |reportItems|
      invariant reportMap == PutEach(ReportEntry, reportItems[..i])
    {
      PutEachStep(ReportEntry, reportItems, i);
      var item := reportItems[i];
      var name := if item.item != [] then item.item else if item.name != [] then item.name else item.itemName;
      if name != [] {
        reportMap := Put(reportMap, name, item);
      }
    }
    assert reportItems[..|reportItems|] == reportItems;
  }

  /** `report_map` lists each report name once, at the position of its first item. */
  lemma ReportMapKeys(reportItems: seq<ReportItem>)
    ensures Keys(PutEach(ReportEntry, reportItems)) == Distinct(EntryKeys(ReportEntry, reportItems))
  {
    PutEachKeys(ReportEntry, reportItems);
  }

  /** A repeated report name reads the last item with that name. */
  lemma ReportMapLast(reportItems: seq<ReportItem>, i: nat)
    requires i < |reportItems| && ReportName(reportItems[i]) != []
    requires forall j :: i < j < |reportItems| ==> ReportName(reportItems[j]) != ReportName(reportItems[i])
    ensures Get(PutEach(ReportEntry, reportItems), ReportName(reportItems[i])) == Some(reportItems[i])
  {
    PutEachLast(ReportEntry, reportItems, i);
  }

  /** The assignment a required item makes in `req_map`: none when it has no name. */
  function RequiredEntry(r: Required): Option<(string, Required)> {
    if NameOf(r) == [] then None else Some((NameOf(r), r))
  }

  /** The loop building `req_map`. */
  method BuildRequiredMap(requiredItems: seq<Required>) returns (reqMap: Dict<string, Required>)
    ensures reqMap == PutEach(RequiredEntry, requiredItems)
  {
    reqMap := [];
    for i := 0 to |requiredItems|
      invariant reqMap == PutEach(RequiredEntry, requiredItems[..i])
    {
      PutEachStep(RequiredEntry, requiredItems, i);
      var item := requiredItems[i];
      var name := item.item.name;
      if name != [] {
        reqMap := Put(reqMap, name, item);
      }
    }
    assert requiredItems[..|requiredItems|] == requiredItems;
  }

  /** After the post-filter the names are distinct and non-empty, so `req_map` holds every item under its own name, in order. */
  lemma RequiredMapPairs(items: seq<Required>)
    requires UniqueKeys(NameOf, items)
    requires forall i :: 0 <= i < |items| ==> NameOf(items[i]) != []
    ensures |PutEach(RequiredEntry, items)| == |items|
    ensures forall i :: 0 <= i < |items| ==> PutEach(RequiredEntry, items)[i] == (NameOf(items[i]), items[i])
  {
    PutEachPairs(RequiredEntry, items);
  }

  // ---------------------------------------------------------------- matching

  /** The report names the item-name fuzzy match accepts for one required name. */
  function AcceptsFor(reqName: string): string -> bool {
    (reportName: string) => FuzzyMatchItemName(reportName, reqName)
  }

  /** The position of the first entry at or after `from` whose name `accepts` takes. */
  function FirstMatch<V>(d: Dict<string, V>, accepts: string -> bool, from: nat): (r: Option<nat>)
    requires from <= |d|
    ensures r.Some? ==> from <= r.value < |d| && accepts(d[r.value].0)
    ensures forall j :: from <= j < |d| && (r.None? || j < r.value) ==> !accepts(d[j].0)
    decreases |d| - from
  {
    if from == |d| then None else if accepts(d[from].0) then Some(from) else FirstMatch(d, accepts, from + 1)
  }

  /** The inner loop over `report_map`: stops at the first report name that matches. */
  method FindReportMatch(reportMap: Dict<string, ReportItem>, reqName: string) returns (found: Option<nat>)
    ensures found == FirstMatch(reportMap, AcceptsFor(reqName), 0)
  {
    found := None;
    var k := 0;
    while k < |reportMap|
      invariant k <= |reportMap|
      invariant FirstMatch(reportMap, AcceptsFor(reqName), 0) == FirstMatch(reportMap, AcceptsFor(reqName), k)
    {
      if FuzzyMatchItemName(reportMap[k].0, reqName) {
        found := Some(k);
        return;
      }
      k := k + 1;
    }
  }

  /** A matched pair: the required name, the report's name for it, both methods and the item's own basis. */
  datatype MatchInfo = MatchInfo(name: string, reportName: string, reportMethod: string, requiredMethod: string, requiredBasis: string)

  /** "检测方法不一致": the required method and the method the report gives. */
  datatype MethodIssue = MethodIssue(item: string, expected: string, actual: string)

  /** "判定依据未在报告中引用": the required basis and the report's GB codes. */
  datatype BasisIssue = BasisIssue(item: string, expected: string, actual: seq<string>)

  /** What one required item comes to: a match with its issues, or a missing name. */
  datatype Pairing =
    | Matched(info: MatchInfo, methodIssue: Option<MethodIssue>, basisIssue: Option<BasisIssue>)
    | Missing(name: string)

  /** Both methods are given, and after whitespace removal the report's does not fuzzy-match the required one. */
  predicate MethodConflict(reportMethod: string, requiredMethod: string) {
    requiredMethod != [] && NormalizeName(reportMethod) != [] && !FuzzyMatchMethod(NormalizeName(reportMethod), requiredMethod)
  }

  /** Some GB code of the report fuzzy-matches the basis. */
  predicate BasisCited(codes: seq<string>, basis: string) {
    exists k :: 0 <= k < |codes| && FuzzyMatchMethod(codes[k], basis)
  }

  /** A basis naming the product's declared or enterprise standard, which is not checked against the report. */
  predicate ProductStandard(basis: string) {
    Contains(basis, "明示") || Contains(basis, "企业标准")
  }

  /** A basis is given, no report code cites it, and it is not a product standard. */
  predicate BasisUncited(codes: seq<string>, basis: string) {
    basis != [] && !BasisCited(codes, basis) && !ProductStandard(basis)
  }

  /** One required item paired with the first report name that matches it. */
  function PairOf(reportMap: Dict<string, ReportItem>, codes: seq<string>, reqName: string, req: Required): Pairing {
    match FirstMatch(reportMap, AcceptsFor(reqName), 0)
    case None => Missing(reqName)
    case Some(k) =>
      var reportItem := reportMap[k].1;
      var info := MatchInfo(reqName, reportMap[k].0, reportItem.testMethod, req.item.testMethod, req.item.basis);
      Matched(info,
        if MethodConflict(info.reportMethod, info.requiredMethod) then Some(MethodIssue(reqName, info.requiredMethod, info.reportMethod)) else None,
        if BasisUncited(codes, info.requiredBasis) then Some(BasisIssue(reqName, info.requiredBasis, codes)) else None)
  }

  function PairWith(reportMap: Dict<string, ReportItem>, codes: seq<string>): ((string, Required)) -> Pairing {
    (e: (string, Required)) => PairOf(reportMap, codes, e.0, e.1)
  }

  /** Every required entry's pairing, in `req_map` order. */
  function Pairings(reportMap: Dict<string, ReportItem>, codes: seq<string>, reqMap: Dict<string, Required>): seq<Pairing> {
    Project(PairWith(reportMap, codes), reqMap)
  }

  function MatchedOf(p: Pairing): seq<MatchInfo> {
    if p.Matched? then [p.info] else []
  }

  function MissingOf(p: Pairing): seq<string> {
    if p.Missing? then [p.name] else []
  }

  function MethodIssuesOf(p: Pairing): seq<MethodIssue> {
    if p.Matched? && p.methodIssue.Some? then [p.methodIssue.value] else []
  }

  function BasisIssuesOf(p: Pairing): seq<BasisIssue> {
    if p.Matched? && p.basisIssue.Some? then [p.basisIssue.value] else []
  }

  /** The loop over the report's GB codes: stops at the first that fuzzy-matches the basis. */
  method FindBasis(reportGbCodes: seq<string>, reqBasisRaw: string) returns (foundBasis: bool)
    ensures foundBasis == BasisCited(reportGbCodes, reqBasisRaw)
  {
    foundBasis := false;
    for k := 0 to |reportGbCodes|
      invariant forall j :: 0 <= j < k ==> !FuzzyMatchMethod(reportGbCodes[j], reqBasisRaw)
    {
      if FuzzyMatchMethod(reportGbCodes[k], reqBasisRaw) {
        foundBasis := true;
        return;
      }
    }
  }

  /**
   * The matching loop over `req_map`: each required item is paired with the
   * first matching report name, then its method and its own basis are checked;
   * an item without a match is missing.
   */
  /** The body of the pairing loop for one required entry: its first match, then the method and basis checks. */
  method PairOne(reportMap: Dict<string, ReportItem>, reportGbCodes: seq<string>, reqName: string, reqItem: Required) returns (p: Pairing)
    ensures p == PairOf(reportMap, reportGbCodes, reqName, reqItem)
  {
    var found := FindReportMatch(reportMap, reqName);
    if found.None? {
      return Missing(reqName);
    }
    var matchInfo := MatchInfo(reqName, reportMap[found.value].0, reportMap[found.value].1.testMethod, reqItem.item.testMethod, reqItem.item.basis);
    var methodIssue: Option<MethodIssue> := None;
    var repMethod := NormalizeName(matchInfo.reportMethod);
    var reqMethodRaw := matchInfo.requiredMethod;
    if reqMethodRaw != [] && repMethod != [] {
      if !FuzzyMatchMethod(repMethod, reqMethodRaw) {
        methodIssue := Some(MethodIssue(reqName, reqMethodRaw, reportMap[found.value].1.testMethod));
      }
    }
    var basisIssue: Option<BasisIssue> := None;
    var reqBasisRaw := matchInfo.requiredBasis;
    if reqBasisRaw != [] {
      var foundBasis := FindBasis(reportGbCodes, reqBasisRaw);
      if !foundBasis && !Contains(reqBasisRaw, "明示") && !Contains(reqBasisRaw, "企业标准") {
        basisIssue := Some(BasisIssue(reqName, reqBasisRaw, reportGbCodes));
      }
    }
    p := Matched(matchInfo, methodIssue, basisIssue);
  }

  method PairItems(reportMap: Dict<string, ReportItem>, reqMap: Dict<string, Required>, reportGbCodes: seq<string>)
    returns (matched: seq<MatchInfo>, missing: seq<string>, methodIssues: seq<MethodIssue>, basisIssues: seq<BasisIssue>)
    ensures matched == Collect(MatchedOf, Pairings(reportMap, reportGbCodes, reqMap))
    ensures missing == Collect(MissingOf, Pairings(reportMap, reportGbCodes, reqMap))
    ensures methodIssues == Collect(MethodIssuesOf, Pairings(reportMap, reportGbCodes, reqMap))
    ensures basisIssues == Collect(BasisIssuesOf, Pairings(reportMap, reportGbCodes, reqMap))
  {
    matched, missing, methodIssues, basisIssues := [], [], [], [];
    for i := 0 to |reqMap|
      invariant matched == Collect(MatchedOf, Pairings(reportMap, reportGbCodes, reqMap[..i]))
      invariant missing == Collect(MissingOf, Pairings(reportMap, reportGbCodes, reqMap[..i]))
      invariant methodIssues == Collect(MethodIssuesOf, Pairings(reportMap, reportGbCodes, reqMap[..i]))
      invariant basisIssues == Collect(BasisIssuesOf, Pairings(reportMap, reportGbCodes, reqMap[..i]))
    {
      var p := PairingsStep(reportMap, reportGbCodes, reqMap, i);
      var pairing := PairOne(reportMap, reportGbCodes, reqMap[i].0, reqMap[i].1);
      if pairing.Matched? {
        matched := matched + [pairing.info];
        if pairing.methodIssue.Some? {
          methodIssues := methodIssues + [pairing.methodIssue.value];
        }
        if pairing.basisIssue.Some? {
          basisIssues := basisIssues + [pairing.basisIssue.value];
        }
      } else {
        missing := missing + [pairing.name];
      }
    }
    assert reqMap[..|reqMap|] == reqMap;
  }

  /** One more required entry adds its own pairing's pieces to each list. */
  lemma PairingsStep(reportMap: Dict<string, ReportItem>, codes: seq<string>, reqMap: Dict<string, Required>, i: nat) returns (p: Pairing)
    requires i < |reqMap|
    ensures p == PairOf(reportMap, codes, reqMap[i].0, reqMap[i].1)
    ensures Pairings(reportMap, codes, reqMap[..i + 1]) == Pairings(reportMap, codes, reqMap[..i]) + [p]
    ensures Collect(MatchedOf, Pairings(reportMap, codes, reqMap[..i + 1])) == Collect(MatchedOf, Pairings(reportMap, codes, reqMap[..i])) + MatchedOf(p)
    ensures Collect(MissingOf, Pairings(reportMap, codes, reqMap[..i + 1])) == Collect(MissingOf, Pairings(reportMap, codes, reqMap[..i])) + MissingOf(p)
    ensures Collect(MethodIssuesOf, Pairings(reportMap, codes, reqMap[..i + 1])) == Collect(MethodIssuesOf, Pairings(reportMap, codes, reqMap[..i])) + MethodIssuesOf(p)
    ensures Collect(BasisIssuesOf, Pairings(reportMap, codes, reqMap[..i + 1])) == Collect(BasisIssuesOf, Pairings(reportMap, codes, reqMap[..i])) + BasisIssuesOf(p)
  {
    p := PairOf(reportMap, codes, reqMap[i].0, reqMap[i].1);
    var ps := Pairings(reportMap, codes, reqMap[..i]);
    assert reqMap[..i + 1] == reqMap[..i] + [reqMap[i]];
    ProjectSnoc(PairWith(reportMap, codes), reqMap[..i], reqMap[i]);
    CollectSnoc(MatchedOf, ps, p);
    CollectSnoc(MissingOf, ps, p);
    CollectSnoc(MethodIssuesOf, ps, p);
    CollectSnoc(BasisIssuesOf, ps, p);
  }
  /** Some required name fuzzy-matches the report name. */
  predicate AnyRequiredMatches(reqMap: Dict<string, Required>, repName: string) {
    exists j :: 0 <= j < |reqMap| && FuzzyMatchItemName(repName, reqMap[j].0)
  }

  function Unrequired(reqMap: Dict<string, Required>): string -> bool {
    (repName: string) => !AnyRequiredMatches(reqMap, repName)
  }

  /** The report names no required name matches, in `report_map` order. */
  function Extra(reportMap: Dict<string, ReportItem>, reqMap: Dict<string, Required>): seq<string> {
    Filter(Unrequired(reqMap), Keys(reportMap))
  }

  /** Does a required name match the report name `repName`? */
  function MatchesReport(repName: string): string -> bool {
    (reqName: string) => FuzzyMatchItemName(repName, reqName)
  }

  /** The inner loop over `req_map`: stops at the first required name that matches. */
  method MatchesSomeRequired(repName: string, reqMap: Dict<string, Required>) returns (isMatched: bool)
    ensures isMatched == AnyRequiredMatches(reqMap, repName)
  {
    isMatched := false;
    var j := 0;
    while j < |reqMap|
      invariant j <= |reqMap|
      invariant FirstMatch(reqMap, MatchesReport(repName), 0) == FirstMatch(reqMap, MatchesReport(repName), j)
    {
      if FuzzyMatchItemName(repName, reqMap[j].0) {
        isMatched := true;
        return;
      }
      j := j + 1;
    }
    FirstMatchNone(reqMap, MatchesReport(repName));
  }

  /** The loop collecting `extra_items`. */
  method FindExtra(reportMap: Dict<string, ReportItem>, reqMap: Dict<string, Required>) returns (extra: seq<string>)
    ensures extra == Extra(reportMap, reqMap)
  {
    extra := [];
    var names := Keys(reportMap);
    for i := 0 to |names|
      invariant extra == Filter(Unrequired(reqMap), names[..i])
    {
      var repName := names[i];
      FilterStep(Unrequired(reqMap), names, i);
      var isMatched := MatchesSomeRequired(repName, reqMap);
      if !isMatched {
        extra := extra + [repName];
      }
    }
    assert names[..|names|] == names;
  }

  /** A required name is missing exactly when it is in `req_map` and no report name matches it. */
  lemma MissingMember(reportMap: Dict<string, ReportItem>, codes: seq<string>, reqMap: Dict<string, Required>, n: string)
    ensures n in Collect(MissingOf, Pairings(reportMap, codes, reqMap)) <==>
      n in Keys(reqMap) && forall k :: 0 <= k < |reportMap| ==> !FuzzyMatchItemName(reportMap[k].0, n)
  {
    var ps := Pairings(reportMap, codes, reqMap);
    var none := FirstMatch(reportMap, AcceptsFor(n), 0).None?;
    CollectIn(MissingOf, ps, n);
    FirstMatchNone(reportMap, AcceptsFor(n));
    forall i | 0 <= i < |ps| ensures n in MissingOf(ps[i]) <==> reqMap[i].0 == n && none {
      PairOfMissing(reportMap, codes, reqMap[i].0, reqMap[i].1);
    }
    if none && n in Keys(reqMap) {
      var i :| 0 <= i < |reqMap| && Keys(reqMap)[i] == n;
      assert n in MissingOf(ps[i]);
    }
  }

  /** An entry's pairing is missing exactly when no report name matches. */
  lemma PairOfMissing(reportMap: Dict<string, ReportItem>, codes: seq<string>, reqName: string, req: Required)
    ensures MissingOf(PairOf(reportMap, codes, reqName, req)) == if FirstMatch(reportMap, AcceptsFor(reqName), 0).None? then [reqName] else []
  {
  }

  /** No entry is accepted exactly when the search finds none. */
  lemma FirstMatchNone<V>(d: Dict<string, V>, accepts: string -> bool)
    ensures FirstMatch(d, accepts, 0).None? <==> forall k :: 0 <= k < |d| ==> !accepts(d[k].0)
  {
  }

  /**
   * Every match pairs a required name with the first report name that
   * fuzzy-matches it, taking the report item's method and the required item's
   * own method and basis.
   */
  lemma MatchedFirst(reportMap: Dict<string, ReportItem>, codes: seq<string>, reqMap: Dict<string, Required>, info: MatchInfo)
    requires info in Collect(MatchedOf, Pairings(reportMap, codes, reqMap))
    ensures exists i, k :: 0 <= i < |reqMap| && 0 <= k < |reportMap| && MatchFrom(reportMap, reqMap[i], k, info)
  {
    var ps := Pairings(reportMap, codes, reqMap);
    CollectIn(MatchedOf, ps, info);
    var i :| 0 <= i < |ps| && info in MatchedOf(ps[i]);
    var k := FirstMatch(reportMap, AcceptsFor(reqMap[i].0), 0).value;
    assert AcceptsFor(reqMap[i].0)(reportMap[k].0);
    assert forall j :: 0 <= j < k ==> !AcceptsFor(reqMap[i].0)(reportMap[j].0);
    assert MatchFrom(reportMap, reqMap[i], k, info);
  }

  /** `info` pairs the required entry with report entry `k`, the first report name that matches. */
  predicate MatchFrom(reportMap: Dict<string, ReportItem>, req: (string, Required), k: nat, info: MatchInfo)
    requires k < |reportMap|
  {
    && info == MatchInfo(req.0, reportMap[k].0, reportMap[k].1.testMethod, req.1.item.testMethod, req.1.item.basis)
    && FuzzyMatchItemName(reportMap[k].0, req.0)
    && forall j :: 0 <= j < k ==> !FuzzyMatchItemName(reportMap[j].0, req.0)
  }

  /** Every required entry is either matched or missing, never both. */
  lemma {:induction false} MatchedMissingCount(reportMap: Dict<string, ReportItem>, codes: seq<string>, reqMap: Dict<string, Required>)
    ensures |Collect(MatchedOf, Pairings(reportMap, codes, reqMap))| + |Collect(MissingOf, Pairings(reportMap, codes, reqMap))| == |reqMap|
    decreases |reqMap|
  {
    if reqMap != [] {
      var n := |reqMap| - 1;
      var p := PairingsStep(reportMap, codes, reqMap, n);
      MatchedMissingCount(reportMap, codes, reqMap[..n]);
      assert reqMap[..n + 1] == reqMap;
      var ps := Pairings(reportMap, codes, reqMap[..n]);
      var matched := Collect(MatchedOf, ps);
      var missing := Collect(MissingOf, ps);
      assert Collect(MatchedOf, Pairings(reportMap, codes, reqMap)) == matched + MatchedOf(p);
      assert Collect(MissingOf, Pairings(reportMap, codes, reqMap)) == missing + MissingOf(p);
      assert |MatchedOf(p)| + |MissingOf(p)| == 1;
    }
  }

  /** A report name listed as extra is never the report name of a match. */
  lemma ExtraNeverMatched(reportMap: Dict<string, ReportItem>, codes: seq<string>, reqMap: Dict<string, Required>, info: MatchInfo)
    requires info in Collect(MatchedOf, Pairings(reportMap, codes, reqMap))
    ensures info.reportName !in Extra(reportMap, reqMap)
  {
    MatchedFirst(reportMap, codes, reqMap, info);
    var i, k :| 0 <= i < |reqMap| && 0 <= k < |reportMap| && MatchFrom(reportMap, reqMap[i], k, info);
    assert AnyRequiredMatches(reqMap, info.reportName);
    FilterIn(Unrequired(reqMap), Keys(reportMap), info.reportName);
  }

  /** A report name is extra exactly when it is in `report_map` and matches no required name. */
  lemma ExtraMember(reportMap: Dict<string, ReportItem>, reqMap: Dict<string, Required>, n: string)
    ensures n in Extra(reportMap, reqMap) <==> n in Keys(reportMap) && forall j :: 0 <= j < |reqMap| ==> !FuzzyMatchItemName(n, reqMap[j].0)
  {
    FilterIn(Unrequired(reqMap), Keys(reportMap), n);
  }

  /** A pairing's issues are the ones its match calls for. */
  predicate IssuesAgree(codes: seq<string>, p: Pairing) {
    p.Matched? ==>
      && MethodIssuesOf(p) == (if MethodConflict(p.info.reportMethod, p.info.requiredMethod) then [MethodIssue(p.info.name, p.info.requiredMethod, p.info.reportMethod)] else [])
      && BasisIssuesOf(p) == (if BasisUncited(codes, p.info.requiredBasis) then [BasisIssue(p.info.name, p.info.requiredBasis, codes)] else [])
  }

  lemma PairingsAgree(reportMap: Dict<string, ReportItem>, codes: seq<string>, reqMap: Dict<string, Required>)
    ensures forall p :: p in Pairings(reportMap, codes, reqMap) ==> IssuesAgree(codes, p)
  {
  }

  /**
   * A method issue is recorded exactly for a match whose two methods are both
   * given and do not fuzzy-match; it carries the required and the report's
   * method.
   */
  lemma MethodIssueMember(reportMap: Dict<string, ReportItem>, codes: seq<string>, reqMap: Dict<string, Required>, info: MatchInfo)
    requires info in Collect(MatchedOf, Pairings(reportMap, codes, reqMap))
    ensures MethodIssue(info.name, info.requiredMethod, info.reportMethod) in Collect(MethodIssuesOf, Pairings(reportMap, codes, reqMap))
      <==> MethodConflict(info.reportMethod, info.requiredMethod)
  {
    PairingsAgree(reportMap, codes, reqMap);
    MethodIssueIn(codes, Pairings(reportMap, codes, reqMap), info);
  }

  lemma MethodIssueIn(codes: seq<string>, ps: seq<Pairing>, info: MatchInfo)
    requires forall p :: p in ps ==> IssuesAgree(codes, p)
    requires info in Collect(MatchedOf, ps)
    ensures MethodIssue(info.name, info.requiredMethod, info.reportMethod) in Collect(MethodIssuesOf, ps)
      <==> MethodConflict(info.reportMethod, info.requiredMethod)
  {
    var mi := MethodIssue(info.name, info.requiredMethod, info.reportMethod);
    CollectIn(MatchedOf, ps, info);
    CollectIn(MethodIssuesOf, ps, mi);
    var i :| 0 <= i < |ps| && info in MatchedOf(ps[i]);
    assert ps[i] in ps;
    if mi in Collect(MethodIssuesOf, ps) {
      var j :| 0 <= j < |ps| && mi in MethodIssuesOf(ps[j]);
      assert ps[j] in ps;
    }
  }

  /** Every method issue belongs to a match with conflicting methods. */
  lemma MethodIssueOrigin(reportMap: Dict<string, ReportItem>, codes: seq<string>, reqMap: Dict<string, Required>, mi: MethodIssue)
    requires mi in Collect(MethodIssuesOf, Pairings(reportMap, codes, reqMap))
    ensures exists info :: info in Collect(MatchedOf, Pairings(reportMap, codes, reqMap)) && mi == MethodIssue(info.name, info.requiredMethod, info.reportMethod) && MethodConflict(info.reportMethod, info.requiredMethod)
  {
    PairingsAgree(reportMap, codes, reqMap);
    MethodIssueFrom(codes, Pairings(reportMap, codes, reqMap), mi);
  }

  lemma MethodIssueFrom(codes: seq<string>, ps: seq<Pairing>, mi: MethodIssue)
    requires forall p :: p in ps ==> IssuesAgree(codes, p)
    requires mi in Collect(MethodIssuesOf, ps)
    ensures exists info :: info in Collect(MatchedOf, ps) && mi == MethodIssue(info.name, info.requiredMethod, info.reportMethod) && MethodConflict(info.reportMethod, info.requiredMethod)
  {
    CollectIn(MethodIssuesOf, ps, mi);
    var j :| 0 <= j < |ps| && mi in MethodIssuesOf(ps[j]);
    assert ps[j] in ps;
    CollectIn(MatchedOf, ps, ps[j].info);
    assert ps[j].info in MatchedOf(ps[j]);
  }

  /**
   * A basis issue is recorded exactly for a match whose own basis is given,
   * cited by no report code, and names no product or enterprise standard.
   */
  lemma BasisIssueMember(reportMap: Dict<string, ReportItem>, codes: seq<string>, reqMap: Dict<string, Required>, info: MatchInfo)
    requires info in Collect(MatchedOf, Pairings(reportMap, codes, reqMap))
    ensures BasisIssue(info.name, info.requiredBasis, codes) in Collect(BasisIssuesOf, Pairings(reportMap, codes, reqMap))
      <==> BasisUncited(codes, info.requiredBasis)
  {
    PairingsAgree(reportMap, codes, reqMap);
    BasisIssueIn(codes, Pairings(reportMap, codes, reqMap), info);
  }

  lemma BasisIssueIn(codes: seq<string>, ps: seq<Pairing>, info: MatchInfo)
    requires forall p :: p in ps ==> IssuesAgree(codes, p)
    requires info in Collect(MatchedOf, ps)
    ensures BasisIssue(info.name, info.requiredBasis, codes) in Collect(BasisIssuesOf, ps) <==> BasisUncited(codes, info.requiredBasis)
  {
    var bi := BasisIssue(info.name, info.requiredBasis, codes);
    CollectIn(MatchedOf, ps, info);
    CollectIn(BasisIssuesOf, ps, bi);
    var i :| 0 <= i < |ps| && info in MatchedOf(ps[i]);
    assert ps[i] in ps;
    if bi in Collect(BasisIssuesOf, ps) {
      var j :| 0 <= j < |ps| && bi in BasisIssuesOf(ps[j]);
      assert ps[j] in ps;
    }
  }

  /** A basis that a report code contains, or that contains a report code, after cleaning, is never an issue. */
  lemma CitedBasisNoIssue(codes: seq<string>, basis: string, k: nat)
    requires k < |codes| && (Contains(CleanMethod(codes[k]), CleanMethod(basis)) || Contains(CleanMethod(basis), CleanMethod(codes[k])))
    ensures !BasisUncited(codes, basis)
  {
    assert FuzzyMatchMethod(codes[k], basis);
  }
  // ---------------------------------------------------------------- limit compliance

  /** A limit rule read from a limit text. */
  datatype LimitRule = NotDetectedRule | MaxRule(limit: real) | NoRule

  /** What a reported value breaks: a "not detected" rule, or a maximum. */
  datatype LimitIssue = DetectedAgainstRule(reported: string) | Exceeds(reported: string, limit: real)

  /** `(?:≤|<=|<)([\d\.]+)` tried at `i`: the start of the number it captures. */
  function LimitMarkAt(t: string, i: nat): Option<nat> {
    if i + 1 < |t| && t[i] == '≤' && IsNumChar(t[i + 1]) then Some(i + 1)
    else if i + 2 < |t| && t[i] == '<' && t[i + 1] == '=' && IsNumChar(t[i + 2]) then Some(i + 2)
    else if i + 1 < |t| && t[i] == '<' && IsNumChar(t[i + 1]) then Some(i + 1)
    else None
  }

  /** The pattern as a matcher: from the mark to the end of the run of digits and dots. */
  function LimitMarkMatcher(): Matcher {
    (t: string, i: nat) => match LimitMarkAt(t, i) case None => None case Some(g) => Some(NumRunEnd(t, g))
  }

  /**
   * The limit rule of `_check_limit_compliance`: with spaces removed, a text
   * saying 不得检出 or 不得检测出 forbids detection; otherwise the first
   * number after ≤, <= or < is a maximum, unless it is not a valid number.
   */
  function ReadLimitRule(limitText: string): LimitRule {
    var t := RemoveChar(limitText, ' ');
    if Contains(t, "不得检出") || Contains(t, "不得检测出") then NotDetectedRule
    else
      match Search(LimitMarkMatcher(), t, 0)
      case None => NoRule
      case Some(sp) =>
        var g := LimitMarkAt(t, sp.start).value;
        match FloatOf(t[g..NumRunEnd(t, g)])
        case None => NoRule
        case Some(v) => MaxRule(v)
  }

  /** `_check_limit_compliance`: the issue a reported value raises against a limit text, if any. */
  function CheckLimitCompliance(reportValueStr: string, limitText: string): Option<LimitIssue> {
    if reportValueStr == [] || limitText == [] then None
    else
      match ParseValue(reportValueStr)
      case None => None
      case Some(v) =>
        match ReadLimitRule(limitText)
        case NotDetectedRule => if v > 0.0 then Some(DetectedAgainstRule(reportValueStr)) else None
        case MaxRule(limit) => if v > limit then Some(Exceeds(reportValueStr, limit)) else None
        case NoRule => None
  }

  /**
   * An issue is raised in exactly two cases: the text forbids detection and
   * the value reads above zero, or the text gives a maximum and the value
   * reads above it.
   */
  lemma LimitIssueCases(reportValueStr: string, limitText: string)
    ensures CheckLimitCompliance(reportValueStr, limitText).Some? <==>
      && limitText != [] && ParseValue(reportValueStr).Some?
      && ((ReadLimitRule(limitText).NotDetectedRule? && ParseValue(reportValueStr).value > 0.0)
          || (ReadLimitRule(limitText).MaxRule? && ParseValue(reportValueStr).value > ReadLimitRule(limitText).limit))
  {
  }

  /** A value reported as not detected (未检出, ND or "<…") never raises an issue. */
  lemma NotDetectedPasses(reportValueStr: string, limitText: string)
    requires ParseValue(reportValueStr) == Some(0.0)
    ensures CheckLimitCompliance(reportValueStr, limitText).None?
  {
    match ReadLimitRule(limitText)
    case NotDetectedRule =>
    case NoRule =>
    case MaxRule(limit) =>
      MaxRuleNonNegative(limitText);
  }

  /** A maximum read from a text is never negative. */
  lemma MaxRuleNonNegative(limitText: string)
    requires ReadLimitRule(limitText).MaxRule?
    ensures ReadLimitRule(limitText).limit >= 0.0
  {
  }

  /** A whole-number maximum written after ≤ is read back as that number. */
  lemma ReadWholeMaximum(n: nat)
    ensures ReadLimitRule(['≤'] + NatToString(n)) == MaxRule(n as real)
  {
    var digits := NatToString(n);
    var t := ['≤'] + digits;
    assert ' ' !in t;
    RemoveCharAbsent(t, ' ');
    NotContainsFirstChar(t, "不得检出");
    NotContainsFirstChar(t, "不得检测出");
    assert LimitMarkAt(t, 0) == Some(1);
    NumRunAll(t[1..], 0);
    assert NumRunEnd(t, 1) == |t| by {
      NumRunShift(t, 1);
    }
    assert t[1..|t|] == digits;
    DotAtNone(digits, 0);
    DigitsOfNat(n);
  }

  /** The run of digits and dots from `i` ends where it ends in the suffix from `i`. */
  lemma {:induction false} NumRunShift(t: string, i: nat)
    requires i <= |t| && forall k :: i <= k < |t| ==> IsDigit(t[k])
    ensures NumRunEnd(t, i) == |t|
    decreases |t| - i
  {
    if i < |t| {
      NumRunShift(t, i + 1);
    }
  }
  // ---------------------------------------------------------------- limit extraction

  const NotFoundText: string := "未找到限量值"
  const DefaultUnit: string := "mg/kg"

  /** The units of the whole-text fallback pattern, in alternation order. */
  const TextUnits: seq<string> := ["mg/kg", "ppm", "%", "μg/kg"]

  /** The units of the food-line pattern, in alternation order. */
  const LineUnits: seq<string> := ["mg/kg", "ppm", "%", "μg/kg", "mg/L"]

  /** The first of `units` that occurs at `i`. */
  function UnitAt(s: string, i: nat, units: seq<string>): (r: Option<string>)
    ensures r.Some? ==> r.value in units && OccursAt(s, r.value, i)
    ensures r.None? <==> forall k :: 0 <= k < |units| ==> !OccursAt(s, units[k], i)
  {
    if units == [] then None
    else if OccursAt(s, units[0], i) then Some(units[0])
    else UnitAt(s, i, units[1..])
  }

  /** `\d+\.?\d*` from `i`, greedily (nothing that follows it can make it give characters back). */
  function NumberEnd(s: string, i: nat): (e: nat)
    requires i <= |s|
    ensures i <= e <= |s|
  {
    var d := DigitRunEnd(s, i);
    if d < |s| && s[d] == '.' then DigitRunEnd(s, d + 1) else d
  }

  /** `(\d+\.?\d*)\s*(mg/kg|ppm|%|μg/kg)` tried at `i`. */
  function AmountAt(s: string, i: nat): Option<nat> {
    if i < |s| && IsDigit(s[i]) then
      var w := SpaceRunEnd(s, NumberEnd(s, i));
      match UnitAt(s, w, TextUnits)
      case None => None
      case Some(u) => Some(w + |u|)
    else None
  }

  function AmountMatcher(): Matcher {
    (s: string, i: nat) => AmountAt(s, i)
  }

  /** Where the digits of `[≤<]?\s*\d+` start when tried at `i`: after an optional mark and whitespace. */
  function LimitDigitsAt(s: string, i: nat): Option<nat> {
    if i < |s| && (s[i] == '≤' || s[i] == '<') && SpaceRunEnd(s, i + 1) < |s| && IsDigit(s[SpaceRunEnd(s, i + 1)]) then Some(SpaceRunEnd(s, i + 1))
    else if i <= |s| && SpaceRunEnd(s, i) < |s| && IsDigit(s[SpaceRunEnd(s, i)]) then Some(SpaceRunEnd(s, i))
    else None
  }

  /** `([≤<]?\s*\d+\.?\d*)\s*(mg/kg|ppm|%|μg/kg|mg/L)?` tried at `i`: the unit is optional. */
  function LineLimitAt(s: string, i: nat): Option<nat> {
    match LimitDigitsAt(s, i)
    case None => None
    case Some(d) =>
      var w := SpaceRunEnd(s, NumberEnd(s, d));
      match UnitAt(s, w, LineUnits)
      case None => Some(w)
      case Some(u) => Some(w + |u|)
  }

  function LineLimitMatcher(): Matcher {
    (s: string, i: nat) => LineLimitAt(s, i)
  }

  /** The line if it names the category. */
  function LineWith(category: string): string -> Option<string> {
    (line: string) => if Contains(line, category) then Some(line) else None
  }

  /** The first line naming the category. */
  function CategoryLine(lines: seq<string>): string -> Option<string> {
    (category: string) => FirstSome(LineWith(category), lines)
  }

  /** The two nested loops: categories in order, and for each the first line that names it. */
  function FoodLine(categories: seq<string>, lines: seq<string>): Option<string> {
    FirstSome(CategoryLine(lines), categories)
  }

  /** The unit after the number ending at `e`; a line that gives none reads as mg/kg. */
  function LineUnit(line: string, e: nat): (u: string)
    requires e <= |line|
    ensures u in LineUnits
    ensures OccursAt(line, u, SpaceRunEnd(line, e))
            || (u == DefaultUnit && forall k :: 0 <= k < |LineUnits| ==> !OccursAt(line, LineUnits[k], SpaceRunEnd(line, e)))
  {
    match UnitAt(line, SpaceRunEnd(line, e), LineUnits)
    case None => DefaultUnit
    case Some(u) => u
  }

  /** The number of the first match on the food line, with a leading < written as ≤. */
  function LineValue(line: string, sp: Span): string
    requires LimitDigitsAt(line, sp.start).Some?
  {
    var d := LimitDigitsAt(line, sp.start).value;
    MarkValue(Strip(line[sp.start..NumberEnd(line, d)]))
  }

  /** A value starting with "≤" or "<" is written "≤" and the rest, stripped. */
  function MarkValue(value: string): string {
    if StartsWith(value, "≤") || StartsWith(value, "<") then "≤" + Strip(TrimStartChars(value, {'≤', '<'}))
    else value
  }

  /** The limit read from the first match on the food line. */
  function LineLimit(line: string, sp: Span): string
    requires LineLimitAt(line, sp.start).Some?
  {
    LineValue(line, sp) + " " + LineUnit(line, NumberEnd(line, LimitDigitsAt(line, sp.start).value))
  }

  /** A value followed by a space and a unit ends with that space and unit. */
  lemma WithUnitEnds(v: string, u: string)
    ensures EndsWith(v + " " + u, " " + u)
  {
    assert v + " " + u == v + (" " + u);
  }

  /** The fallback of `_extract_limit_value`: the first amount with a unit anywhere in the text. */
  function TextAmount(limitText: string): (r: string)
    ensures r == NotFoundText || exists u :: u in TextUnits && EndsWith(r, " " + u)
  {
    match Search(AmountMatcher(), limitText, 0)
    case None => NotFoundText
    case Some(sp) =>
      var e := NumberEnd(limitText, sp.start);
      var unit := UnitAt(limitText, SpaceRunEnd(limitText, e), TextUnits).value;
      WithUnitEnds(limitText[sp.start..e], unit);
      limitText[sp.start..e] + " " + unit
  }

  /**
   * `_extract_limit_value`: the limit on the first line naming the food's
   * category or the food (categories first); without such a line, the first
   * amount with a unit anywhere in the text.
   */
  function ExtractLimitValue(limitText: string, foodName: string, itemName: string): (r: string)
    ensures limitText == [] || foodName == [] ==> r == NotFoundText
    ensures r == NotFoundText || exists u :: u in LineUnits && EndsWith(r, " " + u)
  {
    if limitText == [] || foodName == [] then NotFoundText
    else
      match FoodLine(FoodCategories(foodName), SplitOn(limitText, '\n'))
      case None => TextAmount(limitText)
      case Some(line) =>
        match Search(LineLimitMatcher(), line, 0)
        case None => NotFoundText
        case Some(sp) =>
          WithUnitEnds(LineValue(line, sp), LineUnit(line, NumberEnd(line, LimitDigitsAt(line, sp.start).value)));
          LineLimit(line, sp)
  }

  /**
   * The value of a match on the food line: its number, after a "≤" when the
   * match starts with "≤" or "<" (the mark and the whitespace after it dropped).
   */
  lemma LineValueReads(line: string, sp: Span)
    requires LimitDigitsAt(line, sp.start).Some?
    ensures var i := sp.start; var d := LimitDigitsAt(line, i).value;
            i <= d < NumberEnd(line, d) && IsDigit(line[d])
            && LineValue(line, sp) == (if line[i] == '≤' || line[i] == '<' then "≤" + line[d..NumberEnd(line, d)] else line[d..NumberEnd(line, d)])
  {
    var i := sp.start;
    var d := LimitDigitsAt(line, i).value;
    LimitDigitsShape(line, i);
    var e := NumberEnd(line, d);
    NumberStripped(line, d);
    MarkedSpan(line, i, d, e, line[i] == '≤' || line[i] == '<');
    assert LineValue(line, sp) == MarkValue(Strip(line[i..e]));
  }

  /** `MarkedText` on the span `s[i..e]` whose number starts at `d`. */
  lemma MarkedSpan(s: string, i: nat, d: nat, e: nat, marked: bool)
    requires i <= d < e <= |s| && IsDigit(s[d]) && IsStripped(s[d..e])
    requires marked ==> i < d && (s[i] == '≤' || s[i] == '<') && forall m :: i + 1 <= m < d ==> IsSpace(s[m])
    requires !marked ==> forall m :: i <= m < d ==> IsSpace(s[m])
    ensures MarkValue(Strip(s[i..e])) == if marked then "≤" + s[d..e] else s[d..e]
  {
    var t := s[i..e];
    assert t[d - i..] == s[d..e] && t[d - i] == s[d] && t[0] == s[i];
    forall m | (if marked then 1 else 0) <= m < d - i ensures IsSpace(t[m]) {
      assert t[m] == s[i + m];
    }
    MarkedText(t, d - i, marked);
  }

  /** The digits of a match start after an optional mark and whitespace. */
  lemma LimitDigitsShape(line: string, i: nat)
    requires LimitDigitsAt(line, i).Some?
    ensures var d := LimitDigitsAt(line, i).value;
            i <= d < |line| && IsDigit(line[d])
            && if line[i] == '≤' || line[i] == '<' then i < d && forall m :: i + 1 <= m < d ==> IsSpace(line[m])
               else forall m :: i <= m < d ==> IsSpace(line[m])
  {
  }

  /** A number `\d+\.?\d*` is not empty and has no whitespace at either end. */
  lemma NumberStripped(s: string, d: nat)
    requires d < |s| && IsDigit(s[d])
    ensures d < NumberEnd(s, d) && IsStripped(s[d..NumberEnd(s, d)])
  {
    var e := NumberEnd(s, d);
    var dd := DigitRunEnd(s, d);
    assert dd > d;
    assert s[d..e][0] == s[d] && s[d..e][e - d - 1] == s[e - 1];
    if dd < |s| && s[dd] == '.' {
      assert e - 1 == dd || IsDigit(s[e - 1]);
    } else {
      assert IsDigit(s[e - 1]);
    }
  }

  /**
   * The text of a match, `t`, whose number `t[a..]` follows whitespace and,
   * when `marked`, a leading "≤" or "<": stripped and re-marked, it reads as
   * "≤" (when marked) and the number.
   */
  lemma MarkedText(t: string, a: nat, marked: bool)
    requires a < |t| && IsDigit(t[a]) && IsStripped(t[a..])
    requires marked ==> 1 <= a && (t[0] == '≤' || t[0] == '<') && forall m :: 1 <= m < a ==> IsSpace(t[m])
    requires !marked ==> forall m :: 0 <= m < a ==> IsSpace(t[m])
    ensures MarkValue(Strip(t)) == if marked then "≤" + t[a..] else t[a..]
  {
    if marked {
      assert IsStripped(t) by {
        assert t[a..][|t| - a - 1] == t[|t| - 1];
      }
      assert StartsWith(t, "≤") || StartsWith(t, "<") by {
        assert t[..1] == [t[0]];
      }
      var u := t[1..];
      assert TrimStartChars(t, {'≤', '<'}) == u by {
        assert u[0] == t[1];
        assert TrimStartChars(u, {'≤', '<'}) == u;
      }
      StripAfterSpaces(u, a - 1);
      assert u[a - 1..] == t[a..];
    } else {
      StripAfterSpaces(t, a);
      assert !StartsWith(t[a..], "≤") && !StartsWith(t[a..], "<") by {
        assert t[a..][0] == t[a];
      }
    }
  }

  /**
   * With a food line, the limit comes from the leftmost match on that line:
   * its value as `LineValueReads` gives it, a space, and the unit written
   * after the number, or mg/kg when none is.
   */
  lemma LimitFromFoodLine(limitText: string, foodName: string, itemName: string, line: string, i: nat)
    requires limitText != [] && foodName != []
    requires FoodLine(FoodCategories(foodName), SplitOn(limitText, '\n')) == Some(line)
    requires FirstMatchAt(LineLimitMatcher(), line, i)
    ensures var d := LimitDigitsAt(line, i).value;
            ExtractLimitValue(limitText, foodName, itemName)
            == (if line[i] == '≤' || line[i] == '<' then "≤" + line[d..NumberEnd(line, d)] else line[d..NumberEnd(line, d)]) + " " + LineUnit(line, NumberEnd(line, d))
  {
    SearchFirstMatch(LineLimitMatcher(), line);
    FirstMatchUnique(LineLimitMatcher(), line, i, Search(LineLimitMatcher(), line, 0).value.start);
    LineValueReads(line, Search(LineLimitMatcher(), line, 0).value);
  }

  /** The documented example: cucumber is found under 瓜类蔬菜, and "0.5mg/kg" reads as "0.5 mg/kg". */
  lemma LimitExample(t: string, itemName: string)
    requires t == "瓜类蔬菜 0.5mg/kg"
    ensures ExtractLimitValue(t, "黄瓜", itemName) == "0.5 mg/kg"
  {
    ExampleFoodLine(t);
    ExampleChars(t);
    ExampleFirstMatch(t);
    ExampleNumber(t);
    UnmarkedLimit(t, "黄瓜", itemName, t, 4, 5, 8, "0.5", "mg/kg");
    ExampleJoin();
  }

  /** The pieces of the example answer, joined. */
  lemma ExampleJoin()
    ensures "0.5" + " " + "mg/kg" == "0.5 mg/kg"
  {
  }

  /** `LimitFromFoodLine` for a match without a mark, given its number and unit. */
  lemma UnmarkedLimit(limitText: string, foodName: string, itemName: string, line: string, i: nat, d: nat, e: nat, value: string, unit: string)
    requires limitText != [] && foodName != []
    requires FoodLine(FoodCategories(foodName), SplitOn(limitText, '\n')) == Some(line)
    requires FirstMatchAt(LineLimitMatcher(), line, i) && i < |line| && line[i] != '≤' && line[i] != '<'
    requires LimitDigitsAt(line, i) == Some(d) && NumberEnd(line, d) == e && d <= e <= |line|
    requires line[d..e] == value && LineUnit(line, e) == unit
    ensures ExtractLimitValue(limitText, foodName, itemName) == value + " " + unit
  {
    LimitFromFoodLine(limitText, foodName, itemName, line, i);
  }

  /** The example's one line names cucumber's category. */
  lemma ExampleFoodLine(t: string)
    requires t == "瓜类蔬菜 0.5mg/kg"
    ensures FoodLine(FoodCategories("黄瓜"), SplitOn(t, '\n')) == Some(t)
  {
    CategoryBeforeFood();
    SplitOnNoSep(t, '\n');
    assert OccursAt(t, "瓜类蔬菜", 0) by {
      assert t[0..4] == "瓜类蔬菜";
    }
    OneLineFoodLine(FoodCategories("黄瓜"), t);
  }

  /** A single line naming the first category is the food line. */
  lemma OneLineFoodLine(categories: seq<string>, line: string)
    requires categories != [] && Contains(line, categories[0])
    ensures FoodLine(categories, [line]) == Some(line)
  {
    assert CategoryLine([line])(categories[0]) == Some(line);
  }

  /** The characters of the example line that the match depends on. */
  lemma ExampleChars(t: string)
    requires t == "瓜类蔬菜 0.5mg/kg"
    ensures |t| == 13 && t[0] == '瓜' && t[1] == '类' && t[2] == '蔬' && t[3] == '菜'
    ensures t[4] == ' ' && t[5] == '0' && t[6] == '.' && t[7] == '5' && t[8..13] == "mg/kg"
  {
  }

  /** On the example line the first match starts at the space before "0.5". */
  lemma ExampleFirstMatch(t: string)
    requires |t| == 13 && t[0] == '瓜' && t[1] == '类' && t[2] == '蔬' && t[3] == '菜' && t[4] == ' ' && t[5] == '0'
    ensures FirstMatchAt(LineLimitMatcher(), t, 4)
  {
    NoLimitAt(t, 0);
    NoLimitAt(t, 1);
    NoLimitAt(t, 2);
    NoLimitAt(t, 3);
    SpaceRunEndIs(t, 4, 5);
    assert LineLimitAt(t, 4).Some?;
  }

  /** No limit starts at a character that is neither a mark, whitespace nor a digit. */
  lemma NoLimitAt(s: string, j: nat)
    requires j < |s| && s[j] != '≤' && s[j] != '<' && !IsSpace(s[j]) && !IsDigit(s[j])
    ensures LineLimitMatcher()(s, j).None?
  {
    SpaceRunEndIs(s, j, j);
  }

  /** The match's number is "0.5", unmarked, with mg/kg written after it. */
  lemma ExampleNumber(t: string)
    requires |t| == 13 && t[4] == ' ' && t[5] == '0' && t[6] == '.' && t[7] == '5' && t[8..13] == "mg/kg"
    ensures LimitDigitsAt(t, 4) == Some(5) && NumberEnd(t, 5) == 8
    ensures t[5..8] == "0.5" && LineUnit(t, 8) == "mg/kg"
  {
    SpaceRunEndIs(t, 4, 5);
    DigitRunEndIs(t, 5, 6);
    DigitRunEndIs(t, 7, 8);
    SpaceRunEndIs(t, 8, 8);
    assert t[8..13][0] == t[8];
    assert OccursAt(t, "mg/kg", 8);
  }

  /** A food line on which nothing matches gives "未找到限量值", without falling back on the whole text. */
  lemma LimitFoodLineUnmatched(limitText: string, foodName: string, itemName: string, line: string)
    requires limitText != [] && foodName != []
    requires FoodLine(FoodCategories(foodName), SplitOn(limitText, '\n')) == Some(line)
    requires NoMatch(LineLimitMatcher(), line)
    ensures ExtractLimitValue(limitText, foodName, itemName) == NotFoundText
  {
    SearchFirstMatch(LineLimitMatcher(), line);
  }

  /**
   * Without a food line, the limit is the first amount with a unit in the
   * whole text: its number as written, a space, and the first unit of the
   * list written after it; "未找到限量值" when the text holds no such amount.
   */
  lemma LimitWithoutFoodLine(limitText: string, foodName: string, itemName: string)
    requires limitText != [] && foodName != []
    requires FoodLine(FoodCategories(foodName), SplitOn(limitText, '\n')).None?
    ensures ExtractLimitValue(limitText, foodName, itemName) == TextAmount(limitText)
  {
  }

  /** The fallback reads the leftmost amount: its number as written, a space, and the first unit of the list written after it. */
  lemma TextAmountFirst(limitText: string, i: nat)
    requires FirstMatchAt(AmountMatcher(), limitText, i)
    ensures var e := NumberEnd(limitText, i); var w := SpaceRunEnd(limitText, e);
            i < |limitText| && IsDigit(limitText[i]) && UnitAt(limitText, w, TextUnits).Some?
            && TextAmount(limitText) == limitText[i..e] + " " + UnitAt(limitText, w, TextUnits).value
  {
    SearchFirstMatch(AmountMatcher(), limitText);
    FirstMatchUnique(AmountMatcher(), limitText, i, Search(AmountMatcher(), limitText, 0).value.start);
  }

  /** Without an amount with a unit, the fallback finds nothing. */
  lemma TextAmountNone(limitText: string)
    requires NoMatch(AmountMatcher(), limitText)
    ensures TextAmount(limitText) == NotFoundText
  {
    SearchFirstMatch(AmountMatcher(), limitText);
  }

  /** The line used is the first line naming the first category some line names: a category is preferred to the food itself. */
  lemma FoodLineFirst(categories: seq<string>, lines: seq<string>, line: string)
    requires FoodLine(categories, lines) == Some(line)
    ensures exists c, k ::
              (0 <= c < |categories| && 0 <= k < |lines| && lines[k] == line && Contains(line, categories[c])
               && (forall c' :: 0 <= c' < c ==> forall k' :: 0 <= k' < |lines| ==> !Contains(lines[k'], categories[c']))
               && (forall k' :: 0 <= k' < k ==> !Contains(lines[k'], categories[c])))
  {
    FirstSomeFirst(CategoryLine(lines), categories);
    var c :| 0 <= c < |categories| && CategoryLine(lines)(categories[c]) == Some(line) && forall j :: 0 <= j < c ==> CategoryLine(lines)(categories[j]).None?;
    forall c' | 0 <= c' < c ensures forall k' :: 0 <= k' < |lines| ==> !Contains(lines[k'], categories[c']) {
      FirstSomeNone(LineWith(categories[c']), lines);
    }
    FirstSomeFirst(LineWith(categories[c]), lines);
    var k :| 0 <= k < |lines| && LineWith(categories[c])(lines[k]) == Some(line) && forall j :: 0 <= j < k ==> LineWith(categories[c])(lines[j]).None?;
  }
  // ---------------------------------------------------------------- standard limits of matched items

  /** A matched item whose report entry carries a value. */
  function HasValue(reportMap: Dict<string, ReportItem>): MatchInfo -> bool {
    (m: MatchInfo) => m.reportName != [] && Get(reportMap, m.reportName).Some? && Get(reportMap, m.reportName).value.value != []
  }

  /** `items_to_check`: the matched items, in match order, whose report entry carries a value. */
  function ToCheck(reportMap: Dict<string, ReportItem>, matched: seq<MatchInfo>): seq<MatchInfo> {
    Filter(HasValue(reportMap), matched)
  }

  /** A standard is named for the query: the item's basis, or else the report's first GB code when that is non-empty (the query itself always targets GB 2763). */
  predicate HasQueryCode(m: MatchInfo, codes: seq<string>) {
    m.requiredBasis != [] || (codes != [] && codes[0] != [])
  }

  const LimitStandard: string := "GB 2763"
  const TocPageFirst: int := 3
  const TocPageLast: int := 15

  /** The item name occurs at `e` or after some of the whitespace there. */
  predicate ItemFollows(s: string, item: string, e: nat)
    requires e <= |s|
  {
    exists w :: e <= w <= SpaceRunEnd(s, e) && OccursAt(s, item, w)
  }

  /** `4\.(\d+)\s*<item>` tried at `i`: the end of the table number, the longest digit run the item name can follow. */
  function TocMatchAt(s: string, item: string, i: nat): (r: Option<nat>)
    ensures r.Some? ==> i + 3 <= r.value <= |s|
  {
    if i + 1 < |s| && s[i] == '4' && s[i + 1] == '.' then
      Rightmost((e: nat) => e <= |s| && ItemFollows(s, item, e), i + 3, DigitRunEnd(s, i + 2))
    else None
  }

  function TocMatcher(item: string): Matcher {
    (s: string, i: nat) => TocMatchAt(s, item, i)
  }

  /** The table number a table-of-contents chunk (pages 3 to 15) gives for the item. */
  function TocNumber(item: string): Chunk -> Option<string> {
    (c: Chunk) =>
      if TocPageFirst <= c.pageNum <= TocPageLast then
        match Search(TocMatcher(item), c.content, 0)
        case None => None
        case Some(sp) => Some(c.content[sp.start + 2..sp.end])
      else None
  }

  /** The table number of the first table-of-contents chunk that lists the item. */
  function TableNumber(tocChunks: seq<Chunk>, item: string): Option<string> {
    FirstSome(TocNumber(item), tocChunks)
  }

  /** The scan of the table-of-contents chunks, stopping at the first that lists the item. */
  method FindTableNumber(tocChunks: seq<Chunk>, item: string) returns (tableNumber: Option<string>)
    ensures tableNumber == TableNumber(tocChunks, item)
  {
    tableNumber := None;
    var i := 0;
    while i < |tocChunks|
      invariant 0 <= i <= |tocChunks|
      invariant TableNumber(tocChunks, item) == FirstSome(TocNumber(item), tocChunks[i..])
    {
      var chunk := tocChunks[i];
      assert tocChunks[i..][1..] == tocChunks[i + 1..];
      if !(TocPageFirst <= chunk.pageNum <= TocPageLast) {
        i := i + 1;
        continue;
      }
      var found := Search(TocMatcher(item), chunk.content, 0);
      if found.Some? {
        tableNumber := Some(chunk.content[found.value.start + 2..found.value.end]);
        return;
      }
      i := i + 1;
    }
  }

  /**
   * A table number comes from a table-of-contents page of one of the chunks,
   * where it follows "4." and is followed, after whitespace, by the item name.
   */
  lemma TableNumberListed(tocChunks: seq<Chunk>, item: string, n: string)
    requires TableNumber(tocChunks, item) == Some(n)
    ensures AllDigits(n)
    ensures exists k, j ::
              (0 <= k < |tocChunks| && TocPageFirst <= tocChunks[k].pageNum <= TocPageLast
               && OccursAt(tocChunks[k].content, "4." + n, j) && ItemFollows(tocChunks[k].content, item, j + 2 + |n|))
  {
    FirstSomeFrom(TocNumber(item), tocChunks);
    var k :| 0 <= k < |tocChunks| && TocNumber(item)(tocChunks[k]) == Some(n);
    TocNumberShape(item, tocChunks[k], n);
  }

  /** The number one chunk gives for the item follows "4." on a table-of-contents page and precedes the item name. */
  lemma TocNumberShape(item: string, c: Chunk, n: string)
    requires TocNumber(item)(c) == Some(n)
    ensures AllDigits(n) && TocPageFirst <= c.pageNum <= TocPageLast
    ensures exists j :: OccursAt(c.content, "4." + n, j) && ItemFollows(c.content, item, j + 2 + |n|)
  {
    var sp := Search(TocMatcher(item), c.content, 0).value;
    TocMatchShape(c.content, item, sp.start, sp.end);
  }

  /** A table-of-contents match is "4.", a run of digits, then the item name after optional whitespace. */
  lemma TocMatchShape(s: string, item: string, i: nat, e: nat)
    requires TocMatchAt(s, item, i) == Some(e)
    ensures AllDigits(s[i + 2..e])
    ensures OccursAt(s, "4." + s[i + 2..e], i)
    ensures ItemFollows(s, item, e)
  {
    var n := s[i + 2..e];
    assert e <= DigitRunEnd(s, i + 2);
    assert forall t :: 0 <= t < |n| ==> n[t] == s[i + 2 + t];
    assert s[i..e] == "4." + n;
  }

  /** The context query: the table by number when the table of contents gave one, else the item's maximum residue limits. */
  function ContextQuery(item: string, tableNumber: Option<string>): string {
    match tableNumber
    case Some(n) => "表" + n
    case None => item + " 最大残留限量"
  }

  /** A chunk of a GB 2763 document is kept; otherwise a chunk of implementing rules (细则) is dropped and any other kept. */
  predicate StandardDoc(c: Chunk) {
    if Contains(c.docName, LimitStandard) || Contains(c.docName, "GB2763") then true
    else if Contains(c.docName, "细则") || Contains(c.docName, "实施细则") then false
    else true
  }

  /** The document-name filter over the context chunks. */
  method FilterStandardDocs(contextChunksRaw: seq<Chunk>) returns (contextChunks: seq<Chunk>)
    ensures contextChunks == Filter(StandardDoc, contextChunksRaw)
  {
    contextChunks := [];
    for i := 0 to |contextChunksRaw|
      invariant contextChunks == Filter(StandardDoc, contextChunksRaw[..i])
    {
      var c := contextChunksRaw[i];
      FilterStep(StandardDoc, contextChunksRaw, i);
      if Contains(c.docName, LimitStandard) || Contains(c.docName, "GB2763") {
        contextChunks := contextChunks + [c];
      } else {
        if Contains(c.docName, "细则") || Contains(c.docName, "实施细则") {
          continue;
        }
        contextChunks := contextChunks + [c];
      }
    }
    assert contextChunksRaw[..|contextChunksRaw|] == contextChunksRaw;
  }

  /** A context chunk survives the filter exactly when it was returned and its document is not implementing rules unless it names GB 2763. */
  lemma ContextChunkKept(contextChunksRaw: seq<Chunk>, c: Chunk)
    ensures c in Filter(StandardDoc, contextChunksRaw) <==>
      c in contextChunksRaw && (Contains(c.docName, "GB 2763") || Contains(c.docName, "GB2763") || !Contains(c.docName, "细则"))
  {
    FilterIn(StandardDoc, contextChunksRaw, c);
    if Contains(c.docName, "实施细则") {
      assert OccursAt("实施细则", "细则", 2);
      ContainsTrans(c.docName, "实施细则", "细则");
    }
  }

  /** The chunk itself when its content names the item. */
  function WithItem(item: string): Chunk -> Option<Chunk> {
    (c: Chunk) => if Contains(c.content, item) then Some(c) else None
  }

  /** The first context chunk naming the item; when there is none, the fallback loop fails on an undefined name and the worker gives nothing. */
  function BestChunk(contextChunks: seq<Chunk>, item: string): Option<Chunk> {
    FirstSome(WithItem(item), contextChunks)
  }

  /** The scan for the best chunk, stopping at the first that names the item. */
  method FindBestChunk(contextChunks: seq<Chunk>, item: string) returns (bestChunk: Option<Chunk>)
    ensures bestChunk == BestChunk(contextChunks, item)
  {
    bestChunk := None;
    var i := 0;
    while i < |contextChunks|
      invariant 0 <= i <= |contextChunks|
      invariant BestChunk(contextChunks, item) == FirstSome(WithItem(item), contextChunks[i..])
    {
      var chunk := contextChunks[i];
      assert contextChunks[i..][1..] == contextChunks[i + 1..];
      if !Contains(chunk.content, item) {
        i := i + 1;
        continue;
      }
      bestChunk := Some(chunk);
      return;
    }
  }

  /** The best chunk is the first that names the item: it names the item, and no chunk before it does. */
  lemma BestChunkFirst(contextChunks: seq<Chunk>, item: string)
    ensures BestChunk(contextChunks, item).None? <==> forall k :: 0 <= k < |contextChunks| ==> !Contains(contextChunks[k].content, item)
    ensures BestChunk(contextChunks, item).Some? ==>
              exists k ::
                (0 <= k < |contextChunks| && contextChunks[k] == BestChunk(contextChunks, item).value
                 && Contains(contextChunks[k].content, item) && forall j :: 0 <= j < k ==> !Contains(contextChunks[j].content, item))
  {
    FirstSomeNone(WithItem(item), contextChunks);
    if BestChunk(contextChunks, item).Some? {
      FirstSomeFirst(WithItem(item), contextChunks);
    }
  }

  /** What the limit worker reports for one matched item. */
  datatype LimitResult = LimitResult(item: string, limitText: string, extractedLimit: string, chunk: Chunk, limitIssue: Option<LimitIssue>)

  /** A search of the standards knowledge base: query and page size to chunks (the service is outside the model). */
  type KnowledgeSearch = (string, nat) -> seq<Chunk>

  const TocPageSize: nat := 10
  const ContextPageSize: nat := 20

  /** The context chunks for an item: the table of contents is searched for its table number, the table or the item's limits searched, and the chunks filtered by document. */
  function ContextChunks(search: KnowledgeSearch, item: string): seq<Chunk> {
    var tableNumber := TableNumber(search(item + " 目次", TocPageSize), item);
    Filter(StandardDoc, search(ContextQuery(item, tableNumber), ContextPageSize))
  }

  /** The limit extracted from the best chunk, and the compliance of the report value with its text. */
  function LimitFrom(reportValue: string, foodName: string, item: string, c: Chunk): LimitResult {
    LimitResult(item, c.content, ExtractLimitValue(c.content, foodName, item), c, CheckLimitCompliance(reportValue, c.content))
  }

  /**
   * `_query_limit_worker`: with a report entry and a standard to query, the
   * first context chunk naming the item yields the extracted limit and the
   * compliance of the report value.
   */
  function QueryLimit(reportMap: Dict<string, ReportItem>, codes: seq<string>, foodName: string, search: KnowledgeSearch, m: MatchInfo): Option<LimitResult> {
    match Get(reportMap, m.reportName)
    case None => None
    case Some(reportItem) =>
      if !HasQueryCode(m, codes) then None
      else
        match BestChunk(ContextChunks(search, m.name), m.name)
        case None => None
        case Some(c) => Some(LimitFrom(reportItem.value, foodName, m.name, c))
  }

  /** The worker, step by step. */
  method QueryLimitWorker(reportMap: Dict<string, ReportItem>, codes: seq<string>, foodName: string, search: KnowledgeSearch, m: MatchInfo)
    returns (res: Option<LimitResult>)
    ensures res == QueryLimit(reportMap, codes, foodName, search, m)
  {
    var itemName := m.name;
    var reportItem := Get(reportMap, m.reportName);
    if reportItem.None? {
      return None;
    }
    var queryCode := m.requiredBasis;
    if queryCode == [] && codes != [] {
      queryCode := codes[0];
    }
    if queryCode == [] {
      return None;
    }
    var tocChunks := search(itemName + " 目次", TocPageSize);
    var tableNumber := FindTableNumber(tocChunks, itemName);
    var contextQuery := if tableNumber.Some? then "表" + tableNumber.value else itemName + " 最大残留限量";
    var contextChunksRaw := search(contextQuery, ContextPageSize);
    var contextChunks := FilterStandardDocs(contextChunksRaw);
    assert contextChunks == ContextChunks(search, itemName);
    var bestChunk := FindBestChunk(contextChunks, itemName);
    if bestChunk.None? {
      return None;
    }
    var limitText := bestChunk.value.content;
    var extractedLimit := ExtractLimitValue(limitText, foodName, itemName);
    var limitIssue := CheckLimitCompliance(reportItem.value.value, limitText);
    res := Some(LimitResult(itemName, limitText, extractedLimit, bestChunk.value, limitIssue));
  }

  /**
   * The worker gives a result exactly when the item has a report entry and a
   * standard to query and some kept context chunk names it; the result's chunk
   * then names the item, comes from a standard document, and the verdict is the
   * compliance of the report value with that chunk's text.
   */
  lemma QueryLimitFound(reportMap: Dict<string, ReportItem>, codes: seq<string>, foodName: string, search: KnowledgeSearch, m: MatchInfo)
    ensures QueryLimit(reportMap, codes, foodName, search, m).Some? <==>
      Get(reportMap, m.reportName).Some? && HasQueryCode(m, codes) &&
      exists k :: 0 <= k < |ContextChunks(search, m.name)| && Contains(ContextChunks(search, m.name)[k].content, m.name)
    ensures QueryLimit(reportMap, codes, foodName, search, m).Some? ==>
      var r := QueryLimit(reportMap, codes, foodName, search, m).value;
      r.item == m.name && r.limitText == r.chunk.content && Contains(r.limitText, m.name)
      && r.chunk in ContextChunks(search, m.name) && StandardDoc(r.chunk)
      && r.limitIssue == CheckLimitCompliance(Get(reportMap, m.reportName).value.value, r.limitText)
  {
    var kept := ContextChunks(search, m.name);
    BestChunkFirst(kept, m.name);
    if BestChunk(kept, m.name).Some? {
      var c := BestChunk(kept, m.name).value;
      assert c in kept;
      var raw := search(ContextQuery(m.name, TableNumber(search(m.name + " 目次", TocPageSize), m.name)), ContextPageSize);
      FilterIn(StandardDoc, raw, c);
    }
  }

  /** "指标不合格或无法验证": the matched item and what is wrong with its value. */
  datatype IndicatorIssue = IndicatorIssue(item: string, issue: LimitIssue)

  function IndicatorEvidenceOf(res: Option<LimitResult>): seq<Evidence> {
    match res
    case None => []
    case Some(r) => [Indicator(r.item, r.limitText, r.extractedLimit, r.chunk.chunkId, r.chunk.pageNum, r.chunk.docName)]
  }

  function IndicatorIssueOf(res: Option<LimitResult>): seq<IndicatorIssue> {
    if res.Some? && res.value.limitIssue.Some? then [IndicatorIssue(res.value.item, res.value.limitIssue.value)] else []
  }

  function EvidenceFor(reportMap: Dict<string, ReportItem>, codes: seq<string>, foodName: string, search: KnowledgeSearch): MatchInfo -> seq<Evidence> {
    (m: MatchInfo) => IndicatorEvidenceOf(QueryLimit(reportMap, codes, foodName, search, m))
  }

  function IssuesFor(reportMap: Dict<string, ReportItem>, codes: seq<string>, foodName: string, search: KnowledgeSearch): MatchInfo -> seq<IndicatorIssue> {
    (m: MatchInfo) => IndicatorIssueOf(QueryLimit(reportMap, codes, foodName, search, m))
  }

  /** The workers' results gathered into indicator evidence and indicator issues, taken in `items_to_check` order. */
  method CheckIndicators(itemsToCheck: seq<MatchInfo>, reportMap: Dict<string, ReportItem>, codes: seq<string>, foodName: string, search: KnowledgeSearch)
    returns (evidenceList: seq<Evidence>, indicatorIssues: seq<IndicatorIssue>)
    ensures evidenceList == Collect(EvidenceFor(reportMap, codes, foodName, search), itemsToCheck)
    ensures indicatorIssues == Collect(IssuesFor(reportMap, codes, foodName, search), itemsToCheck)
  {
    evidenceList := [];
    indicatorIssues := [];
    for i := 0 to |itemsToCheck|
      invariant evidenceList == Collect(EvidenceFor(reportMap, codes, foodName, search), itemsToCheck[..i])
      invariant indicatorIssues == Collect(IssuesFor(reportMap, codes, foodName, search), itemsToCheck[..i])
    {
      var m := itemsToCheck[i];
      CollectStep(EvidenceFor(reportMap, codes, foodName, search), itemsToCheck, i);
      CollectStep(IssuesFor(reportMap, codes, foodName, search), itemsToCheck, i);
      var res := QueryLimitWorker(reportMap, codes, foodName, search, m);
      assert EvidenceFor(reportMap, codes, foodName, search)(m) == IndicatorEvidenceOf(res);
      assert IssuesFor(reportMap, codes, foodName, search)(m) == IndicatorIssueOf(res);
      if res.Some? {
        var r := res.value;
        evidenceList := evidenceList + [Indicator(r.item, r.limitText, r.extractedLimit, r.chunk.chunkId, r.chunk.pageNum, r.chunk.docName)];
        if r.limitIssue.Some? {
          indicatorIssues := indicatorIssues + [IndicatorIssue(r.item, r.limitIssue.value)];
        }
      }
    }
    assert itemsToCheck[..|itemsToCheck|] == itemsToCheck;
  }

  /** An indicator issue names an item to check whose worker found a limit text that the report value fails. */
  lemma IndicatorIssueMember(itemsToCheck: seq<MatchInfo>, reportMap: Dict<string, ReportItem>, codes: seq<string>, foodName: string, search: KnowledgeSearch, iss: IndicatorIssue)
    ensures iss in Collect(IssuesFor(reportMap, codes, foodName, search), itemsToCheck) <==>
      exists k ::
        (0 <= k < |itemsToCheck| && itemsToCheck[k].name == iss.item
         && QueryLimit(reportMap, codes, foodName, search, itemsToCheck[k]).Some?
         && QueryLimit(reportMap, codes, foodName, search, itemsToCheck[k]).value.limitIssue == Some(iss.issue))
  {
    CollectIn(IssuesFor(reportMap, codes, foodName, search), itemsToCheck, iss);
  }
  // ---------------------------------------------------------------- status rollup and the whole verification

  datatype Status = Pass | Fail | Warning | Unknown

  const MaxListedMissing: nat := 5

  /** "缺少必检项目: " with the first five missing names, and "..." when there are more. */
  function MissingMessage(missing: seq<string>): string {
    "缺少必检项目: " + Join(if |missing| <= MaxListedMissing then missing else missing[..MaxListedMissing], ", ")
      + (if |missing| > MaxListedMissing then "..." else "")
  }

  /** A count message such as "存在检测方法不一致 (3项)". */
  function CountMessage(what: string, n: nat): string {
    what + " (" + NatToString(n) + "项)"
  }

  const MethodMessage: string := "存在检测方法不一致"
  const BasisMessage: string := "存在判定依据不一致"
  const IndicatorMessage: string := "存在指标不合格或无法验证"

  /** The verdict: fail on a missing item, warning on any other issue, pass otherwise. */
  function Verdict(missing: seq<string>, methodCount: nat, basisCount: nat, indicatorCount: nat): Status {
    if missing != [] then Fail
    else if methodCount > 0 || basisCount > 0 || indicatorCount > 0 then Warning
    else Pass
  }

  /** One message per kind of issue found, in the order missing, method, basis, indicator. */
  function Messages(missing: seq<string>, methodCount: nat, basisCount: nat, indicatorCount: nat): seq<string> {
    (if missing != [] then [MissingMessage(missing)] else [])
    + (if methodCount > 0 then [CountMessage(MethodMessage, methodCount)] else [])
    + (if basisCount > 0 then [CountMessage(BasisMessage, basisCount)] else [])
    + (if indicatorCount > 0 then [CountMessage(IndicatorMessage, indicatorCount)] else [])
  }

  /** The rollup: the status starts as pass, a missing item makes it fail, and each other issue turns a pass into a warning. */
  method RollUp(missing: seq<string>, methodIssues: seq<MethodIssue>, basisIssues: seq<BasisIssue>, indicatorIssues: seq<IndicatorIssue>)
    returns (status: Status, issues: seq<string>)
    ensures status == Verdict(missing, |methodIssues|, |basisIssues|, |indicatorIssues|)
    ensures issues == Messages(missing, |methodIssues|, |basisIssues|, |indicatorIssues|)
  {
    status := Pass;
    issues := [];
    if missing != [] {
      status := Fail;
      issues := issues + [MissingMessage(missing)];
    }
    if methodIssues != [] {
      if status == Pass { status := Warning; }
      issues := issues + [CountMessage(MethodMessage, |methodIssues|)];
    }
    if basisIssues != [] {
      if status == Pass { status := Warning; }
      issues := issues + [CountMessage(BasisMessage, |basisIssues|)];
    }
    if indicatorIssues != [] {
      if status == Pass { status := Warning; }
      issues := issues + [CountMessage(IndicatorMessage, |indicatorIssues|)];
    }
  }

  /** The verdict is never unknown after a comparison, and there is an issue message exactly when it is not a pass. */
  lemma VerdictMessages(missing: seq<string>, methodCount: nat, basisCount: nat, indicatorCount: nat)
    ensures Verdict(missing, methodCount, basisCount, indicatorCount) != Unknown
    ensures Verdict(missing, methodCount, basisCount, indicatorCount) == Pass <==> Messages(missing, methodCount, basisCount, indicatorCount) == []
    ensures Verdict(missing, methodCount, basisCount, indicatorCount) == Fail <==>
      Messages(missing, methodCount, basisCount, indicatorCount) != [] && Messages(missing, methodCount, basisCount, indicatorCount)[0] == MissingMessage(missing)
  {
    var ms := Messages(missing, methodCount, basisCount, indicatorCount);
    if missing == [] && ms != [] {
      assert ms[0] == CountMessage(MethodMessage, methodCount) || ms[0] == CountMessage(BasisMessage, basisCount) || ms[0] == CountMessage(IndicatorMessage, indicatorCount);
      assert ms[0][0] == '存';
      assert MissingMessage(missing)[0] == '缺';
    }
  }

  /** The missing message names each of the first five missing items. */
  lemma MissingMessageNames(missing: seq<string>, k: nat)
    requires k < |missing| && k < MaxListedMissing
    ensures Contains(MissingMessage(missing), missing[k])
  {
    var listed := if |missing| <= MaxListedMissing then missing else missing[..MaxListedMissing];
    JoinContains(listed, ", ", k);
    var joined := Join(listed, ", ");
    var i :| 0 <= i <= |joined| - |missing[k]| && OccursAt(joined, missing[k], i);
    var head := "缺少必检项目: ";
    var tail := if |missing| > MaxListedMissing then "..." else "";
    assert MissingMessage(missing) == head + joined + tail;
    assert OccursAt(MissingMessage(missing), missing[k], |head| + i) by {
      assert MissingMessage(missing)[|head| + i..|head| + i + |missing[k]|] == joined[i..i + |missing[k]|];
    }
  }

  /** The result of `verify_inspection_compliance` (a missing key of an early return reads as empty). */
  datatype Compliance = Compliance(
    status: Status,
    issues: seq<string>,
    evidence: seq<Evidence>,
    evidenceCount: nat,
    evidencePages: set<int>,
    missingItems: seq<string>,
    extraItems: seq<string>,
    matchedItems: seq<MatchInfo>,
    methodIssues: seq<MethodIssue>,
    basisIssues: seq<BasisIssue>,
    indicatorIssues: seq<IndicatorIssue>)

  /** An early return with one issue. */
  function Early(status: Status, issue: string): Compliance {
    Compliance(status, [issue], [], 0, {}, [], [], [], [], [], [])
  }

  const NoFoodMessage: string := "缺少食品名称，无法查询细则"
  const NoClientMessage: string := "RAGFlow 客户端未能初始化"

  function NotFoundMessage(foodName: string): string {
    "未在细则中找到关于'" + foodName + "'的检验要求"
  }

  /** The name whose lookup fails when no required item survives screening. */
  const UndefinedThreshold: string := "SIMILARITY_THRESHOLD"

  /** The query of the rules knowledge base: food name and optimized query to chunks (the service is outside the model). */
  type InspectionQuery = (string, string) -> seq<Chunk>

  /** The distinct pages of the evidence entries. */
  function PagesOf(evidence: seq<Evidence>): set<int> {
    set e | e in evidence :: e.pageNum
  }

  /** The comparison of the report with the unified required items. */
  function Comparison(reportItems: seq<ReportItem>, codes: seq<string>, foodName: string, search: KnowledgeSearch, filteredChunks: seq<Evidence>, requiredItems: seq<Required>): Compliance {
    var reportMap := PutEach(ReportEntry, reportItems);
    var reqMap := PutEach(RequiredEntry, requiredItems);
    var ps := Pairings(reportMap, codes, reqMap);
    var matched := Collect(MatchedOf, ps);
    var missing := Collect(MissingOf, ps);
    var methodIssues := Collect(MethodIssuesOf, ps);
    var basisIssues := Collect(BasisIssuesOf, ps);
    var toCheck := ToCheck(reportMap, matched);
    var indicatorIssues := Collect(IssuesFor(reportMap, codes, foodName, search), toCheck);
    Compliance(
      Verdict(missing, |methodIssues|, |basisIssues|, |indicatorIssues|),
      Messages(missing, |methodIssues|, |basisIssues|, |indicatorIssues|),
      filteredChunks + Collect(EvidenceFor(reportMap, codes, foodName, search), toCheck),
      |filteredChunks|, PagesOf(filteredChunks), missing, Extra(reportMap, reqMap), matched, methodIssues, basisIssues, indicatorIssues)
  }

  /** The screened chunks of a query result. */
  function Screening(foodName: string, queryResult: seq<Chunk>): seq<Gated> {
    Layer2(foodName, Layer1(queryResult))
  }

  /** The required items of the screened chunks, deduplicated and given the unified basis. */
  function RequiredOf(screened: seq<Gated>, soup: string -> Option<HtmlTableParser.RawTable>): seq<Required> {
    var deduped := Deduped(Collect(ChunkItems(soup), screened));
    Project(WithBasis(UnifiedBasis(deduped)), deduped)
  }

  /**
   * `verify_inspection_compliance`: the early returns for a missing food name,
   * a missing client and an empty query result; the failure when no required
   * item survives; otherwise the comparison.
   */
  function Verification(foodName: string, reportItems: seq<ReportItem>, codes: seq<string>, clientReady: bool,
                        inspect: InspectionQuery, soup: string -> Option<HtmlTableParser.RawTable>, search: KnowledgeSearch): Result<Compliance, string> {
    if foodName == [] then Ok(Early(Unknown, NoFoodMessage))
    else if !clientReady then Ok(Early(Unknown, NoClientMessage))
    else
      var queryResult := inspect(foodName, BuildOptimizedQuery(foodName, "inspection"));
      if queryResult == [] then Ok(Early(Warning, NotFoundMessage(foodName)))
      else
        var screened := Screening(foodName, queryResult);
        var requiredItems := RequiredOf(screened, soup);
        if requiredItems == [] then Err(UndefinedThreshold)
        else Ok(Comparison(reportItems, codes, foodName, search, Project(SnippetOf, screened), requiredItems))
  }

  /** The comparison, step by step. */
  method CompareItems(reportItems: seq<ReportItem>, reportGbCodes: seq<string>, foodName: string, search: KnowledgeSearch,
                      filteredChunks: seq<Evidence>, requiredItems: seq<Required>)
    returns (result: Compliance)
    ensures result == Comparison(reportItems, reportGbCodes, foodName, search, filteredChunks, requiredItems)
  {
    var reportMap := BuildReportMap(reportItems);
    var reqMap := BuildRequiredMap(requiredItems);
    var matched, missing, methodIssues, basisIssues := PairItems(reportMap, reqMap, reportGbCodes);
    var extra := FindExtra(reportMap, reqMap);
    var itemsToCheck := ToCheck(reportMap, matched);
    var evidenceList, indicatorIssues := CheckIndicators(itemsToCheck, reportMap, reportGbCodes, foodName, search);
    var status, issues := RollUp(missing, methodIssues, basisIssues, indicatorIssues);
    result := Compliance(status, issues, filteredChunks + evidenceList, |filteredChunks|, PagesOf(filteredChunks),
                         missing, extra, matched, methodIssues, basisIssues, indicatorIssues);
  }

  /** `verify_inspection_compliance`, step by step. */
  method VerifyInspectionCompliance(foodName: string, reportItems: seq<ReportItem>, reportGbCodes: seq<string>, clientReady: bool,
                                    inspect: InspectionQuery, soup: string -> Option<HtmlTableParser.RawTable>, search: KnowledgeSearch)
    returns (r: Result<Compliance, string>)
    ensures r == Verification(foodName, reportItems, reportGbCodes, clientReady, inspect, soup, search)
  {
    if foodName == [] {
      return Ok(Early(Unknown, NoFoodMessage));
    }
    if !clientReady {
      return Ok(Early(Unknown, NoClientMessage));
    }
    var optimizedQuery := BuildOptimizedQuery(foodName, "inspection");
    var queryResult := inspect(foodName, optimizedQuery);
    if queryResult == [] {
      return Ok(Early(Warning, NotFoundMessage(foodName)));
    }
    var layer1Passed := Layer1Filter(queryResult);
    var layer2Passed := Layer2Filter(layer1Passed, foodName);
    var filteredChunks, requiredItems := CollectEvidence(layer2Passed, soup);
    requiredItems := DedupRequired(requiredItems);
    var unifiedBasis;
    unifiedBasis, requiredItems := UnifyBasis(requiredItems);
    if requiredItems == [] {
      return Err(UndefinedThreshold);
    }
    var result := CompareItems(reportItems, reportGbCodes, foodName, search, filteredChunks, requiredItems);
    r := Ok(result);
  }
  /** Some required name is fuzzy-matched by no report name. */
  predicate Unmatched(reportMap: Dict<string, ReportItem>, reqMap: Dict<string, Required>) {
    exists n :: n in Keys(reqMap) && forall k :: 0 <= k < |reportMap| ==> !FuzzyMatchItemName(reportMap[k].0, n)
  }

  /** There is a missing name exactly when some required name is unmatched. */
  lemma MissingExactly(reportMap: Dict<string, ReportItem>, codes: seq<string>, reqMap: Dict<string, Required>)
    ensures Collect(MissingOf, Pairings(reportMap, codes, reqMap)) != [] <==> Unmatched(reportMap, reqMap)
  {
    var missing := Collect(MissingOf, Pairings(reportMap, codes, reqMap));
    if missing != [] {
      MissingMember(reportMap, codes, reqMap, missing[0]);
    }
    if Unmatched(reportMap, reqMap) {
      var n :| n in Keys(reqMap) && forall k :: 0 <= k < |reportMap| ==> !FuzzyMatchItemName(reportMap[k].0, n);
      MissingMember(reportMap, codes, reqMap, n);
    }
  }

  /** A comparison fails exactly when some required name is fuzzy-matched by no report name. */
  lemma ComparisonFails(reportItems: seq<ReportItem>, codes: seq<string>, foodName: string, search: KnowledgeSearch,
                        filteredChunks: seq<Evidence>, requiredItems: seq<Required>)
    ensures Comparison(reportItems, codes, foodName, search, filteredChunks, requiredItems).status == Fail <==>
      Unmatched(PutEach(ReportEntry, reportItems), PutEach(RequiredEntry, requiredItems))
  {
    MissingExactly(PutEach(ReportEntry, reportItems), codes, PutEach(RequiredEntry, requiredItems));
  }

  /** The verification fails exactly when the query found chunks but no required item survived screening. */
  lemma VerificationFails(foodName: string, reportItems: seq<ReportItem>, codes: seq<string>, clientReady: bool,
                          inspect: InspectionQuery, soup: string -> Option<HtmlTableParser.RawTable>, search: KnowledgeSearch)
    ensures Verification(foodName, reportItems, codes, clientReady, inspect, soup, search).Err? <==>
      foodName != [] && clientReady && inspect(foodName, BuildOptimizedQuery(foodName, "inspection")) != []
      && Deduped(Collect(ChunkItems(soup), Screening(foodName, inspect(foodName, BuildOptimizedQuery(foodName, "inspection"))))) == []
  {
    var deduped := Deduped(Collect(ChunkItems(soup), Screening(foodName, inspect(foodName, BuildOptimizedQuery(foodName, "inspection")))));
    assert |Project(WithBasis(UnifiedBasis(deduped)), deduped)| == |deduped|;
  }

  /** The early returns: no food name and no client give unknown, an empty query result a warning, each with its one message. */
  lemma VerificationEarly(foodName: string, reportItems: seq<ReportItem>, codes: seq<string>, clientReady: bool,
                          inspect: InspectionQuery, soup: string -> Option<HtmlTableParser.RawTable>, search: KnowledgeSearch)
    ensures foodName == [] ==> Verification(foodName, reportItems, codes, clientReady, inspect, soup, search) == Ok(Early(Unknown, NoFoodMessage))
    ensures foodName != [] && !clientReady ==> Verification(foodName, reportItems, codes, clientReady, inspect, soup, search) == Ok(Early(Unknown, NoClientMessage))
    ensures foodName != [] && clientReady && inspect(foodName, foodName + " 检验项目表 必检项目 限量指标") == [] ==>
      Verification(foodName, reportItems, codes, clientReady, inspect, soup, search) == Ok(Early(Warning, NotFoundMessage(foodName)))
    ensures (Verification(foodName, reportItems, codes, clientReady, inspect, soup, search).Ok? &&
             Verification(foodName, reportItems, codes, clientReady, inspect, soup, search).value.status == Unknown) ==> foodName == [] || !clientReady
  {
    if foodName != [] && clientReady {
      var queryResult := inspect(foodName, BuildOptimizedQuery(foodName, "inspection"));
      if queryResult != [] {
        var screened := Screening(foodName, queryResult);
        var requiredItems := RequiredOf(screened, soup);
        if requiredItems != [] {
          var c := Comparison(reportItems, codes, foodName, search, Project(SnippetOf, screened), requiredItems);
          var reportMap := PutEach(ReportEntry, reportItems);
          var ps := Pairings(reportMap, codes, PutEach(RequiredEntry, requiredItems));
          VerdictMessages(Collect(MissingOf, ps), |Collect(MethodIssuesOf, ps)|, |Collect(BasisIssuesOf, ps)|, |c.indicatorIssues|);
        }
      }
    }
  }
}
