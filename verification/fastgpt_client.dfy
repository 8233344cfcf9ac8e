/**
 * The FastGPT knowledge-base client: choosing the best-scoring search hit,
 * reading the page number out of its text, and choosing the document to link.
 * The search call is a parameter: the decoded response.
 */
module FastgptClient {
  import opened Wrappers
  import opened Text
  import opened Json

  // ---------------------------------------------------------------- page numbers

  /** The maximal run of ASCII digits at `i`, when it is not empty, and where it ends. */
  function DigitsAt(s: string, i: nat): (r: Option<nat>)
    ensures r.Some? ==> i < r.value <= |s| && AllDigits(s[i..r.value])
    ensures r.Some? ==> r.value == |s| || !IsDigit(s[r.value])
    ensures r.None? <==> i >= |s| || !IsDigit(s[i])
  {
    if i < |s| && IsDigit(s[i]) then
      var e := DigitRunEnd(s, i);
      assert forall k :: 0 <= k < e - i ==> s[i..e][k] == s[i + k];
      Some(e)
    else None
  }

  /** First alternative: "检验项目", digits, "序号"; the digits are the page. */
  function ItemsThenSerial(s: string, i: nat): (r: Option<string>)
    ensures r.Some? ==> AllDigits(r.value)
  {
    if !MatchesFrom(s, "检验项目", i, 0) then None
    else match DigitsAt(s, i + 4)
      case Some(e) => if MatchesFrom(s, "序号", e, 0) then Some(s[i + 4..e]) else None
      case None => None
  }

  /** Second alternative: digits, optional whitespace, "序号". */
  function DigitsThenSerial(s: string, i: nat): (r: Option<string>)
    ensures r.Some? ==> AllDigits(r.value)
  {
    match DigitsAt(s, i)
    case Some(e) => if MatchesFrom(s, "序号", SpaceRunEnd(s, e), 0) then Some(s[i..e]) else None
    case None => None
  }

  /** Third alternative: "页码" then digits. */
  function PageLabel(s: string, i: nat): (r: Option<string>)
    ensures r.Some? ==> AllDigits(r.value)
  {
    if !MatchesFrom(s, "页码", i, 0) then None
    else match DigitsAt(s, i + 2)
      case Some(e) => Some(s[i + 2..e])
      case None => None
  }

  /** Fourth alternative: digits at the end of the text, or just before a final newline (`$`). */
  function TrailingDigits(s: string, i: nat): (r: Option<string>)
    ensures r.Some? ==> AllDigits(r.value)
  {
    match DigitsAt(s, i)
    case Some(e) => if e == |s| || (e == |s| - 1 && s[e] == '\n') then Some(s[i..e]) else None
    case None => None
  }

  /** The page the pattern captures at `i`: the first alternative that matches there. */
  function PageAt(s: string, i: nat): (r: Option<string>)
    ensures r.Some? ==> AllDigits(r.value)
  {
    ItemsThenSerial(s, i).Or(DigitsThenSerial(s, i)).Or(PageLabel(s, i)).Or(TrailingDigits(s, i))
  }

  /** `re.search` from `i`: the capture of the leftmost position where the pattern matches. */
  function PageFrom(s: string, i: nat): (r: Option<string>)
    ensures r.Some? ==> AllDigits(r.value)
    ensures r.None? ==> forall k :: i <= k < |s| ==> PageAt(s, k).None?
    decreases |s| - i
  {
    if i >= |s| then None
    else if PageAt(s, i).Some? then PageAt(s, i)
    else PageFrom(s, i + 1)
  }

  /** What the search answers is the capture at the leftmost position from `i` where the pattern matches. */
  lemma {:induction false} PageFromLeftmost(s: string, i: nat)
    ensures PageFrom(s, i).Some? ==>
              exists j :: i <= j < |s| && PageAt(s, j) == PageFrom(s, i) && forall k :: i <= k < j ==> PageAt(s, k).None?
    decreases |s| - i
  {
    if i < |s| && PageAt(s, i).None? && PageFrom(s, i).Some? {
      PageFromLeftmost(s, i + 1);
      var j :| i + 1 <= j < |s| && PageAt(s, j) == PageFrom(s, i + 1) && forall k :: i + 1 <= k < j ==> PageAt(s, k).None?;
      assert forall k :: i <= k < j ==> PageAt(s, k).None?;
    }
  }

  /** `_extract_page_number`: the captured digits of the first match, else "". */
  function ExtractPageNumber(text: string): (r: string)
    ensures r == [] || AllDigits(r)
    ensures text == [] ==> r == []
  {
    if text == [] then [] else PageFrom(text, 0).GetOr([])
  }

  /** Every alternative needs a digit, so a text without one has no page. */
  lemma NoDigitNoPage(text: string)
    requires forall k :: 0 <= k < |text| ==> !IsDigit(text[k])
    ensures ExtractPageNumber(text) == []
  {
    forall k | 0 <= k < |text| ensures PageAt(text, k).None? {
      assert DigitsAt(text, k).None? && DigitsAt(text, k + 2).None? && DigitsAt(text, k + 4).None?;
    }
    PageFromLeftmost(text, 0);
  }

  /** A digit run that reaches the end of the text. */
  lemma DigitsToEnd(s: string, i: nat)
    requires i < |s| && forall k :: i <= k < |s| ==> IsDigit(s[k])
    ensures DigitsAt(s, i) == Some(|s|)
  {
  }

  /** "页码" followed by a number gives that number. */
  lemma PageLabelled(d: string)
    requires AllDigits(d)
    ensures ExtractPageNumber("页码" + d) == d
  {
    var s := "页码" + d;
    assert s[0] == '页' && s[1] == '码';
    assert !MatchesFrom(s, "检验项目", 0, 0);
    assert DigitsAt(s, 0).None?;
    assert MatchesFrom(s, "页码", 0, 2);
    assert MatchesFrom(s, "页码", 0, 1);
    DigitsToEnd(s, 2);
    assert s[2..|s|] == d;
    assert PageLabel(s, 0) == Some(d);
  }

  /** A text that is only a number is its own page number. */
  lemma WholeNumberIsPage(d: string)
    requires AllDigits(d)
    ensures ExtractPageNumber(d) == d
  {
    DigitsToEnd(d, 0);
    assert d[0..|d|] == d;
    assert !MatchesFrom(d, "检验项目", 0, 0);
    assert !MatchesFrom(d, "序号", SpaceRunEnd(d, |d|), 0);
    assert DigitsThenSerial(d, 0).None?;
    assert !MatchesFrom(d, "页码", 0, 0);
    assert TrailingDigits(d, 0) == Some(d);
  }

  /** A number right before "序号" is the page, whatever follows. */
  lemma SerialNumbered(d: string, rest: string)
    requires AllDigits(d)
    ensures ExtractPageNumber(d + "序号" + rest) == d
  {
    var s := d + "序号" + rest;
    assert forall k :: 0 <= k < |d| ==> s[k] == d[k];
    assert s[|d|] == '序' && s[|d| + 1] == '号';
    assert DigitsAt(s, 0) == Some(|d|);
    assert SpaceRunEnd(s, |d|) == |d|;
    assert s[0..|d|] == d;
    assert PageAt(s, 0) == Some(d);
  }

  // ---------------------------------------------------------------- the best hit

  /** A value as it compares with a number: ints, floats and booleans; None when the comparison raises. */
  function NumberOf(v: Json): Option<real> {
    match v
    case Num(n) => Some(n)
    case Bool(b) => Some(if b then 1.0 else 0.0)
    case _ => None
  }

  /**
   * The score `get_best_result` reads from one item: None for an item without
   * a non-empty score list, Err when reading or comparing the score raises.
   */
  function ItemScore(item: Json): (r: Result<Option<real>, string>)
    ensures !item.Obj? ==> r == Ok(None)
  {
    if !item.Obj? then Ok(None)
    else match Member(item, "score")
      case Some(Arr(scores)) =>
        if scores == [] then Ok(None)
        else if !scores[0].Obj? then Err("AttributeError")
        else (match NumberOf(MemberOr(scores[0], "value", Num(0.0)))
              case Some(x) => Ok(Some(x))
              case None => Err("TypeError"))
      case _ => Ok(None)
  }

  /** The running maximum, starting at -1, and the item that first reached it. */
  function PickBy<A, E>(score: A -> Result<Option<real>, E>, items: seq<A>): Result<(real, Option<A>), E> {
    if items == [] then Ok((-1.0, None))
    else match PickBy(score, items[..|items| - 1])
      case Err(e) => Err(e)
      case Ok(acc) =>
        match score(items[|items| - 1])
        case Err(e) => Err(e)
        case Ok(None) => Ok(acc)
        case Ok(Some(x)) => if x > acc.0 then Ok((x, Some(items[|items| - 1]))) else Ok(acc)
  }

  /** Whether item `k` has a score and what it is. */
  predicate ScoredAt<A, E>(score: A -> Result<Option<real>, E>, items: seq<A>, k: int, x: real) {
    0 <= k < |items| && score(items[k]) == Ok(Some(x))
  }

  /**
   * The pick is the first item with the strictly greatest score, provided it
   * beats -1; with no such item there is no pick.
   */
  lemma {:induction false} PickIsFirstMax<A, E>(score: A -> Result<Option<real>, E>, items: seq<A>)
    requires PickBy(score, items).Ok?
    ensures var (m, best) := PickBy(score, items).value;
      && m >= -1.0
      && (forall k, x :: ScoredAt(score, items, k, x) ==> x <= m)
      && (best.None? ==> m == -1.0)
      && (best.Some? ==> m > -1.0 && exists k :: FirstBest(score, items, k, m) && items[k] == best.value)
  {
    if items != [] {
      var init := items[..|items| - 1];
      var last := items[|items| - 1];
      PickIsFirstMax(score, init);
      var (m0, b0) := PickBy(score, init).value;
      forall k, x | ScoredAt(score, items, k, x) && k < |init| ensures ScoredAt(score, init, k, x) {
        assert init[k] == items[k];
      }
      if b0.Some? {
        var k :| FirstBest(score, init, k, m0) && init[k] == b0.value;
        assert init[k] == items[k];
        assert FirstBest(score, items, k, m0);
      }
      match score(last) {
        case Ok(None) =>
        case Ok(Some(x)) =>
          if x > m0 {
            assert FirstBest(score, items, |items| - 1, x);
          }
      }
    }
  }

  /** Item `k` has score `m` and every earlier scored item scores below `m`. */
  ghost predicate FirstBest<A, E>(score: A -> Result<Option<real>, E>, items: seq<A>, k: int, m: real) {
    ScoredAt(score, items, k, m) && forall j, x :: j < k && ScoredAt(score, items, j, x) ==> x < m
  }

  /** The first of the best hits is kept: a later item with an equal score does not replace it. */
  lemma TieKeepsEarlier<A, E>(score: A -> Result<Option<real>, E>, a: A, b: A, x: real)
    requires score(a) == Ok(Some(x)) && score(b) == Ok(Some(x)) && x > -1.0
    ensures PickBy(score, [a, b]) == Ok((x, Some(a)))
  {
    assert [a][..0] == [];
    assert PickBy(score, [a]) == Ok((x, Some(a)));
    assert [a, b][..1] == [a];
  }

  /** The loop of `get_best_result` over the results list. */
  method SelectBest(items: seq<Json>) returns (r: Result<(real, Option<Json>), string>)
    ensures r == PickBy(ItemScore, items)
  {
    var maxScore := -1.0;
    var best: Option<Json> := None;
    var i := 0;
    while i < |items|
      invariant 0 <= i <= |items|
      invariant PickBy(ItemScore, items[..i]) == Ok((maxScore, best))
    {
      assert items[..i + 1][..i] == items[..i];
      match ItemScore(items[i]) {
        case Err(e) =>
          PickErrStays(ItemScore, items, i + 1);
          return Err(e);
        case Ok(None) =>
        case Ok(Some(similarity)) =>
          if similarity > maxScore {
            maxScore := similarity;
            best := Some(items[i]);
          }
      }
      i := i + 1;
    }
    assert items[..i] == items;
    r := Ok((maxScore, best));
  }

  /** Once a prefix raises, the whole selection raises with the same error. */
  lemma {:induction false} PickErrStays<A, E>(score: A -> Result<Option<real>, E>, items: seq<A>, n: nat)
    requires n <= |items| && PickBy(score, items[..n]).Err?
    ensures PickBy(score, items) == PickBy(score, items[..n])
    decreases |items| - n
  {
    if n < |items| {
      assert items[..n + 1][..n] == items[..n];
      PickErrStays(score, items, n + 1);
    } else {
      assert items[..n] == items;
    }
  }

  /** What `get_best_result` returns for a hit. */
  datatype Best = Best(content: Json, pageNumber: string, similarity: real, sourceName: Json, rawData: Json)

  /**
   * Python `"error" in result`: a key of an object, an element of a list, a
   * substring of a string; on a number, a boolean or null `in` raises TypeError.
   */
  function MentionsError(response: Json): Result<bool, string> {
    match response
    case Obj(members) => Ok(HasKey(members, "error"))
    case Arr(items) => Ok(Str("error") in items)
    case Str(s) => Ok(Contains(s, "error"))
    case _ => Err("TypeError")
  }

  /** The results list: the data when it is a list, its "list" entry when it is an object, else empty. */
  function ResultsList(data: Json): Json {
    if data.Arr? then data
    else if data.Obj? && HasKey(data.members, "list") then Get(data.members, "list").value
    else Arr([])
  }

  /** The record built from the chosen item. */
  function BestOf(m: real, item: Json): (r: Result<Best, string>)
    ensures r.Ok? ==> r.value.similarity == m && r.value.rawData == item
  {
    var q := MemberOr(item, "q", Str(""));
    var page := if !Truthy(q) then Ok([]) else if q.Str? then Ok(ExtractPageNumber(q.s)) else Err("TypeError");
    match page
    case Err(e) => Err(e)
    case Ok(p) =>
      var content := OrJson(OrJson(MemberOr(item, "content", Null), MemberOr(item, "text", Null)), q);
      Ok(Best(content, p, m, MemberOr(item, "sourceName", Str("未知")), item))
  }

  /** `get_best_result` over a decoded search response; Err when it raises. */
  function BestResult(response: Json): (r: Result<Option<Best>, string>)
    ensures response.Num? || response.Bool? || response.Null? ==> r == Err("TypeError")
    ensures MentionsError(response) == Ok(true) ==> r == Ok(None)
    ensures (response.Arr? || response.Str?) || (response.Obj? && !HasKey(response.members, "data")) ==> r == Ok(None)
    ensures response.Obj? && HasKey(response.members, "data") && !Truthy(ResultsList(Get(response.members, "data").value)) ==> r == Ok(None)
  {
    match MentionsError(response)
    case Err(e) => Err(e)
    case Ok(mentioned) =>
    if mentioned then Ok(None)
    else if !response.Obj? || !HasKey(response.members, "data") then Ok(None)
    else
      var list := ResultsList(Get(response.members, "data").value);
      if !Truthy(list) then Ok(None)
      else match list
        case Arr(items) =>
          (match PickBy(ItemScore, items)
           case Err(e) => Err(e)
           case Ok((m, best)) =>
             if best.None? then Ok(None)
             else match BestOf(m, best.value)
               case Err(e) => Err(e)
               case Ok(b) => Ok(Some(b)))
        // iterating a string gives strings and iterating an object gives its keys: no item is a dict
        case Str(_) => Ok(None)
        case Obj(_) => Ok(None)
        case _ => Err("TypeError")
  }

  /** A hit is the first item with the greatest score, with that score as its similarity. */
  lemma BestResultIsFirstMax(response: Json)
    requires BestResult(response).Ok? && BestResult(response).value.Some?
    ensures response.Obj? && HasKey(response.members, "data") && ResultsList(Get(response.members, "data").value).Arr?
    ensures var items := ResultsList(Get(response.members, "data").value).items;
      var b := BestResult(response).value.value;
      && (forall j, x :: ScoredAt(ItemScore, items, j, x) ==> x <= b.similarity)
      && b.similarity > -1.0
      && exists k :: FirstBest(ItemScore, items, k, b.similarity) && items[k] == b.rawData
  {
    var items := ResultsList(Get(response.members, "data").value).items;
    PickIsFirstMax(ItemScore, items);
  }

  /** `get_best_result`. */
  method GetBestResult(response: Json) returns (r: Result<Option<Best>, string>)
    ensures r == BestResult(response)
  {
    var mentioned := MentionsError(response);
    if mentioned.Err? {
      return Err(mentioned.error);
    }
    if mentioned.value || !response.Obj? || !HasKey(response.members, "data") {
      return Ok(None);
    }
    var list := ResultsList(Get(response.members, "data").value);
    if !Truthy(list) {
      return Ok(None);
    }
    match list {
      case Arr(items) =>
        var picked := SelectBest(items);
        match picked {
          case Err(e) => r := Err(e);
          case Ok((m, best)) =>
            if best.None? {
              r := Ok(None);
            } else {
              match BestOf(m, best.value) {
                case Err(e) => r := Err(e);
                case Ok(b) => r := Ok(Some(b));
              }
            }
        }
      case Str(_) => r := Ok(None);
      case Obj(_) => r := Ok(None);
      case _ => r := Err("TypeError");
    }
  }

  // ---------------------------------------------------------------- the linked document

  const RulesPdf := "/static/files/2025年食品安全监督抽检实施细则.pdf"
  const StandardPdf := "/static/files/GB 2763.1-2022 农残.pdf"

  /** The document linked for a source: the sampling rules, else the residue standard, else none. */
  function PdfUrl(sourceName: string): (url: string)
    ensures Contains(sourceName, "细则") ==> url == RulesPdf
    ensures !Contains(sourceName, "细则") && (Contains(sourceName, "GB") || Contains(sourceName, "2763")) ==> url == StandardPdf
    ensures url == [] <==> !Contains(sourceName, "细则") && !Contains(sourceName, "GB") && !Contains(sourceName, "2763")
  {
    if Contains(sourceName, "细则") then RulesPdf
    else if Contains(sourceName, "GB") || Contains(sourceName, "2763") then StandardPdf
    else ""
  }
}
