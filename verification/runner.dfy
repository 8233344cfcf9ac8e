/**
 * How the checker assembles what it knows about one national standard from
 * the pages it fetched: the search-page fold that fills `parsed`, and the
 * detail-page merge that overwrites it. The fetched pages, the extract
 * tool's URLs and the serialised responses are parameters.
 */
module Runner {
  import opened Wrappers
  import opened Text
  import FoodmateExtract
  import HtmlExtractor
  import Scan

  /** The seven fields of `parsed`, as a value. */
  datatype Info = Info(
    gbNumber: string, searchPageUrl: string, publishDate: Option<string>, implementDate: Option<string>,
    abolishDate: Option<string>, status: Option<string>, detailPageUrl: Option<string>)

  const SearchPagePrefix := "https://down.foodmate.net/standard/search.php?kw="

  /** Python's truth value of an optional string: present and non-empty. */
  predicate Truthy(x: Option<string>) { x.Some? && x.value != [] }

  /** The starting record: the number, its search page, and nothing else yet. */
  function Initial(gbNumber: string): (r: Info)
    ensures r.gbNumber == gbNumber && EndsWith(r.searchPageUrl, gbNumber)
    ensures StartsWith(r.searchPageUrl, SearchPagePrefix)
    ensures r.publishDate.None? && r.implementDate.None? && r.abolishDate.None?
    ensures r.status.None? && r.detailPageUrl.None?
  {
    var u := SearchPagePrefix + gbNumber;
    assert u[..|SearchPagePrefix|] == SearchPagePrefix;
    assert u[|u| - |gbNumber|..] == gbNumber;
    Info(gbNumber, u, None, None, None, None, None)
  }

  // ---------------------------------------------------------------- search pages

  /** One search-page candidate: a missing raw content changes nothing. */
  function SearchStep(p: Info, raw: Option<string>): Info {
    match raw
    case None => p
    case Some(text) =>
      var d := FoodmateExtract.ExtractDatesFromSearchPage(text);
      var p1 := if p.publishDate.None? || p.implementDate.None?
        then p.(publishDate := d.publishDate, implementDate := d.implementDate) else p;
      var p2 := if p1.detailPageUrl.None? then p1.(detailPageUrl := FoodmateExtract.ExtractDetailUrl(text)) else p1;
      if p2.status.None? then p2.(status := FoodmateExtract.ExtractStatusForGb(text, p.gbNumber)) else p2
  }

  /** The candidates in order. */
  function SearchFold(p: Info, raws: seq<Option<string>>): Info
    decreases |raws|
  {
    if raws == [] then p else SearchFold(SearchStep(p, raws[0]), raws[1..])
  }

  /** The first detail link found in the candidates, in order. */
  function FirstDetailUrl(raws: seq<Option<string>>): Option<string> {
    if raws == [] then None
    else if raws[0].Some? && FoodmateExtract.ExtractDetailUrl(raws[0].value).Some? then FoodmateExtract.ExtractDetailUrl(raws[0].value)
    else FirstDetailUrl(raws[1..])
  }

  /** The first status found near the number in the candidates, in order. */
  function FirstStatus(raws: seq<Option<string>>, gbNumber: string): Option<string> {
    if raws == [] then None
    else if raws[0].Some? && FoodmateExtract.ExtractStatusForGb(raws[0].value, gbNumber).Some?
    then FoodmateExtract.ExtractStatusForGb(raws[0].value, gbNumber)
    else FirstStatus(raws[1..], gbNumber)
  }

  /** The fold never changes the number or the search page. */
  lemma {:induction false} SearchFoldKeepsIdentity(p: Info, raws: seq<Option<string>>)
    ensures SearchFold(p, raws).gbNumber == p.gbNumber
    ensures SearchFold(p, raws).searchPageUrl == p.searchPageUrl
    ensures SearchFold(p, raws).abolishDate == p.abolishDate
    decreases |raws|
  {
    if raws != [] {
      SearchFoldKeepsIdentity(SearchStep(p, raws[0]), raws[1..]);
    }
  }

  /** Starting from no link, the fold keeps the first link any candidate holds. */
  lemma {:induction false} SearchFoldFirstUrl(p: Info, raws: seq<Option<string>>)
    requires p.detailPageUrl.None?
    ensures SearchFold(p, raws).detailPageUrl == FirstDetailUrl(raws)
    decreases |raws|
  {
    if raws != [] {
      var q := SearchStep(p, raws[0]);
      if q.detailPageUrl.None? {
        SearchFoldFirstUrl(q, raws[1..]);
      } else {
        SearchFoldKeepsUrl(q, raws[1..]);
      }
    }
  }

  /** Once found, the link stays. */
  lemma {:induction false} SearchFoldKeepsUrl(p: Info, raws: seq<Option<string>>)
    requires p.detailPageUrl.Some?
    ensures SearchFold(p, raws).detailPageUrl == p.detailPageUrl
    decreases |raws|
  {
    if raws != [] {
      SearchFoldKeepsUrl(SearchStep(p, raws[0]), raws[1..]);
    }
  }

  /** Starting from no status, the fold keeps the first status any candidate shows near the number. */
  lemma {:induction false} SearchFoldFirstStatus(p: Info, raws: seq<Option<string>>)
    requires p.status.None?
    ensures SearchFold(p, raws).status == FirstStatus(raws, p.gbNumber)
    decreases |raws|
  {
    if raws != [] {
      var q := SearchStep(p, raws[0]);
      if q.status.None? {
        SearchFoldFirstStatus(q, raws[1..]);
      } else {
        SearchFoldKeepsStatus(q, raws[1..]);
      }
    }
  }

  /** Once found, the status stays. */
  lemma {:induction false} SearchFoldKeepsStatus(p: Info, raws: seq<Option<string>>)
    requires p.status.Some?
    ensures SearchFold(p, raws).status == p.status
    ensures SearchFold(p, raws).gbNumber == p.gbNumber
    decreases |raws|
  {
    if raws != [] {
      SearchFoldKeepsStatus(SearchStep(p, raws[0]), raws[1..]);
    }
  }

  /** Once both dates are known, later candidates leave them alone. */
  lemma {:induction false} SearchFoldKeepsDates(p: Info, raws: seq<Option<string>>)
    requires p.publishDate.Some? && p.implementDate.Some?
    ensures SearchFold(p, raws).publishDate == p.publishDate
    ensures SearchFold(p, raws).implementDate == p.implementDate
    decreases |raws|
  {
    if raws != [] {
      SearchFoldKeepsDates(SearchStep(p, raws[0]), raws[1..]);
    }
  }

  /** While one date is missing, a candidate re-assigns both, and can lose a date found earlier. */
  lemma EarlierDateCanBeLost(p: Info)
    requires p.publishDate.None? && p.implementDate.Some?
    ensures SearchStep(p, Some("")).implementDate.None?
  {
    assert Scan.Search(FoodmateExtract.GbYearAt, "", 0).None? by {
      assert FoodmateExtract.GbYearAt("", 0).None?;
    }
  }

  // ---------------------------------------------------------------- detail link, abolition, status

  /** A non-empty URL from the detail extract (the markdown one, else the text one) overrides the search-page link. */
  function PreferExtractedUrl(p: Info, markdownUrl: Option<string>, textUrl: Option<string>): (r: Info)
    ensures Truthy(markdownUrl) ==> r == p.(detailPageUrl := markdownUrl)
    ensures !Truthy(markdownUrl) && Truthy(textUrl) ==> r == p.(detailPageUrl := textUrl)
    ensures !Truthy(markdownUrl) && !Truthy(textUrl) ==> r == p
  {
    var u := if Truthy(markdownUrl) then markdownUrl else textUrl;
    if Truthy(u) then p.(detailPageUrl := u) else p
  }

  /** The detail pages in order (the text one, then the markdown one). */
  function AbolishFold(p: Info, raws: seq<Option<string>>): Info
    decreases |raws|
  {
    if raws == [] then p
    else
      var q := if raws[0].Some? && p.abolishDate.None?
        then p.(abolishDate := FoodmateExtract.ExtractAbolishDate(raws[0].value)) else p;
      AbolishFold(q, raws[1..])
  }

  /** The first abolition date found on the detail pages, in order. */
  function FirstAbolishDate(raws: seq<Option<string>>): Option<string> {
    if raws == [] then None
    else if raws[0].Some? && FoodmateExtract.ExtractAbolishDate(raws[0].value).Some?
    then FoodmateExtract.ExtractAbolishDate(raws[0].value)
    else FirstAbolishDate(raws[1..])
  }

  /** Starting from none, the abolition date is the first one a detail page gives; everything else is unchanged. */
  lemma {:induction false} AbolishFoldFirst(p: Info, raws: seq<Option<string>>)
    requires p.abolishDate.None?
    ensures AbolishFold(p, raws) == p.(abolishDate := FirstAbolishDate(raws))
    decreases |raws|
  {
    if raws != [] {
      var q := if raws[0].Some? then p.(abolishDate := FoodmateExtract.ExtractAbolishDate(raws[0].value)) else p;
      if q.abolishDate.None? {
        AbolishFoldFirst(q, raws[1..]);
      } else {
        AbolishFoldKeeps(q, raws[1..]);
      }
    }
  }

  lemma {:induction false} AbolishFoldKeeps(p: Info, raws: seq<Option<string>>)
    requires p.abolishDate.Some?
    ensures AbolishFold(p, raws) == p
    decreases |raws|
  {
    if raws != [] {
      AbolishFoldKeeps(p, raws[1..]);
    }
  }

  /**
   * The last resort for a status still falsy: the image markers in the
   * serialised text-extract response, then in the serialised search response.
   */
  function StatusFallback(p: Info, textResponse: string, searchResponse: string): (r: Info)
    ensures Truthy(p.status) ==> r == p
    ensures !Truthy(p.status) ==> r == p.(status := FoodmateExtract.ExtractStatusFromAny(textResponse).Or(
      FoodmateExtract.ExtractStatusFromAny(searchResponse)))
  {
    if Truthy(p.status) then p
    else p.(status := FoodmateExtract.ExtractStatusFromAny(textResponse).Or(FoodmateExtract.ExtractStatusFromAny(searchResponse)))
  }

  /** The whole post-response fold of `run_smoke`. */
  function Build(gbNumber: string, searchRaws: seq<Option<string>>, markdownUrl: Option<string>, textUrl: Option<string>,
                 detailRaws: seq<Option<string>>, textResponse: string, searchResponse: string): Info
  {
    var p := SearchFold(Initial(gbNumber), searchRaws);
    StatusFallback(AbolishFold(PreferExtractedUrl(p, markdownUrl, textUrl), detailRaws), textResponse, searchResponse)
  }

  /** What the fold promises about the finished record. */
  lemma BuildResult(gbNumber: string, searchRaws: seq<Option<string>>, markdownUrl: Option<string>, textUrl: Option<string>,
                    detailRaws: seq<Option<string>>, textResponse: string, searchResponse: string)
    ensures var r := Build(gbNumber, searchRaws, markdownUrl, textUrl, detailRaws, textResponse, searchResponse);
      && r.gbNumber == gbNumber && r.searchPageUrl == SearchPagePrefix + gbNumber
      && r.abolishDate == FirstAbolishDate(detailRaws)
      && r.detailPageUrl == (if Truthy(markdownUrl) then markdownUrl else if Truthy(textUrl) then textUrl
                             else FirstDetailUrl(searchRaws))
      && (FirstStatus(searchRaws, gbNumber).Some? ==> r.status == FirstStatus(searchRaws, gbNumber))
  {
    var p0 := Initial(gbNumber);
    var p := SearchFold(p0, searchRaws);
    SearchFoldKeepsIdentity(p0, searchRaws);
    SearchFoldFirstUrl(p0, searchRaws);
    SearchFoldFirstStatus(p0, searchRaws);
    var q := PreferExtractedUrl(p, markdownUrl, textUrl);
    AbolishFoldFirst(q, detailRaws);
    FirstStatusTruthy(searchRaws, gbNumber);
  }

  /** A status found near the number is never empty. */
  lemma {:induction false} FirstStatusTruthy(raws: seq<Option<string>>, gbNumber: string)
    ensures FirstStatus(raws, gbNumber).Some? ==> Truthy(FirstStatus(raws, gbNumber))
  {
    if raws != [] && !(raws[0].Some? && FoodmateExtract.ExtractStatusForGb(raws[0].value, gbNumber).Some?) {
      FirstStatusTruthy(raws[1..], gbNumber);
    }
  }

  // ---------------------------------------------------------------- detail page

  const ExcerptStart := "<div class=\"fl_rb\">"
  const ExcerptEnd := "<div class=\"biaoqian\">"

  /** The part of the detail page that is saved: from the start marker to just before the end marker after it. */
  function Excerpt(html: string): (r: string)
    ensures Contains(html, r)
    ensures !Contains(html, ExcerptStart) ==> r == html
    ensures Contains(html, ExcerptStart) ==> StartsWith(r, ExcerptStart)
  {
    var i := Find(html, ExcerptStart);
    if i == -1 then ContainsSelf(html); html
    else
      var j := FindFrom(html, ExcerptEnd, i);
      FindFromFound(html, ExcerptEnd, i);
      var e := if j == -1 then |html| else j;
      EndMarkerAfterStart(html, i, 0);
      var r := html[i..e];
      assert r[..|ExcerptStart|] == ExcerptStart;
      ContainsAt(html, r, i);
      r
  }

  /**
   * Where the start marker occurs, the excerpt is the page from its first
   * occurrence up to the first end marker after it: it holds no end marker,
   * and the page either ends with it or goes on with the end marker.
   */
  lemma ExcerptSpan(html: string)
    requires Contains(html, ExcerptStart)
    ensures var i := Find(html, ExcerptStart); var r := Excerpt(html);
            i + |r| <= |html| && html[i..i + |r|] == r && !Contains(r, ExcerptEnd)
            && (i + |r| == |html| || OccursAt(html, ExcerptEnd, i + |r|))
  {
    var i := Find(html, ExcerptStart);
    var j := FindFrom(html, ExcerptEnd, i);
    FindFromFound(html, ExcerptEnd, i);
    FindFromFirst(html, ExcerptEnd, i);
    var e := if j == -1 then |html| else j;
    EndMarkerAfterStart(html, i, 0);
    var r := html[i..e];
    assert Excerpt(html) == r;
    if Contains(r, ExcerptEnd) {
      var k :| 0 <= k <= |r| - |ExcerptEnd| && OccursAt(r, ExcerptEnd, k);
      OccursInSlice(html, i, e, ExcerptEnd, k);
      assert false;
    }
  }

  /** The search for the end marker from the start marker's position skips past the whole start marker. */
  lemma {:induction false} EndMarkerAfterStart(html: string, i: nat, t: nat)
    requires OccursAt(html, ExcerptStart, i) && t <= |ExcerptStart|
    ensures FindFrom(html, ExcerptEnd, i + t) == -1 || i + |ExcerptStart| <= FindFrom(html, ExcerptEnd, i + t)
    decreases |ExcerptStart| - t
  {
    if t < |ExcerptStart| && i + t + |ExcerptEnd| <= |html| {
      var w := html[i + t..i + t + |ExcerptEnd|];
      if t == 0 {
        assert html[i + 12] == ExcerptStart[12] == 'f';
        assert w[12] == html[i + 12] && ExcerptEnd[12] == 'b';
      } else {
        assert html[i + t] == ExcerptStart[t] != '<';
        assert w[0] == html[i + t] && ExcerptEnd[0] == '<';
      }
      assert !OccursAt(html, ExcerptEnd, i + t);
      MatchesOccurs(html, ExcerptEnd, i + t);
      EndMarkerAfterStart(html, i, t + 1);
    }
  }

  /** The detail-page merge: present extracted values overwrite, both URLs are kept. */
  function Merge(p: Info, e: HtmlExtractor.StandardInfo): (r: Info)
    ensures r.searchPageUrl == p.searchPageUrl && r.detailPageUrl == p.detailPageUrl
    ensures r.gbNumber == (if e.gbNumber.Some? then e.gbNumber.value else p.gbNumber)
    ensures r.publishDate == e.publishDate.Or(p.publishDate) && r.implementDate == e.implementDate.Or(p.implementDate)
    ensures r.abolishDate == e.abolishDate.Or(p.abolishDate) && r.status == e.status.Or(p.status)
  {
    Info(
      e.gbNumber.GetOr(p.gbNumber), p.searchPageUrl, e.publishDate.Or(p.publishDate), e.implementDate.Or(p.implementDate),
      e.abolishDate.Or(p.abolishDate), e.status.Or(p.status), p.detailPageUrl)
  }

  /** Merging the same page twice changes nothing more. */
  lemma MergeIdempotent(p: Info, e: HtmlExtractor.StandardInfo)
    ensures Merge(Merge(p, e), e) == Merge(p, e)
  {
  }

  /** A page that yields nothing leaves the record as it was. */
  lemma MergeNothing(p: Info)
    ensures Merge(p, HtmlExtractor.StandardInfo(None, None, None, None, None)) == p
  {
  }

  /** `parsed`, updated in place. */
  class Parsed {
    var gbNumber: string
    var searchPageUrl: string
    var publishDate: Option<string>
    var implementDate: Option<string>
    var abolishDate: Option<string>
    var status: Option<string>
    var detailPageUrl: Option<string>

    /** The record as a value. */
    function Fields(): Info
      reads this
    {
      Info(gbNumber, searchPageUrl, publishDate, implementDate, abolishDate, status, detailPageUrl)
    }

    /** The starting record of `run_smoke`. */
    constructor (gb: string)
      ensures Fields() == Initial(gb)
    {
      gbNumber := gb;
      searchPageUrl := SearchPagePrefix + gb;
      publishDate, implementDate, abolishDate, status, detailPageUrl := None, None, None, None, None;
    }

    /** The loop over the search-page candidates. */
    method FoldSearchPages(raws: seq<Option<string>>)
      modifies this
      ensures Fields() == SearchFold(old(Fields()), raws)
    {
      var i := 0;
      while i < |raws|
        invariant 0 <= i <= |raws|
        invariant SearchFold(Fields(), raws[i..]) == SearchFold(old(Fields()), raws)
      {
        assert raws[i..][1..] == raws[i + 1..];
        TakeSearchPage(raws[i]);
        i := i + 1;
      }
    }

    /** One pass of that loop. */
    method TakeSearchPage(raw: Option<string>)
      modifies this
      ensures Fields() == SearchStep(old(Fields()), raw)
    {
      if raw.Some? {
        var text := raw.value;
        if publishDate.None? || implementDate.None? {
          var d := FoodmateExtract.ExtractDatesFromSearchPage(text);
          publishDate, implementDate := d.publishDate, d.implementDate;
        }
        if detailPageUrl.None? {
          detailPageUrl := FoodmateExtract.ExtractDetailUrl(text);
        }
        if status.None? {
          status := FoodmateExtract.ExtractStatusForGb(text, gbNumber);
        }
      }
    }

    /** The override by the detail extract's own URL. */
    method TakeExtractedUrl(markdownUrl: Option<string>, textUrl: Option<string>)
      modifies this
      ensures Fields() == PreferExtractedUrl(old(Fields()), markdownUrl, textUrl)
    {
      var u := if Truthy(markdownUrl) then markdownUrl else textUrl;
      if Truthy(u) {
        detailPageUrl := u;
      }
    }

    /** The loop over the detail pages for the abolition date. */
    method FoldDetailPages(raws: seq<Option<string>>)
      modifies this
      ensures Fields() == AbolishFold(old(Fields()), raws)
    {
      var i := 0;
      while i < |raws|
        invariant 0 <= i <= |raws|
        invariant AbolishFold(Fields(), raws[i..]) == AbolishFold(old(Fields()), raws)
      {
        assert raws[i..][1..] == raws[i + 1..];
        if raws[i].Some? && abolishDate.None? {
          abolishDate := FoodmateExtract.ExtractAbolishDate(raws[i].value);
        }
        i := i + 1;
      }
    }

    /** The final status fallback. */
    method FallBackOnMarkers(textResponse: string, searchResponse: string)
      modifies this
      ensures Fields() == StatusFallback(old(Fields()), textResponse, searchResponse)
    {
      if !Truthy(status) {
        status := FoodmateExtract.ExtractStatusFromAny(textResponse).Or(FoodmateExtract.ExtractStatusFromAny(searchResponse));
      }
    }

    /** The loop over the five info fields: each value the page gave replaces the old one. */
    method Overwrite(e: HtmlExtractor.StandardInfo)
      modifies this
      ensures Fields() == Merge(old(Fields()), e)
    {
      if e.gbNumber.Some? { gbNumber := e.gbNumber.value; }
      if e.publishDate.Some? { publishDate := e.publishDate; }
      if e.implementDate.Some? { implementDate := e.implementDate; }
      if e.abolishDate.Some? { abolishDate := e.abolishDate; }
      if e.status.Some? { status := e.status; }
    }

    /**
     * `fetch_and_update_from_detail_page`, with the fetched page (or the
     * exception's message) as a parameter; `saved` is what goes to the file.
     */
    method UpdateFromDetailPage(page: Result<string, string>)
      returns (ok: bool, message: Option<string>, html: Option<string>, saved: Option<string>)
      modifies this
      ensures !Truthy(old(detailPageUrl)) ==> ok == false && message == Some("未找到详情页URL") && html.None?
      ensures !Truthy(old(detailPageUrl)) || page.Err? ==> Fields() == old(Fields()) && !ok && saved.None?
      ensures Truthy(old(detailPageUrl)) && page.Err? ==> message == Some(page.error) && html.None?
      ensures Truthy(old(detailPageUrl)) && page.Ok? ==> (
        && ok && message.None? && html == Some(page.value) && saved == Some(Excerpt(page.value))
        && Fields() == Merge(old(Fields()), HtmlExtractor.ExtractStandardInfo(page.value, true)))
    {
      if !Truthy(detailPageUrl) {
        return false, Some("未找到详情页URL"), None, None;
      }
      match page
      case Err(e) =>
        return false, Some(e), None, None;
      case Ok(content) =>
        saved := Some(Excerpt(content));
        var extracted := HtmlExtractor.ExtractStandardInfo(content, true);
        var keepSearch, keepDetail := searchPageUrl, detailPageUrl;
        Overwrite(extracted);
        searchPageUrl, detailPageUrl := keepSearch, keepDetail;
        return true, None, Some(content), saved;
    }
  }

  /** The post-response part of `run_smoke`, step by step on a fresh record. */
  method BuildParsed(gbNumber: string, searchRaws: seq<Option<string>>, markdownUrl: Option<string>, textUrl: Option<string>,
                     detailRaws: seq<Option<string>>, textResponse: string, searchResponse: string)
    returns (p: Parsed)
    ensures fresh(p)
    ensures p.Fields() == Build(gbNumber, searchRaws, markdownUrl, textUrl, detailRaws, textResponse, searchResponse)
  {
    p := new Parsed(gbNumber);
    p.FoldSearchPages(searchRaws);
    p.TakeExtractedUrl(markdownUrl, textUrl);
    p.FoldDetailPages(detailRaws);
    p.FallBackOnMarkers(textResponse, searchResponse);
  }
}
