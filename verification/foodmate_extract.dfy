/**
 * Reading the food-standards site's search and detail pages as plain text:
 * dates near their labels, the detail-page link, and the status near the
 * standard's number.
 */
module FoodmateExtract {
  import opened Wrappers
  import opened Text
  import opened Scan

  /** A character of `\w` for the purpose of `\b`: ASCII letters and digits, '_' and CJK ideographs. */
  predicate IsWordChar(c: char) { IsAlnumAscii(c) || c == '_' || IsCjk(c) }

  /** `s[a:b]` with Python's clamping of the bounds to the string. */
  function Window(s: string, a: nat, b: nat): (r: string)
    ensures |r| <= |s| && (a <= b ==> |r| <= b - a)
  {
    var lo := if a <= |s| then a else |s|;
    var hi := if b <= |s| then b else |s|;
    if lo <= hi then s[lo..hi] else []
  }

  // ---------------------------------------------------------------- dates

  /** `\d{4}-\d{2}-\d{2}`: ten characters, digits with hyphens at 4 and 7. */
  predicate IsYmd(d: string) {
    |d| == 10 && d[4] == '-' && d[7] == '-' &&
    forall k :: 0 <= k < 10 && k != 4 && k != 7 ==> IsDigit(d[k])
  }

  /** Python's `\b` at `j`: a word character on exactly one side. */
  predicate WordBoundary(s: string, j: nat) {
    (0 < j <= |s| && IsWordChar(s[j - 1])) != (j < |s| && IsWordChar(s[j]))
  }

  /** `\b(\d{4}-\d{2}-\d{2})\b` tried at `i`: a date with a word boundary on either side. */
  function YmdAt(s: string, i: nat): (r: Option<nat>)
    ensures r.Some? <==> i + 10 <= |s| && IsYmd(s[i..i + 10]) && WordBoundary(s, i) && WordBoundary(s, i + 10)
    ensures r.Some? ==> r.value == i + 10
  {
    if i + 10 <= |s| && IsYmd(s[i..i + 10]) then
      assert IsDigit(s[i..i + 10][0]) && IsDigit(s[i..i + 10][9]);
      assert IsWordChar(s[i]) && IsWordChar(s[i + 9]);
      if (i == 0 || !IsWordChar(s[i - 1])) && (i + 10 == |s| || !IsWordChar(s[i + 10])) then Some(i + 10) else None
    else None
  }

  /** `_first_match(YMD_PATTERN, text)`: the leftmost date standing on its own, or None when there is none (see `FirstDateLeftmost`). */
  function FirstDate(text: string): (r: Option<string>)
    ensures r.Some? ==> IsYmd(r.value) && Contains(text, r.value)
  {
    match Search(YmdAt, text, 0)
    case None => None
    case Some(sp) =>
      ContainsAt(text, text[sp.start..sp.end], sp.start);
      Some(text[sp.start..sp.end])
  }

  /** `FirstDate` is None exactly when no date stands on its own, and otherwise the leftmost one. */
  lemma FirstDateLeftmost(text: string)
    ensures FirstDate(text).None? <==> NoMatch(YmdAt, text)
    ensures FirstDate(text).Some? ==> exists i: nat :: FirstMatchAt(YmdAt, text, i) && FirstDate(text).value == text[i..i + 10]
  {
    SearchFirstMatch(YmdAt, text);
  }

  /** `YMD_PATTERN.findall(text)`: every date standing on its own, left to right; the first of them is `FirstDate`. */
  function AllDates(text: string): (r: seq<string>)
    ensures forall k :: 0 <= k < |r| ==> IsYmd(r[k])
    ensures r == [] <==> FirstDate(text).None?
    ensures r != [] ==> FirstDate(text) == Some(r[0])
  {
    var sps := FindAll(YmdAt, text, 0);
    var r := SpanTexts(text, sps);
    forall k | 0 <= k < |r| ensures IsYmd(r[k]) {
      assert YmdAt(text, sps[k].start) == Some(sps[k].end);
    }
    r
  }

  /** A date on its own is found, whole and only once. */
  lemma LoneDateFound(d: string)
    requires IsYmd(d)
    ensures FirstDate(d) == Some(d)
    ensures AllDates(d) == [d]
  {
    assert d[0..10] == d;
    assert YmdAt(d, 0) == Some(10);
    assert Search(YmdAt, d, 0) == Some(Span(0, 10));
    assert Search(YmdAt, d, 10).None?;
  }

  /** A date glued to a letter or digit is not on its own, so it is not found. */
  lemma GluedDateSkipped(d: string)
    requires IsYmd(d)
    ensures FirstDate("x" + d).None?
  {
    var s := "x" + d;
    forall i | 0 <= i <= |s| ensures YmdAt(s, i).None? {
      if i == 1 {
        assert !WordBoundary(s, 1);
      } else if i + 10 <= |s| {
        assert i == 0;
        assert s[0..10][0] == 'x';
      }
    }
  }

  /** The first date within `width` characters of the first `key` (see `DateNearAt`); None when `key` does not occur. */
  function DateNear(text: string, key: string, width: nat): (r: Option<string>)
    ensures !Contains(text, key) ==> r.None?
    ensures Contains(text, key) ==> r == FirstDate(Window(text, Find(text, key), Find(text, key) + width))
    ensures r.Some? ==> IsYmd(r.value) && Contains(text, key)
  {
    var i := Find(text, key);
    if i == -1 then None else FirstDate(Window(text, i, i + width))
  }

  /** With `i` the first occurrence of `key`, the date near it is the first date of the `width` characters from `i`. */
  lemma DateNearAt(text: string, key: string, width: nat, i: nat)
    requires FirstAt(text, key, 0, i)
    ensures DateNear(text, key, width) == FirstDate(Window(text, i, i + width))
  {
    FindIs(text, key, i);
  }

  /** `\bGB\s*\d+-\d{4}\b` tried at `i`. */
  function GbYearAt(s: string, i: nat): (r: Option<nat>)
    ensures r.Some? ==> i < r.value <= |s|
  {
    if !OccursAt(s, "GB", i) || (i > 0 && IsWordChar(s[i - 1])) then None
    else
      var k := SpaceRunEnd(s, i + 2);
      var e := DigitRunEnd(s, k);
      if e == k || e + 5 > |s| || s[e] != '-' || !AllDigits(s[e + 1..e + 5]) then None
      else if e + 5 < |s| && IsWordChar(s[e + 5]) then None
      else Some(e + 5)
  }

  /** The publish and implementation dates of a search page. */
  datatype SearchDates = SearchDates(publishDate: Option<string>, implementDate: Option<string>)

  /** The dates within 1200 characters from the leftmost "GB n-yyyy" code, left to right; none without a code. */
  function CodeWindowDates(raw: string): (r: seq<string>)
    ensures NoMatch(GbYearAt, raw) ==> r == []
    ensures forall i: nat :: FirstMatchAt(GbYearAt, raw, i) ==> r == AllDates(Window(raw, i, i + 1200))
    ensures forall k :: 0 <= k < |r| ==> IsYmd(r[k])
  {
    SearchFirstMatch(GbYearAt, raw);
    forall i: nat | FirstMatchAt(GbYearAt, raw, i) ensures i == Search(GbYearAt, raw, 0).value.start {
      FirstMatchUnique(GbYearAt, raw, i, Search(GbYearAt, raw, 0).value.start);
    }
    match Search(GbYearAt, raw, 0)
    case None => []
    case Some(m) => AllDates(Window(raw, m.start, m.start + 1200))
  }

  /**
   * `extract_dates_from_search_page`: each date is the first one within 500
   * characters of its label; where one is missing, the first and second dates
   * within 1200 characters of the first "GB n-yyyy" code fill the gaps.
   */
  function ExtractDatesFromSearchPage(raw: string): (r: SearchDates)
    ensures var pub := DateNear(raw, "发布日期", 500); var dates := CodeWindowDates(raw);
            r.publishDate == if pub.Some? then pub else if |dates| > 0 then Some(dates[0]) else None
    ensures var impl := DateNear(raw, "实施日期", 500); var dates := CodeWindowDates(raw);
            r.implementDate == if impl.Some? then impl else if |dates| > 1 then Some(dates[1]) else None
    ensures r.publishDate.Some? ==> IsYmd(r.publishDate.value)
    ensures r.implementDate.Some? ==> IsYmd(r.implementDate.value)
  {
    var pub := DateNear(raw, "发布日期", 500);
    var impl := DateNear(raw, "实施日期", 500);
    if pub.Some? && impl.Some? then SearchDates(pub, impl)
    else match Search(GbYearAt, raw, 0)
      case None =>
        SearchFirstMatch(GbYearAt, raw);
        SearchDates(pub, impl)
      case Some(m) =>
        var dates := AllDates(Window(raw, m.start, m.start + 1200));
        SearchFirstMatch(GbYearAt, raw);
        assert dates == CodeWindowDates(raw);
        if dates == [] then SearchDates(pub, impl)
        else
          SearchDates(pub.Or(Some(dates[0])), if |dates| > 1 then impl.Or(Some(dates[1])) else impl)
  }

  /** The fallback fills a date only from the window after a "GB n-yyyy" code, and only where the label gave none. */
  lemma FallbackNeedsCode(raw: string)
    requires NoMatch(GbYearAt, raw)
    ensures ExtractDatesFromSearchPage(raw) == SearchDates(DateNear(raw, "发布日期", 500), DateNear(raw, "实施日期", 500))
  {
  }

  /** A label date wins over the code window: with both labels dated, the window is not consulted. */
  lemma LabelDatesWin(raw: string)
    requires DateNear(raw, "发布日期", 500).Some? && DateNear(raw, "实施日期", 500).Some?
    ensures ExtractDatesFromSearchPage(raw) == SearchDates(DateNear(raw, "发布日期", 500), DateNear(raw, "实施日期", 500))
  {
  }

  // ---------------------------------------------------------------- detail link

  const DetailPrefix := "://down.foodmate.net/standard/sort/"

  /** `s[a..b]` is all digits. */
  predicate DigitsIn(s: string, a: nat, b: nat)
    requires a <= b <= |s|
  {
    forall m :: a <= m < b ==> IsDigit(s[m])
  }

  /** Where the part after "http" or "https" starts, for a link tried at `i`. */
  function SchemeEnd(s: string, i: nat): nat {
    if i + 4 < |s| && s[i + 4] == 's' then i + 5 else i + 4
  }

  /**
   * `s[i..e]` is a whole match of `https?` + `prefix` + `\d+/\d+\.html`:
   * "http" or "https", the prefix, digits, '/', digits, ".html".
   */
  predicate IsLinkSpan(s: string, i: nat, e: nat, prefix: string) {
    var p := SchemeEnd(s, i);
    i <= e <= |s| && OccursAt(s, "http", i) && OccursAt(s, prefix, p) && p + |prefix| <= e && IsLinkTailSpan(s, p + |prefix|, e)
  }

  /** `s[q..e]` is digits, '/', digits, ".html". */
  predicate IsLinkTailSpan(s: string, q: nat, e: nat) {
    q <= e <= |s| && 5 <= e && OccursAt(s, ".html", e - 5)
    && exists b :: q < b && b + 1 < e - 5 && s[b] == '/' && DigitsIn(s, q, b) && DigitsIn(s, b + 1, e - 5)
  }

  /** `s[i..e]` is a link to a detail page: `https?://down\.foodmate\.net/standard/sort/\d+/\d+\.html`. */
  predicate IsDetailUrlSpan(s: string, i: nat, e: nat) {
    IsLinkSpan(s, i, e, DetailPrefix)
  }

  /** `https?` + `prefix` + `\d+/\d+\.html` tried at `i`: the end of the match (see `LinkAtSpan` and `LinkAtEnd`). */
  function LinkAt(s: string, i: nat, prefix: string): (r: Option<nat>)
    ensures r.Some? ==> i < r.value <= |s|
  {
    if !OccursAt(s, "http", i) || !OccursAt(s, prefix, SchemeEnd(s, i)) then None
    else LinkTail(s, SchemeEnd(s, i) + |prefix|)
  }

  /** The `\d+/\d+\.html` part of a link, tried at `q`: the end of the match. */
  function LinkTail(s: string, q: nat): (r: Option<nat>)
    requires q <= |s|
    ensures r.Some? ==> q < r.value <= |s|
  {
    var b := DigitRunEnd(s, q);
    if b == q || b == |s| || s[b] != '/' then None
    else
      var c := DigitRunEnd(s, b + 1);
      if c == b + 1 || !OccursAt(s, ".html", c) then None
      else Some(c + 5)
  }

  /** What `LinkAt` finds is a link. */
  lemma LinkAtSpan(s: string, i: nat, prefix: string)
    ensures LinkAt(s, i, prefix).Some? ==> IsLinkSpan(s, i, LinkAt(s, i, prefix).value, prefix)
  {
    if LinkAt(s, i, prefix).Some? {
      LinkTailSpan(s, SchemeEnd(s, i) + |prefix|);
    }
  }

  /** What `LinkTail` finds is digits, '/', digits, ".html". */
  lemma LinkTailSpan(s: string, q: nat)
    requires q <= |s|
    ensures LinkTail(s, q).Some? ==> IsLinkTailSpan(s, q, LinkTail(s, q).value)
  {
    if LinkTail(s, q).Some? {
      var b := DigitRunEnd(s, q);
      var c := DigitRunEnd(s, b + 1);
      assert LinkTail(s, q).value == c + 5;
      assert s[b] == '/' && DigitsIn(s, q, b) && DigitsIn(s, b + 1, c);
    }
  }

  /** A link from `i` to `e` is the match `LinkAt` finds at `i`: the pattern allows no other end there. */
  lemma LinkAtEnd(s: string, i: nat, e: nat, prefix: string)
    requires IsLinkSpan(s, i, e, prefix)
    ensures LinkAt(s, i, prefix) == Some(e)
  {
    LinkTailEnd(s, SchemeEnd(s, i) + |prefix|, e);
  }

  /** The digits-slash-digits tail allows one end only. */
  lemma LinkTailEnd(s: string, q: nat, e: nat)
    requires IsLinkTailSpan(s, q, e)
    ensures LinkTail(s, q) == Some(e)
  {
    var b :| q < b && b + 1 < e - 5 && s[b] == '/' && DigitsIn(s, q, b) && DigitsIn(s, b + 1, e - 5);
    assert s[e - 5..e][0] == s[e - 5];
    assert !IsDigit(s[b]) && !IsDigit(s[e - 5]);
    DigitRunEndIs(s, q, b);
    DigitRunEndIs(s, b + 1, e - 5);
  }

  /** The detail-page link pattern tried at `i`: the end of the match. */
  function DetailUrlAt(s: string, i: nat): (r: Option<nat>)
    ensures r.Some? ==> i < r.value <= |s| && IsDetailUrlSpan(s, i, r.value)
  {
    LinkAtSpan(s, i, DetailPrefix);
    LinkAt(s, i, DetailPrefix)
  }

  /** Where a detail link runs from `i` to `e`, the matcher finds it at `i`, ending at `e`. */
  lemma DetailUrlAtEnd(s: string, i: nat, e: nat)
    requires IsDetailUrlSpan(s, i, e)
    ensures DetailUrlAt(s, i) == Some(e)
  {
    LinkAtEnd(s, i, e, DetailPrefix);
  }

  /** Where the matcher finds nothing, no span of the page is a detail link. */
  lemma NoDetailUrlSpan(raw: string)
    requires NoMatch(DetailUrlAt, raw)
    ensures forall i: nat, e: nat :: !IsDetailUrlSpan(raw, i, e)
  {
    forall i: nat, e: nat ensures !IsDetailUrlSpan(raw, i, e) {
      if IsDetailUrlSpan(raw, i, e) {
        DetailUrlAtEnd(raw, i, e);
        assert false;
      }
    }
  }

  /** A detail link starts with "http" and ends with ".html". */
  lemma DetailUrlSpanShape(raw: string, i: nat, e: nat)
    requires IsDetailUrlSpan(raw, i, e)
    ensures StartsWith(raw[i..e], "http") && EndsWith(raw[i..e], ".html")
  {
    OccursInSlice(raw, i, e, "http", 0);
    OccursInSlice(raw, i, e, ".html", e - i - 5);
  }

  /** The leftmost match is a detail link, starting with "http" and ending with ".html". */
  lemma FirstDetailUrl(raw: string, i: nat, e: nat)
    requires DetailUrlAt(raw, i) == Some(e)
    ensures IsDetailUrlSpan(raw, i, e) && e <= |raw|
    ensures StartsWith(raw[i..e], "http") && EndsWith(raw[i..e], ".html") && Contains(raw, raw[i..e])
  {
    DetailUrlSpanShape(raw, i, e);
    ContainsAt(raw, raw[i..e], i);
  }

  /** `extract_detail_url_from_search_page`: the leftmost detail-page link, or None exactly when there is none. */
  function ExtractDetailUrl(raw: string): (r: Option<string>)
    ensures r.None? <==> forall i: nat, e: nat :: !IsDetailUrlSpan(raw, i, e)
    ensures r.Some? ==> exists i: nat, e: nat :: FirstMatchAt(DetailUrlAt, raw, i) && IsDetailUrlSpan(raw, i, e) && r.value == raw[i..e]
    ensures r.Some? ==> StartsWith(r.value, "http") && EndsWith(r.value, ".html") && Contains(raw, r.value)
  {
    SearchFirstMatch(DetailUrlAt, raw);
    match Search(DetailUrlAt, raw, 0)
    case None =>
      NoDetailUrlSpan(raw);
      None
    case Some(sp) =>
      FirstDetailUrl(raw, sp.start, sp.end);
      Some(raw[sp.start..sp.end])
  }

  // ---------------------------------------------------------------- status

  /** Where the standard is mentioned: the first "GB n" if any, else the first bare number, else -1. */
  function StatusAnchor(raw: string, gbNumber: string): (i: int)
    ensures i == -1 <==> !Contains(raw, "GB " + gbNumber) && !Contains(raw, gbNumber)
    ensures Contains(raw, "GB " + gbNumber) ==> FirstAt(raw, "GB " + gbNumber, 0, i)
    ensures !Contains(raw, "GB " + gbNumber) && Contains(raw, gbNumber) ==> FirstAt(raw, gbNumber, 0, i)
  {
    var a := Find(raw, "GB " + gbNumber);
    if a != -1 then a else Find(raw, gbNumber)
  }

  /** The in-force words of a search result. */
  predicate InForceWords(w: string) {
    Contains(w, "状态：现行") || Contains(w, "状态:现行") || Contains(w, "现行有效")
  }

  /** The abolished words of a search result. */
  predicate AbolishedWords(w: string) {
    Contains(w, "状态：废止") || Contains(w, "状态:废止") || Contains(w, "已废止") || Contains(w, "状态：作废") || Contains(w, "状态:作废")
  }

  /** The status words of a window, after the images: in-force words first, then abolished ones, then 即将实施. */
  function StatusFromWords(w: string): (r: Option<string>)
    ensures InForceWords(w) ==> r == Some("现行有效")
    ensures !InForceWords(w) && AbolishedWords(w) ==> r == Some("已废止")
    ensures !InForceWords(w) && !AbolishedWords(w) ==> r == if Contains(w, "即将实施") then Some("即将实施") else None
  {
    if Contains(w, "状态：现行") || Contains(w, "状态:现行") || Contains(w, "现行有效") then Some("现行有效")
    else if Contains(w, "状态：废止") || Contains(w, "状态:废止") || Contains(w, "已废止") then Some("已废止")
    else if Contains(w, "状态：作废") || Contains(w, "状态:作废") then Some("已废止")
    else if Contains(w, "即将实施") then Some("即将实施")
    else None
  }

  /** The text within 400 characters either side of `i`, clamped to the page. */
  function StatusWindow(raw: string, i: nat): string {
    Window(raw, if i >= 400 then i - 400 else 0, i + 400)
  }

  /**
   * `extract_status_for_gb`: within 400 characters either side of where the
   * standard is mentioned, the abolished image, the in-force image, then the
   * status words; None when the standard is not mentioned.
   */
  function ExtractStatusForGb(raw: string, gbNumber: string): (r: Option<string>)
    ensures StatusAnchor(raw, gbNumber) == -1 ==> r.None?
    ensures StatusAnchor(raw, gbNumber) != -1 ==>
              var w := StatusWindow(raw, StatusAnchor(raw, gbNumber));
              && (Contains(w, "yjfz.gif") ==> r == Some("已废止"))
              && (!Contains(w, "yjfz.gif") && Contains(w, "xxyx.gif") ==> r == Some("现行有效"))
              && (!Contains(w, "yjfz.gif") && !Contains(w, "xxyx.gif") ==> r == StatusFromWords(w))
    ensures r.Some? ==> r.value == "现行有效" || r.value == "已废止" || r.value == "即将实施"
  {
    var i := StatusAnchor(raw, gbNumber);
    if i == -1 then None
    else
      var w := StatusWindow(raw, i);
      if Contains(w, "yjfz.gif") then Some("已废止")
      else if Contains(w, "xxyx.gif") then Some("现行有效")
      else StatusFromWords(w)
  }

  /** `extract_status_from_any` on the serialised response: the in-force image first, then the abolished one. */
  function ExtractStatusFromAny(serialised: string): (r: Option<string>)
    ensures r.Some? <==> Contains(serialised, "xxyx.gif") || Contains(serialised, "yjfz.gif")
    ensures Contains(serialised, "xxyx.gif") ==> r == Some("现行有效")
  {
    if Contains(serialised, "xxyx.gif") then Some("现行有效")
    else if Contains(serialised, "yjfz.gif") then Some("已废止")
    else None
  }

  /** A window is a piece of the text. */
  lemma WindowInside(s: string, a: nat, b: nat)
    ensures Contains(s, Window(s, a, b))
  {
    var lo := if a <= |s| then a else |s|;
    var hi := if b <= |s| then b else |s|;
    if lo <= hi {
      ContainsAt(s, s[lo..hi], lo);
    } else {
      ContainsAt(s, [], 0);
    }
  }

  /**
   * With both images near where the standard is mentioned, the page reader
   * says abolished while the whole-response reader says in force.
   */
  lemma OppositePrecedence(raw: string, gbNumber: string)
    requires StatusAnchor(raw, gbNumber) != -1
    requires var w := StatusWindow(raw, StatusAnchor(raw, gbNumber)); Contains(w, "yjfz.gif") && Contains(w, "xxyx.gif")
    ensures ExtractStatusForGb(raw, gbNumber) == Some("已废止")
    ensures ExtractStatusFromAny(raw) == Some("现行有效")
  {
    var i := StatusAnchor(raw, gbNumber);
    var w := StatusWindow(raw, i);
    WindowInside(raw, if i >= 400 then i - 400 else 0, i + 400);
    ContainsTrans(raw, w, "xxyx.gif");
  }

  // ---------------------------------------------------------------- abolition date

  const AbolishLabels: seq<string> := ["作废日期", "停止实施日期", "废止时间"]

  /** The index of the first of `labels[k..]` that occurs in `raw`, or -1 when none does. */
  function FirstLabel(raw: string, labels: seq<string>, k: nat): (r: int)
    requires k <= |labels|
    ensures r == -1 <==> forall l :: k <= l < |labels| ==> !Contains(raw, labels[l])
    ensures r != -1 ==> k <= r < |labels| && Contains(raw, labels[r])
    ensures r != -1 ==> forall l :: k <= l < r ==> !Contains(raw, labels[l])
    decreases |labels| - k
  {
    if k == |labels| then -1
    else if Contains(raw, labels[k]) then k
    else FirstLabel(raw, labels, k + 1)
  }

  /**
   * `extract_abolish_date_from_detail_page`: when "废止日期" occurs, the first
   * date within 300 characters of it, or None without looking further;
   * otherwise the same for 作废日期, 停止实施日期 and 废止时间, in that order.
   */
  function ExtractAbolishDate(raw: string): (r: Option<string>)
    ensures r.Some? ==> IsYmd(r.value)
    ensures Contains(raw, "废止日期") ==> r == DateNear(raw, "废止日期", 300)
    ensures !Contains(raw, "废止日期") && Contains(raw, "作废日期") ==> r == DateNear(raw, "作废日期", 300)
    ensures !Contains(raw, "废止日期") && !Contains(raw, "作废日期") && Contains(raw, "停止实施日期") ==>
              r == DateNear(raw, "停止实施日期", 300)
    ensures !Contains(raw, "废止日期") && !Contains(raw, "作废日期") && !Contains(raw, "停止实施日期") ==>
              r == DateNear(raw, "废止时间", 300)
  {
    if Contains(raw, "废止日期") then DateNear(raw, "废止日期", 300)
    else
      var l := FirstLabel(raw, AbolishLabels, 0);
      assert AbolishLabels[0] == "作废日期" && AbolishLabels[1] == "停止实施日期" && AbolishLabels[2] == "废止时间";
      if l == -1 then None else DateNear(raw, AbolishLabels[l], 300)
  }
}
