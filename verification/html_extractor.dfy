/**
 * Reading a standard's detail page on the food-standards site: the fields sit
 * in table cells after fixed header cells, and the status is shown by an
 * image (yjfz.gif for abolished, xxyx.gif for in force).
 *
 * The checker carries two copies of this extractor; they differ only in that
 * the second has no text fallback for the status, so `ExtractStandardInfo`
 * takes that difference as a flag.
 */
module HtmlExtractor {
  import opened Wrappers
  import opened Text
  import opened Scan

  // ---------------------------------------------------------------- text between markers

  /**
   * `extract_text_between`: the text after the first `start` up to the next
   * `end`, without tags and stripped; None when either marker is missing or
   * nothing is left.
   */
  function ExtractTextBetween(html: string, start: string, end: string): (r: Option<string>)
    ensures !Contains(html, start) ==> r.None?
    ensures r.Some? ==> r.value != [] && IsStripped(r.value) && NoTag(r.value)
  {
    var s := Find(html, start);
    if s == -1 then None
    else
      var from := s + |start|;
      var e := FindFrom(html, end, from);
      if e == -1 then None
      else
        var content := Strip(RemoveTags(html[from..e]));
        RemoveTagsLeavesNoTag(html[from..e], 0);
        StripKeepsNoTag(RemoveTags(html[from..e]));
        if content == [] then None else Some(content)
  }

  /** `i` is the first `start` and `j` the first `end` after it. */
  predicate MarkersAt(html: string, start: string, end: string, i: int, j: int) {
    i >= 0 && FirstAt(html, start, 0, i) && FirstAt(html, end, i + |start|, j)
  }

  /**
   * With `i` the first `start` and `j` the first `end` after it, the answer is
   * the tag-free, stripped text between them, or None when that is empty.
   */
  lemma TextBetweenAt(html: string, start: string, end: string, i: nat, j: nat)
    requires MarkersAt(html, start, end, i, j)
    ensures var t := Strip(RemoveTags(html[i + |start|..j]));
            ExtractTextBetween(html, start, end) == if t == [] then None else Some(t)
  {
    FindIs(html, start, i);
    FindFromIs(html, end, i + |start|, j);
    TextBetweenFound(html, start, end, i, j);
  }

  /** `ExtractTextBetween` unfolded where both searches are known. */
  lemma TextBetweenFound(html: string, start: string, end: string, i: nat, j: nat)
    requires Find(html, start) == i && FindFrom(html, end, i + |start|) == j
    ensures var t := Strip(RemoveTags(html[i + |start|..j]));
            ExtractTextBetween(html, start, end) == if t == [] then None else Some(t)
  {
  }

  /** Text found lies between the first `start` and the first `end` after it. */
  lemma TextBetweenMarkers(html: string, start: string, end: string)
    ensures ExtractTextBetween(html, start, end).Some? ==>
              var i := Find(html, start);
              var j := FindFrom(html, end, i + |start|);
              MarkersAt(html, start, end, i, j) && ExtractTextBetween(html, start, end).value == Strip(RemoveTags(html[i + |start|..j]))
  {
    var i := Find(html, start);
    if i != -1 {
      FindFromFirstAt(html, end, i + |start|);
    }
  }

  /** `extract_text_between` answers None when `end` does not occur after the first `start`. */
  lemma TextBetweenNeedsEnd(html: string, start: string, end: string, i: nat)
    requires FirstAt(html, start, 0, i)
    requires forall k :: i + |start| <= k ==> !OccursAt(html, end, k)
    ensures ExtractTextBetween(html, start, end).None?
  {
    FindIs(html, start, i);
    FindFromFirstAt(html, end, i + |start|);
  }

  // ---------------------------------------------------------------- the detail page

  const StatusHeader := "<th bgcolor=\"#FFFFFF\">标准状态</th>"
  const PublishHeader := "<th bgcolor=\"#FFFFFF\">发布日期</th>"
  const ImplementHeader := "<th bgcolor=\"#FFFFFF\">实施日期</th>"
  const AbolishHeader := "<th bgcolor=\"#FFFFFF\">废止日期</th>"
  const CellEnd := "</td>"

  /** The five fields read from a detail page; None where a field was not found. */
  datatype StandardInfo = StandardInfo(
    gbNumber: Option<string>, publishDate: Option<string>, implementDate: Option<string>,
    abolishDate: Option<string>, status: Option<string>)

  /** A character of `[\d.-]`. */
  predicate IsCodeChar(c: char) {
    IsDigit(c) || c == '.' || c == '-'
  }

  /** The end of a run of characters from [0-9.-] starting at `i`. */
  function CodeRunEnd(s: string, i: nat): (j: nat)
    requires i <= |s|
    ensures i <= j <= |s|
    ensures forall k :: i <= k < j ==> IsCodeChar(s[k])
    ensures j == |s| || !IsCodeChar(s[j])
    decreases |s| - i
  {
    if i < |s| && IsCodeChar(s[i]) then CodeRunEnd(s, i + 1) else i
  }

  /**
   * `<span>GB\s+[\d.-]+` matches `s[i..e]`: "<span>GB", whitespace, then code
   * characters up to `e`, and (the repetitions being greedy with nothing after
   * them) no code character at `e`.
   */
  predicate TitleMatch(s: string, i: nat, e: nat) {
    OccursAt(s, "<span>GB", i) && e <= |s| && (e == |s| || !IsCodeChar(s[e]))
    && var a := i + 8; exists k :: a < k < e && SpacesThenCode(s, a, k, e)
  }

  /** `s[a..k]` is whitespace and `s[k..e]` is code characters. */
  predicate SpacesThenCode(s: string, a: nat, k: nat, e: nat)
    requires a <= k <= e <= |s|
  {
    (forall m :: a <= m < k ==> IsSpace(s[m])) && (forall m :: k <= m < e ==> IsCodeChar(s[m]))
  }

  /** `<span>(GB\s+[\d\.-]+)` tried at `i`: the end of the match, which is the only end the pattern allows there. */
  function TitleCodeAt(s: string, i: nat): (r: Option<nat>)
    ensures r.Some? ==> TitleMatch(s, i, r.value)
    ensures forall e: nat :: TitleMatch(s, i, e) ==> r == Some(e)
  {
    if !OccursAt(s, "<span>GB", i) then None
    else
      var k := SpaceRunEnd(s, i + 8);
      var e := CodeRunEnd(s, k);
      TitleMatchUnique(s, i, k);
      if k == i + 8 || e == k then None
      else
        assert SpacesThenCode(s, i + 8, k, e);
        Some(e)
  }

  /** Whatever end the title pattern allows at `i` comes after the whitespace run from `i + 8` and closes the code run that follows it. */
  lemma TitleMatchUnique(s: string, i: nat, k: nat)
    requires OccursAt(s, "<span>GB", i) && k == SpaceRunEnd(s, i + 8)
    ensures forall e: nat :: TitleMatch(s, i, e) ==> i + 8 < k < e && e == CodeRunEnd(s, k)
  {
    forall e: nat | TitleMatch(s, i, e) ensures i + 8 < k < e && e == CodeRunEnd(s, k) {
      var k' :| i + 8 < k' < e && SpacesThenCode(s, i + 8, k', e);
      assert IsCodeChar(s[k']);
      SpaceRunEndIs(s, i + 8, k');
      CodeRunEndIs(s, k', e);
    }
  }

  /** A run of code characters from `a` that stops at `e` ends at `e`. */
  lemma {:induction false} CodeRunEndIs(s: string, a: nat, e: nat)
    requires a <= e <= |s| && (forall m :: a <= m < e ==> IsCodeChar(s[m])) && (e == |s| || !IsCodeChar(s[e]))
    ensures CodeRunEnd(s, a) == e
    decreases e - a
  {
    if a < e {
      CodeRunEndIs(s, a + 1, e);
    }
  }

  /**
   * The gb_number field: group 1 of the leftmost title match, that is the
   * match without its "<span>"; None when the pattern matches nowhere.
   */
  function TitleCode(html: string): (r: Option<string>)
    ensures r.None? <==> NoMatch(TitleCodeAt, html)
    ensures r.Some? ==> exists i: nat :: FirstMatchAt(TitleCodeAt, html, i) && r.value == html[i + 6..TitleCodeAt(html, i).value]
    ensures r.Some? ==> |r.value| > 2 && r.value[..2] == "GB"
  {
    SearchFirstMatch(TitleCodeAt, html);
    match Search(TitleCodeAt, html, 0)
    case None => None
    case Some(sp) =>
      assert html[sp.start..sp.start + 8] == "<span>GB";
      assert html[sp.start + 6..sp.end][..2] == html[sp.start..sp.start + 8][6..];
      Some(html[sp.start + 6..sp.end])
  }

  /** The index of the last '>' in `s`, or -1. */
  function LastGt(s: string, j: nat): (k: int)
    requires j <= |s|
    ensures -1 <= k < j && (k >= 0 ==> s[k] == '>')
    ensures forall m :: k < m < j ==> s[m] != '>'
  {
    if j == 0 then -1 else if s[j - 1] == '>' then j - 1 else LastGt(s, j - 1)
  }

  /** `k` holds the last '>' of `s`. */
  predicate LastGtAt(s: string, k: int) {
    0 <= k < |s| && s[k] == '>' && forall m :: k < m < |s| ==> s[m] != '>'
  }

  /** `value.split('>')[-1].strip()` when the value holds a '>', else the value: the stripped piece after the last '>'. */
  function AfterLastGt(s: string): (r: string)
    ensures '>' !in s ==> r == s
    ensures '>' in s ==> exists k :: LastGtAt(s, k) && r == Strip(s[k + 1..])
    ensures '>' in s ==> IsStripped(r) && '>' !in r
  {
    var k := LastGt(s, |s|);
    if k < 0 then
      assert forall m :: 0 <= m < |s| ==> s[m] != '>';
      s
    else
      var tail := s[k + 1..];
      assert LastGtAt(s, k);
      assert Avoids(tail, {'>'}) by {
        forall m | 0 <= m < |tail| ensures tail[m] !in {'>'} { assert tail[m] == s[k + 1 + m]; }
      }
      StripAvoids(tail, {'>'});
      Strip(tail)
  }

  /** A date cell: the text after the last '>' of the text between the header and the next `</td>`. */
  function DateField(html: string, header: string): (r: Option<string>)
    ensures r.Some? <==> ExtractTextBetween(html, header, CellEnd).Some?
    ensures r.Some? ==> r.value == AfterLastGt(ExtractTextBetween(html, header, CellEnd).value)
    ensures r.Some? ==> '>' !in r.value
  {
    match ExtractTextBetween(html, header, CellEnd)
    case None => None
    case Some(t) => Some(AfterLastGt(t))
  }

  /** The abolition date cell, where "暂无" (none yet) means no date. */
  function AbolishField(html: string): (r: Option<string>)
    ensures r.Some? ==> r.value != "暂无"
    ensures r.Some? <==> DateField(html, AbolishHeader).Some? && DateField(html, AbolishHeader).value != "暂无"
    ensures r.Some? ==> r == DateField(html, AbolishHeader)
  {
    match DateField(html, AbolishHeader)
    case None => None
    case Some(t) => if t == "暂无" then None else Some(t)
  }

  /**
   * The raw HTML from the first status header up to the first
   * implementation-date header at or after it; None when either is missing.
   */
  function StatusSection(html: string): (r: Option<string>)
    ensures r.Some? <==> exists s, e :: FirstAt(html, StatusHeader, 0, s) && FirstAt(html, ImplementHeader, s, e)
    ensures r.Some? ==> exists s, e :: FirstAt(html, StatusHeader, 0, s) && FirstAt(html, ImplementHeader, s, e) && r.value == html[s..e]
    ensures ExtractTextBetween(html, StatusHeader, ImplementHeader).Some? ==> r.Some?
  {
    var s := Find(html, StatusHeader);
    if s == -1 then None
    else
      var e := FindFrom(html, ImplementHeader, s);
      FindFromFirstAt(html, ImplementHeader, s);
      FindFromFirst(html, ImplementHeader, s);
      assert FirstAt(html, StatusHeader, 0, s);
      assert forall s', e' :: FirstAt(html, StatusHeader, 0, s') && FirstAt(html, ImplementHeader, s', e') ==> s' == s && e != -1;
      if e == -1 then
        assert ExtractTextBetween(html, StatusHeader, ImplementHeader).Some? ==> false by {
          FindFromFirstAt(html, ImplementHeader, s + |StatusHeader|);
        }
        None
      else Some(html[s..e])
  }

  /** The word fallback, in order: 现行 or 有效 first, then 废止 or 作废, then 即将实施. */
  function WordStatus(clean: string): (r: Option<string>)
    ensures Contains(clean, "现行") || Contains(clean, "有效") ==> r == Some("现行有效")
    ensures !(Contains(clean, "现行") || Contains(clean, "有效")) && (Contains(clean, "废止") || Contains(clean, "作废")) ==> r == Some("已废止")
    ensures !(Contains(clean, "现行") || Contains(clean, "有效")) && !(Contains(clean, "废止") || Contains(clean, "作废")) ==>
              r == if Contains(clean, "即将实施") then Some("即将实施") else None
  {
    if Contains(clean, "现行") || Contains(clean, "有效") then Some("现行有效")
    else if Contains(clean, "废止") || Contains(clean, "作废") then Some("已废止")
    else if Contains(clean, "即将实施") then Some("即将实施")
    else None
  }

  /**
   * The status, read from the raw HTML from the status header to the next
   * implementation-date header, but only when the tag-free text between the
   * two headers is non-empty: the abolished image wins over the in-force one,
   * then (with `textFallback`) the words of the tag-free section decide.
   */
  function StatusField(html: string, textFallback: bool): (r: Option<string>)
    ensures r.Some? ==> r.value == "已废止" || r.value == "现行有效" || r.value == "即将实施"
    ensures ExtractTextBetween(html, StatusHeader, ImplementHeader).None? ==> r.None?
    ensures ExtractTextBetween(html, StatusHeader, ImplementHeader).Some? ==>
              var section := StatusSection(html).value;
              && (Contains(section, "yjfz.gif") ==> r == Some("已废止"))
              && (!Contains(section, "yjfz.gif") && Contains(section, "xxyx.gif") ==> r == Some("现行有效"))
              && (!Contains(section, "yjfz.gif") && !Contains(section, "xxyx.gif") ==>
                    r == if textFallback then WordStatus(Strip(RemoveTags(section))) else None)
  {
    if ExtractTextBetween(html, StatusHeader, ImplementHeader).None? then None
    else
      var section := StatusSection(html).value;
      if Contains(section, "yjfz.gif") then Some("已废止")
      else if Contains(section, "xxyx.gif") then Some("现行有效")
      else if !textFallback then None
      else WordStatus(Strip(RemoveTags(section)))
  }

  /** `extract_standard_info_from_html`; `textFallback` is true for the first copy and false for the second. */
  function ExtractStandardInfo(html: string, textFallback: bool): (r: StandardInfo)
    ensures r.gbNumber == TitleCode(html)
    ensures r.publishDate == DateField(html, PublishHeader) && r.implementDate == DateField(html, ImplementHeader)
    ensures r.abolishDate == AbolishField(html)
    ensures r.publishDate.Some? ==> '>' !in r.publishDate.value
    ensures r.implementDate.Some? ==> '>' !in r.implementDate.value
    ensures r.abolishDate.Some? ==> '>' !in r.abolishDate.value && r.abolishDate.value != "暂无"
    ensures r.status == StatusField(html, textFallback)
  {
    StandardInfo(
      TitleCode(html),
      DateField(html, PublishHeader),
      DateField(html, ImplementHeader),
      AbolishField(html),
      StatusField(html, textFallback))
  }

  /** The abolished image wins over the in-force one, whichever copy reads the page. */
  lemma AbolishedImageWins(html: string, textFallback: bool, s: nat, e: nat)
    requires ExtractTextBetween(html, StatusHeader, ImplementHeader).Some?
    requires FirstAt(html, StatusHeader, 0, s) && FirstAt(html, ImplementHeader, s, e)
    requires Contains(html[s..e], "yjfz.gif")
    ensures ExtractStandardInfo(html, textFallback).status == Some("已废止")
  {
    FindIs(html, StatusHeader, s);
    FindFromIs(html, ImplementHeader, s, e);
  }

  /** Without the abolished image, the in-force image gives 现行有效, whichever copy reads the page. */
  lemma InForceImageWins(html: string, textFallback: bool, s: nat, e: nat)
    requires ExtractTextBetween(html, StatusHeader, ImplementHeader).Some?
    requires FirstAt(html, StatusHeader, 0, s) && FirstAt(html, ImplementHeader, s, e)
    requires !Contains(html[s..e], "yjfz.gif") && Contains(html[s..e], "xxyx.gif")
    ensures ExtractStandardInfo(html, textFallback).status == Some("现行有效")
  {
    FindIs(html, StatusHeader, s);
    FindFromIs(html, ImplementHeader, s, e);
  }

  /** Words that say both in force and abolished read as in force: the in-force words are tried first. */
  lemma InForceWordsFirst(clean: string)
    requires Contains(clean, "有效") && Contains(clean, "废止")
    ensures WordStatus(clean) == Some("现行有效")
  {
  }

  /** The copies differ only in the status, and only where the first reads it from the words of the section. */
  lemma CopiesDifferOnlyInFallback(html: string)
    ensures StatusField(html, false).Some? ==> StatusField(html, true) == StatusField(html, false)
  {
  }

  /**
   * A status section holding only images, with no text between the headers,
   * yields no status at all, whatever the images say.
   */
  lemma ImageOnlySectionHasNoStatus(html: string, textFallback: bool)
    requires ExtractTextBetween(html, StatusHeader, ImplementHeader).None?
    ensures ExtractStandardInfo(html, textFallback).status.None?
  {
  }
}
