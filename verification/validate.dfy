/**
 * Checking a national standard against a product's production date: the
 * standard must be in force ("现行有效"), must carry an implementation date
 * that parses, and the product must not have been made before that date.
 */
module Validate {
  import opened Wrappers
  import opened Text

  // ---------------------------------------------------------------- calendar dates

  /** A Python `datetime.date`; `ValidDate` says which triples the constructor accepts. */
  datatype Date = Date(year: int, month: int, day: int)

  predicate IsLeapYear(y: int) { y % 4 == 0 && (y % 100 != 0 || y % 400 == 0) }

  function DaysInMonth(y: int, m: int): int
    requires 1 <= m <= 12
  {
    if m == 2 then (if IsLeapYear(y) then 29 else 28)
    else if m == 4 || m == 6 || m == 9 || m == 11 then 30
    else 31
  }

  /** `date(y, m, d)` succeeds: years 1 to 9999 of the proleptic Gregorian calendar. */
  predicate ValidDate(d: Date) {
    1 <= d.year <= 9999 && 1 <= d.month <= 12 && 1 <= d.day <= DaysInMonth(d.year, d.month)
  }

  /** `a < b` on dates: chronological, that is, lexicographic on (year, month, day). */
  predicate Before(a: Date, b: Date) {
    a.year < b.year || (a.year == b.year && (a.month < b.month || (a.month == b.month && a.day < b.day)))
  }

  lemma BeforeIsStrictOrder(a: Date, b: Date, c: Date)
    ensures !Before(a, a)
    ensures Before(a, b) ==> !Before(b, a)
    ensures Before(a, b) && Before(b, c) ==> Before(a, c)
    ensures a != b ==> Before(a, b) || Before(b, a)
  {
  }

  function Pow10(w: nat): nat { if w == 0 then 1 else 10 * Pow10(w - 1) }

  /** The last `w` decimal digits of `n`, zero-padded: `"%0wd" % n` when `n < 10^w`. */
  function FixedDigits(n: nat, w: nat): (r: string)
    ensures |r| == w
    ensures forall i :: 0 <= i < |r| ==> IsDigit(r[i])
  {
    if w == 0 then [] else FixedDigits(n / 10, w - 1) + [DigitChar(n % 10)]
  }

  lemma {:induction false} FixedDigitsValue(n: nat, w: nat)
    requires n < Pow10(w)
    ensures DigitsValue(FixedDigits(n, w)) == n
  {
    if w > 0 {
      var r := FixedDigits(n, w);
      FixedDigitsValue(n / 10, w - 1);
      assert r[..|r| - 1] == FixedDigits(n / 10, w - 1);
    }
  }

  /** `date.isoformat()`: YYYY-MM-DD. */
  function IsoFormat(d: Date): (r: string)
    requires ValidDate(d)
    ensures |r| == 10 && r[4] == '-' && r[7] == '-'
  {
    FixedDigits(d.year, 4) + "-" + FixedDigits(d.month, 2) + "-" + FixedDigits(d.day, 2)
  }

  // ---------------------------------------------------------------- parsing

  /**
   * Why `parse_flexible_date` raises: blank text, another shape, or the
   * check of `date()` that fails first (year, then month, then day).
   */
  datatype DateError = EmptyDate | BadFormat | YearOutOfRange(year: int) | BadMonth | NoSuchDay

  /**
   * The three digit groups of `^\s*(\d{4})\D(\d{1,2})\D(\d{1,2})\s*$`, when the
   * pattern matches. The groups are separated by single non-digits, so the
   * match is decided by the digit runs: four digits, then runs of one or two.
   */
  function DateFields(s: string): (r: Option<(nat, nat, nat)>)
  {
    var i := SpaceRunEnd(s, 0);
    if i + 4 >= |s| || !AllDigits(s[i..i + 4]) || IsDigit(s[i + 4]) then None
    else
      var m0 := i + 5;
      var m1 := DigitRunEnd(s, m0);
      if m1 == m0 || m1 > m0 + 2 || m1 == |s| then None
      else
        var d0 := m1 + 1;
        var d1 := DigitRunEnd(s, d0);
        if d1 == d0 || d1 > d0 + 2 || SpaceRunEnd(s, d1) != |s| then None
        else Some((DigitsValue(s[i..i + 4]), DigitsValue(s[m0..m1]), DigitsValue(s[d0..d1])))
  }

  /** The checks of `date(y, m, d)`, in the order CPython makes them. */
  function MakeDate(y: int, m: int, d: int): (r: Result<Date, DateError>)
    ensures r.Ok? <==> ValidDate(Date(y, m, d))
    ensures r.Ok? ==> r.value == Date(y, m, d)
  {
    if !(1 <= y <= 9999) then Err(YearOutOfRange(y))
    else if !(1 <= m <= 12) then Err(BadMonth)
    else if !(1 <= d <= DaysInMonth(y, m)) then Err(NoSuchDay)
    else Ok(Date(y, m, d))
  }

  /** `parse_flexible_date`: an error for blank text, for another shape, or from `date()`. */
  function ParseFlexibleDate(s: string): (r: Result<Date, DateError>)
    ensures r.Ok? ==> ValidDate(r.value)
    ensures r == Err(EmptyDate) <==> SpaceRunEnd(s, 0) == |s|
    ensures r == Err(BadFormat) <==> SpaceRunEnd(s, 0) != |s| && DateFields(s).None?
    ensures r.Ok? || r.error.EmptyDate? || r.error.BadFormat? <==> DateFields(s).None? || ValidDate(Date(DateFields(s).value.0, DateFields(s).value.1, DateFields(s).value.2))
  {
    if SpaceRunEnd(s, 0) == |s| then Err(EmptyDate)
    else match DateFields(s)
      case None => Err(BadFormat)
      case Some((y, m, d)) => MakeDate(y, m, d)
  }

  /** Four digits read at most 9999, so the only year `date()` refuses is year 0. */
  lemma YearZeroOnly(s: string)
    requires ParseFlexibleDate(s).Err? && ParseFlexibleDate(s).error.YearOutOfRange?
    ensures ParseFlexibleDate(s).error.year == 0
  {
    var i := SpaceRunEnd(s, 0);
    FourDigitsBound(s[i..i + 4]);
  }

  lemma FourDigitsBound(t: string)
    requires |t| == 4 && AllDigits(t)
    ensures DigitsValue(t) <= 9999
  {
    DigitsBound(t);
    assert Pow10(4) == 10000;
  }

  lemma {:induction false} DigitsBound(t: string)
    requires forall i :: 0 <= i < |t| ==> IsDigit(t[i])
    ensures DigitsValue(t) < Pow10(|t|)
  {
    if t != [] {
      DigitsBound(t[..|t| - 1]);
    }
  }

  /** A month of 0 or 13 and on is refused before the day is looked at; a real month with a day it lacks gives the day error. */
  lemma MonthBeforeDay(y: int, m: int, d: int)
    requires 1 <= y <= 9999
    ensures !(1 <= m <= 12) ==> MakeDate(y, m, d) == Err(BadMonth)
    ensures 1 <= m <= 12 && !(1 <= d <= DaysInMonth(y, m)) ==> MakeDate(y, m, d) == Err(NoSuchDay)
  {
  }

  /** Parsing reads back every date written in ISO form. */
  lemma ParseIsoFormat(d: Date)
    requires ValidDate(d)
    ensures ParseFlexibleDate(IsoFormat(d)) == Ok(d)
  {
    var s := IsoFormat(d);
    var y, m, dd := FixedDigits(d.year, 4), FixedDigits(d.month, 2), FixedDigits(d.day, 2);
    assert s[..4] == y && s[5..7] == m && s[8..10] == dd;
    assert !IsSpace(s[0]) by { assert s[0] == y[0]; }
    assert SpaceRunEnd(s, 0) == 0;
    assert IsDigit(s[5]) && IsDigit(s[6]) && !IsDigit(s[7]) by { assert s[5] == m[0] && s[6] == m[1]; }
    assert DigitRunEnd(s, 5) == 7;
    assert IsDigit(s[8]) && IsDigit(s[9]) by { assert s[8] == dd[0] && s[9] == dd[1]; }
    assert DigitRunEnd(s, 8) == 10;
    FixedDigitsValue(d.year, 4);
    FixedDigitsValue(d.month, 2);
    FixedDigitsValue(d.day, 2);
  }

  // ---------------------------------------------------------------- status

  /**
   * A value of the standard-info dict: absent or `None`, a string, or another
   * JSON value, carried as its `str()` text and its truth value.
   */
  datatype Field = Missing | Str(s: string) | NonStr(text: string, truthy: bool)

  /** Python's truth value of a field. */
  predicate FieldTruthy(f: Field) {
    match f
    case Missing => false
    case Str(s) => s != []
    case NonStr(_, truthy) => truthy
  }

  /** What an f-string shows for a field that is truthy. */
  function FieldText(f: Field): string {
    match f
    case Missing => "None"
    case Str(s) => s
    case NonStr(text, _) => text
  }

  /** `_normalize_status`: the stripped string, or None for anything that is not a string. */
  function NormalizeStatus(status: Field): (r: Option<string>)
    ensures r.Some? <==> status.Str?
    ensures r.Some? ==> IsStripped(r.value) && Contains(status.s, r.value)
  {
    if status.Str? then StripInside(status.s); Some(Strip(status.s)) else None
  }

  predicate MentionsAbolition(s: string) { Contains(s, "废止") || Contains(s, "作废") || Contains(s, "停止") }

  /** `is_currently_effective`: abolition words rule first; then "现行" with "有效", or exactly "有效". */
  predicate IsCurrentlyEffective(status: Field) {
    match NormalizeStatus(status)
    case None => false
    case Some(s) =>
      if s == [] then false
      else if MentionsAbolition(s) then false
      else if Contains(s, "现行") && Contains(s, "有效") then true
      else s == "有效"
  }

  /** An effective status is a string saying "有效" and naming no abolition; the converse needs "现行" or nothing else. */
  lemma EffectiveMeaning(status: Field)
    ensures IsCurrentlyEffective(status) ==>
      (status.Str? && Contains(Strip(status.s), "有效") && !MentionsAbolition(Strip(status.s)))
    ensures (status.Str? && !MentionsAbolition(Strip(status.s)) && Contains(Strip(status.s), "现行") &&
      Contains(Strip(status.s), "有效")) ==> IsCurrentlyEffective(status)
  {
    if IsCurrentlyEffective(status) {
      var s := Strip(status.s);
      if s == "有效" {
        ContainsSelf(s);
      }
    }
  }

  /** "现行有效" is in force. */
  lemma InForceStatus()
    ensures IsCurrentlyEffective(Str("现行有效"))
  {
    var s := "现行有效";
    NoSpaceStripped(s);
    assert OccursAt(s, "现行", 0) && OccursAt(s, "有效", 2);
    NotContainsFirstChar(s, "废止");
    NotContainsFirstChar(s, "作废");
    NotContainsFirstChar(s, "停止");
  }

  /** "已废止" is not. */
  lemma AbolishedStatus()
    ensures !IsCurrentlyEffective(Str("已废止"))
  {
    var t := "已废止";
    NoSpaceStripped(t);
    assert OccursAt(t, "废止", 1);
  }

  // ---------------------------------------------------------------- validation

  /** The production date as given: a date, or text still to be parsed. */
  datatype ProductionDate = AsDate(date: Date) | AsText(text: string)

  /** Why a standard fails, in the order the checks run. */
  datatype Reason =
    | StatusNotEffective(status: Field)
    | ImplementDateUnparseable(raw: string)
    | ImplementDateMissing
    | ProducedBeforeImplement(production: Date, implement: Date)

  function Rank(r: Reason): nat {
    match r
    case StatusNotEffective(_) => 0
    case ImplementDateUnparseable(_) => 1
    case ImplementDateMissing => 1
    case ProducedBeforeImplement(_, _) => 2
  }

  datatype ValidationResult = ValidationResult(
    passed: bool, reasons: seq<Reason>, productionDate: Date, implementDate: Option<Date>, status: Option<string>)

  /** The implementation date when `implement_date` is non-blank text that parses. */
  function ImplementDate(impl: Field): (r: Option<Date>)
    ensures r.Some? ==> ValidDate(r.value)
  {
    if impl.Str? && Strip(impl.s) != [] then
      match ParseFlexibleDate(impl.s)
      case Ok(d) => Some(d)
      case Err(_) => None
    else None
  }

  /** The reasons the checks record for a parsed production date. */
  function Reasons(prod: Date, status: Field, impl: Field): (r: seq<Reason>)
    ensures forall i, j :: 0 <= i < j < |r| ==> Rank(r[i]) < Rank(r[j])
  {
    var r1 := if IsCurrentlyEffective(status) then [] else [StatusNotEffective(status)];
    var r2 := if impl.Str? && Strip(impl.s) != [] then
        (if ImplementDate(impl).Some? then [] else [ImplementDateUnparseable(impl.s)])
      else [ImplementDateMissing];
    var r3 := match ImplementDate(impl)
      case Some(d) => if Before(prod, d) then [ProducedBeforeImplement(prod, d)] else []
      case None => [];
    r1 + r2 + r3
  }

  /**
   * `validate_standard_for_production_date`: an error when the production date
   * is text that does not parse; else the recorded reasons, passed exactly
   * when there are none.
   */
  function ValidateStandard(production: ProductionDate, status: Field, impl: Field): (r: Result<ValidationResult, DateError>)
    requires production.AsDate? ==> ValidDate(production.date)
    ensures r.Err? <==> production.AsText? && ParseFlexibleDate(production.text).Err?
    ensures r.Ok? ==> (r.value.passed <==> r.value.reasons == [])
    ensures r.Ok? ==> r.value.status == NormalizeStatus(status) && r.value.implementDate == ImplementDate(impl)
  {
    var prod := if production.AsDate? then Ok(production.date) else ParseFlexibleDate(production.text);
    match prod
    case Err(e) => Err(e)
    case Ok(p) =>
      var reasons := Reasons(p, status, impl);
      Ok(ValidationResult(reasons == [], reasons, p, ImplementDate(impl), NormalizeStatus(status)))
  }

  /** A standard passes exactly when it is in force, its implementation date parses, and production is not earlier. */
  lemma PassedIff(production: ProductionDate, status: Field, impl: Field)
    requires production.AsDate? ==> ValidDate(production.date)
    requires ValidateStandard(production, status, impl).Ok?
    ensures var v := ValidateStandard(production, status, impl).value;
      v.passed <==> (IsCurrentlyEffective(status) && ImplementDate(impl).Some? &&
        !Before(v.productionDate, ImplementDate(impl).value))
  {
  }

  /** For a standard in force with an ISO implementation date, the verdict depends only on the production date. */
  lemma InForceStandard(prod: Date, impl: Date)
    requires ValidDate(prod) && ValidDate(impl)
    ensures ValidateStandard(AsDate(prod), Str("现行有效"), Str(IsoFormat(impl))).Ok?
    ensures var v := ValidateStandard(AsDate(prod), Str("现行有效"), Str(IsoFormat(impl))).value;
      v.passed <==> !Before(prod, impl)
    ensures var v := ValidateStandard(AsDate(prod), Str("现行有效"), Str(IsoFormat(impl))).value;
      v.reasons == if Before(prod, impl) then [ProducedBeforeImplement(prod, impl)] else []
  {
    var s := IsoFormat(impl);
    ParseIsoFormat(impl);
    assert !IsSpace(s[0]) && !IsSpace(s[9]) by {
      assert s[0] == FixedDigits(impl.year, 4)[0];
      assert s[9] == FixedDigits(impl.day, 2)[1];
    }
    assert Strip(s) == s;
    InForceStatus();
  }

  // ---------------------------------------------------------------- report

  /** Python's `value or fallback` shown in an f-string. */
  function OrElse(f: Field, fallback: string): (r: string)
    ensures !FieldTruthy(f) ==> r == fallback
    ensures FieldTruthy(f) ==> r == FieldText(f)
  {
    match f
    case Str(s) => if s == [] then fallback else s
    case NonStr(text, truthy) => if truthy then text else fallback
    case Missing => fallback
  }

  /** Text shown for a value: `value or '未知'`. */
  function OrUnknown(f: Field): string {
    OrElse(f, "未知")
  }

  function ReasonText(r: Reason): string {
    match r
    case StatusNotEffective(st) => "标准状态不是现行有效（当前为：" + OrUnknown(st) + "）"
    case ImplementDateUnparseable(raw) => "实施日期无法解析（原值：" + raw + "）"
    case ImplementDateMissing => "缺少实施日期（implement_date）"
    case ProducedBeforeImplement(p, i) =>
      "生产日期早于实施日期（生产日期：" + (if ValidDate(p) then IsoFormat(p) else "")
        + "，实施日期：" + (if ValidDate(i) then IsoFormat(i) else "") + "）"
  }

  /** A line of the report's list: indented and numbered. */
  function NumberedLine(n: nat, text: string): string {
    "  " + NatToString(n) + ". " + text
  }

  /** The texts as numbered lines, counting from `start`. */
  function NumberedLines(texts: seq<string>, start: nat): (r: seq<string>)
    ensures |r| == |texts|
    ensures forall k :: 0 <= k < |r| ==> r[k] == NumberedLine(start + k, texts[k])
  {
    if texts == [] then [] else [NumberedLine(start, texts[0])] + NumberedLines(texts[1..], start + 1)
  }

  function ReasonTexts(reasons: seq<Reason>): (r: seq<string>)
    ensures |r| == |reasons|
    ensures forall k :: 0 <= k < |r| ==> r[k] == ReasonText(reasons[k])
  {
    if reasons == [] then [] else [ReasonText(reasons[0])] + ReasonTexts(reasons[1..])
  }

  /** The fields of the standard-info dict that the report shows. */
  datatype StandardInfo = StandardInfo(
    gbNumber: Field, status: Field, publishDate: Field, implementDate: Field, abolishDate: Field, detailUrl: Field)

  /** The report's opening lines: the verdict, the production date and, when there are any, the numbered reasons. */
  function VerdictLines(result: ValidationResult): (r: seq<string>)
    requires ValidDate(result.productionDate)
    ensures |r| == (if result.reasons != [] then 3 + |result.reasons| else 2)
    ensures r[0] == "校验结论：通过" <==> result.passed
    ensures r[1] == "生产日期：" + IsoFormat(result.productionDate)
    ensures result.reasons != [] ==> r[2] == "不通过原因："
    ensures result.reasons != [] ==> forall k :: 0 <= k < |result.reasons| ==> r[3 + k] == NumberedLine(k + 1, ReasonText(result.reasons[k]))
  {
    var head := ["校验结论：" + (if result.passed then "通过" else "不通过"), "生产日期：" + IsoFormat(result.productionDate)];
    var why := if result.reasons != [] then ["不通过原因："] + NumberedLines(ReasonTexts(result.reasons), 1) else [];
    head + why
  }

  /** The block of the standard's information, each falsy field shown by its fallback text. */
  function InfoLines(info: StandardInfo): seq<string> {
    var number := if FieldTruthy(info.gbNumber) then "  - 国标号：GB " + FieldText(info.gbNumber) else "  - 国标号：未知";
    ["", "标准信息（来源：standard_info.json）：", number,
      "  - 标准状态：" + OrUnknown(info.status),
      "  - 发布日期：" + OrUnknown(info.publishDate),
      "  - 实施日期：" + OrUnknown(info.implementDate),
      "  - 废止日期：" + OrElse(info.abolishDate, "未知/未提供"),
      "  - 详情页：" + OrUnknown(info.detailUrl)]
  }

  /** The lines of `format_user_friendly_report`, before they are joined with newlines. */
  function ReportLines(info: StandardInfo, result: ValidationResult, screenshot: string, download: string): (r: seq<string>)
    requires ValidDate(result.productionDate)
    ensures |r| >= 2 && (r[0] == "校验结论：通过" <==> result.passed)
    ensures r[1] == "生产日期：" + IsoFormat(result.productionDate)
    ensures result.reasons != [] ==> |r| > 2 + |result.reasons| && r[2] == "不通过原因："
    ensures result.reasons != [] ==> forall k :: 0 <= k < |result.reasons| ==> r[3 + k] == NumberedLine(k + 1, ReasonText(result.reasons[k]))
  {
    var extra := (if screenshot != [] then ["  - 详情截图：" + screenshot] else [])
      + (if download != [] then ["  - 标准文件：" + download] else []);
    VerdictLines(result) + InfoLines(info) + extra
  }

  /**
   * The standard's block of the report: after the verdict, the date and the
   * reasons, a blank line and a heading; the number shown as "GB n" only when
   * it is truthy, and status and abolition date with their fallback texts
   * whenever they are falsy.
   */
  lemma ReportStandardLines(info: StandardInfo, result: ValidationResult, screenshot: string, download: string)
    requires ValidDate(result.productionDate)
    ensures var r := ReportLines(info, result, screenshot, download);
      var w := if result.reasons != [] then 3 + |result.reasons| else 2;
      && |r| >= w + 8
      && r[w] == "" && r[w + 2] == (if FieldTruthy(info.gbNumber) then "  - 国标号：GB " + FieldText(info.gbNumber) else "  - 国标号：未知")
      && r[w + 3] == "  - 标准状态：" + OrElse(info.status, "未知")
      && r[w + 6] == "  - 废止日期：" + OrElse(info.abolishDate, "未知/未提供")
  {
  }

  /** `format_user_friendly_report`: the lines joined by newlines, so the report opens with the verdict line. */
  function FormatReport(info: StandardInfo, result: ValidationResult, screenshot: string, download: string): (r: string)
    requires ValidDate(result.productionDate)
    ensures StartsWith(r, (if result.passed then "校验结论：通过" else "校验结论：不通过") + "\n")
  {
    var lines := ReportLines(info, result, screenshot, download);
    JoinStartsWithFirst(lines, "\n");
    Join(lines, "\n")
  }
}
