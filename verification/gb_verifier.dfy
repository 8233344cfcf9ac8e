/**
 * Batch checking of national standards with a day-long cache. The network
 * work of one check, the clock, the cache file and the workers' outcomes are
 * parameters; what is modelled is the shaping of one check's record, the
 * hit/miss partition and which results reach the cache.
 */
module GbVerifier {
  import opened Wrappers
  import opened Text
  import Assoc
  import Validate
  import Runner

  /**
   * One result record. The records of the different branches carry different
   * keys; a key a branch leaves out is None here.
   */
  datatype Record = Record(
    passed: bool, status: string, statusText: string,
    publishDate: Option<string>, implementDate: Option<string>, abolishDate: Option<string>, detailUrl: Option<string>,
    screenshotPath: Option<string>, downloadPath: Option<string>,
    reasons: seq<string>, error: Option<string>, timestamp: Option<real>)

  /** Cached results are reused for a day. */
  const CacheTtl: real := 86400.0

  /** `_get_cache_key`. */
  function CacheKey(code: string, productionDate: string): (k: string)
    ensures |k| == |code| + 1 + |productionDate|
  {
    code + "_" + productionDate
  }

  /** For one production date, different codes have different keys. */
  lemma CacheKeyInjective(c1: string, c2: string, productionDate: string)
    requires CacheKey(c1, productionDate) == CacheKey(c2, productionDate)
    ensures c1 == c2
  {
    assert c1 == CacheKey(c1, productionDate)[..|c1|];
    assert c2 == CacheKey(c2, productionDate)[..|c2|];
  }

  /** A hit: an entry exists and is less than a day old, a missing timestamp counting as 0. */
  predicate IsHit(cache: map<string, Record>, key: string, now: real) {
    key in cache && now - cache[key].timestamp.GetOr(0.0) < CacheTtl
  }

  // ---------------------------------------------------------------- one check

  /** The record of a check that raised: a failure with the exception's text. */
  function ErrorRecord(message: string, trace: string, now: real): (r: Record)
    ensures !r.passed && r.status == "error" && r.statusText == "验证失败"
    ensures r.reasons == ["验证过程出错: " + message] && r.timestamp == Some(now)
  {
    Record(false, "error", "验证失败", None, None, None, None, None, None, ["验证过程出错: " + message], Some(trace), Some(now))
  }

  /**
   * The message of the error `parse_flexible_date` raises for text `s`: its
   * own two messages, or the one `date()` gives (CPython 3.12 wording).
   */
  function DateErrorText(e: Validate.DateError, s: string): (r: string)
    ensures e.BadFormat? ==> r == "invalid date format: " + Repr(s)
    ensures e.YearOutOfRange? && e.year == 0 ==> r == "year 0 is out of range"
  {
    match e
    case EmptyDate => "empty date string"
    case BadFormat => "invalid date format: " + Repr(s)
    case YearOutOfRange(y) => "year " + (if y < 0 then "-" + NatToString(-y) else NatToString(y)) + " is out of range"
    case BadMonth => "month must be in 1..12"
    case NoSuchDay => "day is out of range for month"
  }

  /**
   * What a production date that does not parse is reported as: blank text as
   * empty, text of another shape quoted so that it reads back as the text,
   * year 0, a month outside 1..12, or a day the month lacks.
   */
  lemma DateErrorMessages(s: string)
    requires Validate.ParseFlexibleDate(s).Err?
    ensures var r := DateErrorText(Validate.ParseFlexibleDate(s).error, s);
      && (r == "empty date string" <==> SpaceRunEnd(s, 0) == |s|)
      && (Validate.ParseFlexibleDate(s).error.BadFormat? ==>
            r[..21] == "invalid date format: " && Unescape(r[22..|r| - 1]) == s)
      && (Validate.ParseFlexibleDate(s).error.YearOutOfRange? ==> r == "year 0 is out of range")
      && (r == "month must be in 1..12" <==> Validate.ParseFlexibleDate(s).error.BadMonth?)
      && (r == "day is out of range for month" <==> Validate.ParseFlexibleDate(s).error.NoSuchDay?)
  {
    var e := Validate.ParseFlexibleDate(s).error;
    var r := DateErrorText(e, s);
    if e.BadFormat? {
      assert r[22..|r| - 1] == Repr(s)[1..|Repr(s)| - 1];
      ReprRoundTrip(s);
    }
    if e.YearOutOfRange? {
      Validate.YearZeroOnly(s);
    }
    assert "invalid date format: "[0] != "empty date string"[0];
  }

  /** A field of `parsed` as the validator reads it. */
  function FieldOf(x: Option<string>): (f: Validate.Field)
    ensures x.None? <==> f.Missing?
    ensures x.Some? ==> f == Validate.Str(x.value)
  {
    if x.None? then Validate.Missing else Validate.Str(x.value)
  }

  /** The record of a check whose validation ran. */
  function ShapedRecord(parsed: Runner.Info, v: Validate.ValidationResult, screenshot: Option<string>,
                        download: Option<string>, now: real): (r: Record)
    ensures r.passed == v.passed && (r.status == "valid" <==> v.passed)
    ensures r.status == "obsolete" <==> !v.passed && parsed.status.Some? && Contains(parsed.status.value, "废止")
    ensures r.status == "invalid" <==> !v.passed && !(parsed.status.Some? && Contains(parsed.status.value, "废止"))
    ensures r.statusText == (if Runner.Truthy(parsed.status) then parsed.status.value else "未知")
    ensures |r.reasons| == |v.reasons|
    ensures forall k :: 0 <= k < |v.reasons| ==> r.reasons[k] == Validate.ReasonText(v.reasons[k])
    ensures r.error.None? && r.timestamp == Some(now)
  {
    var status :=
      if v.passed then "valid"
      else if Runner.Truthy(parsed.status) && Contains(parsed.status.value, "废止") then "obsolete"
      else "invalid";
    Record(v.passed, status, if Runner.Truthy(parsed.status) then parsed.status.value else "未知",
      parsed.publishDate, parsed.implementDate, parsed.abolishDate, parsed.detailPageUrl,
      screenshot, download, seq(|v.reasons|, k requires 0 <= k < |v.reasons| => Validate.ReasonText(v.reasons[k])),
      None, Some(now))
  }

  /**
   * `_verify_single_code_logic` after the standard's information is gathered:
   * `raised` is the message of an exception raised while gathering it. The
   * production date is text, so a date that does not parse also ends in the
   * error record.
   */
  function SingleRecord(parsed: Runner.Info, productionDate: string, screenshot: Option<string>, download: Option<string>,
                        raised: Option<string>, trace: string, now: real): (r: Record)
    ensures raised.Some? ==> r == ErrorRecord(raised.value, trace, now)
    ensures raised.None? && Validate.ParseFlexibleDate(productionDate).Err? ==>
      r == ErrorRecord(DateErrorText(Validate.ParseFlexibleDate(productionDate).error, productionDate), trace, now)
    ensures r.status in {"valid", "obsolete", "invalid", "error"}
    ensures r.status == "valid" <==> r.passed
    ensures r.timestamp == Some(now)
  {
    if raised.Some? then ErrorRecord(raised.value, trace, now)
    else
      match Validate.ValidateStandard(Validate.AsText(productionDate), FieldOf(parsed.status), FieldOf(parsed.implementDate))
      case Err(e) => ErrorRecord(DateErrorText(e, productionDate), trace, now)
      case Ok(v) => ShapedRecord(parsed, v, screenshot, download, now)
  }

  /** A record passes exactly when the standard is in force, has an implementation date that parses, and production is not earlier. */
  lemma SinglePassedIff(parsed: Runner.Info, productionDate: string, screenshot: Option<string>, download: Option<string>,
                        trace: string, now: real)
    ensures SingleRecord(parsed, productionDate, screenshot, download, None, trace, now).passed <==>
      (&& Validate.ParseFlexibleDate(productionDate).Ok?
       && Validate.IsCurrentlyEffective(FieldOf(parsed.status))
       && Validate.ImplementDate(FieldOf(parsed.implementDate)).Some?
       && !Validate.Before(Validate.ParseFlexibleDate(productionDate).value,
                           Validate.ImplementDate(FieldOf(parsed.implementDate)).value))
  {
    var st, impl := FieldOf(parsed.status), FieldOf(parsed.implementDate);
    if Validate.ParseFlexibleDate(productionDate).Ok? {
      Validate.PassedIff(Validate.AsText(productionDate), st, impl);
    }
  }

  // ---------------------------------------------------------------- the batch

  /** What a worker gave back: its record, or an exception that escaped it. */
  datatype Outcome = Returned(record: Record) | Raised(message: string, trace: string)

  /** The record for an exception that escaped a worker; it carries no timestamp. */
  function RaisedRecord(message: string, trace: string): (r: Record)
    ensures !r.passed && r.status == "error" && r.statusText == "未处理异常" && r.reasons == [message]
    ensures r.timestamp.None?
  {
    Record(false, "error", "未处理异常", None, None, None, None, None, None, [message], Some(trace), None)
  }

  function OutcomeRecord(o: Outcome): Record {
    match o
    case Returned(r) => r
    case Raised(m, t) => RaisedRecord(m, t)
  }

  /** The record every code gets when no search service is configured. */
  function UnconfiguredRecord(): (r: Record)
    ensures !r.passed && r.status == "unknown" && r.statusText == "未配置验证服务"
  {
    Record(false, "unknown", "未配置验证服务", None, None, None, None, None, None,
      ["未配置 Tavily MCP URL"], Some("Missing MCP configuration"), None)
  }

  /** The service address in use: the one given if non-empty, else the configured one. */
  predicate Configured(given: Option<string>, loaded: Option<string>) {
    Runner.Truthy(if Runner.Truthy(given) then given else loaded)
  }

  /** The result of a configured batch: a fresh cache entry where there is one, else what the worker gave. */
  function ExpectedResults(codes: seq<string>, productionDate: string, cache: map<string, Record>, now: real,
                           outcome: string -> Outcome): (r: map<string, Record>)
    ensures r.Keys == set c | c in codes
  {
    map c | c in codes :: if IsHit(cache, CacheKey(c, productionDate), now) then cache[CacheKey(c, productionDate)]
                          else OutcomeRecord(outcome(c))
  }

  /** A code the batch runs a worker for. */
  predicate Fetched(c: string, productionDate: string, cache: map<string, Record>, now: real) {
    !IsHit(cache, CacheKey(c, productionDate), now)
  }

  /** The keys the batch writes: those of missed codes whose worker returned. */
  function WrittenKeys(codes: seq<string>, productionDate: string, cache: map<string, Record>, now: real,
                       outcome: string -> Outcome): set<string>
  {
    set c | c in codes && Fetched(c, productionDate, cache, now) && outcome(c).Returned? :: CacheKey(c, productionDate)
  }

  /** The cache after a configured batch: each returned record under its key, every other entry as it was. */
  predicate CacheUpdated(codes: seq<string>, productionDate: string, cache: map<string, Record>, now: real,
                         outcome: string -> Outcome, after: map<string, Record>)
  {
    && after.Keys == cache.Keys + WrittenKeys(codes, productionDate, cache, now, outcome)
    && (forall c :: c in codes && Fetched(c, productionDate, cache, now) && outcome(c).Returned? ==>
          after[CacheKey(c, productionDate)] == outcome(c).record)
    && (forall k :: k in cache && k !in WrittenKeys(codes, productionDate, cache, now, outcome) ==> after[k] == cache[k])
  }

  /** Step 1, the cache check once per distinct code: the hits' records, and the misses in order. */
  method CheckCache(codes: seq<string>, productionDate: string, cache: map<string, Record>, now: real)
    returns (results: map<string, Record>, toFetch: seq<string>)
    ensures forall c :: c in results <==> c in codes && !Fetched(c, productionDate, cache, now)
    ensures forall c :: c in results ==> IsHit(cache, CacheKey(c, productionDate), now) && results[c] == cache[CacheKey(c, productionDate)]
    ensures forall c :: c in toFetch <==> c in codes && Fetched(c, productionDate, cache, now)
    ensures forall a, b :: 0 <= a < b < |toFetch| ==> toFetch[a] != toFetch[b]
  {
    var distinct := Assoc.Distinct(codes);
    results := map[];
    toFetch := [];
    var i := 0;
    while i < |distinct|
      invariant 0 <= i <= |distinct|
      invariant forall c :: c in results <==> c in distinct[..i] && !Fetched(c, productionDate, cache, now)
      invariant forall c :: c in results ==> IsHit(cache, CacheKey(c, productionDate), now) && results[c] == cache[CacheKey(c, productionDate)]
      invariant forall c :: c in toFetch <==> c in distinct[..i] && Fetched(c, productionDate, cache, now)
      invariant forall a, b :: 0 <= a < b < |toFetch| ==> toFetch[a] != toFetch[b]
    {
      assert distinct[..i + 1] == distinct[..i] + [distinct[i]];
      var code := distinct[i];
      var key := CacheKey(code, productionDate);
      if IsHit(cache, key, now) {
        results := results[code := cache[key]];
      } else {
        toFetch := toFetch + [code];
      }
      i := i + 1;
    }
    assert distinct[..i] == distinct;
  }

  /** Step 2, the workers: every code gets its outcome's record; the records returned are collected in order. */
  method RunWorkers(results0: map<string, Record>, toFetch: seq<string>, outcome: string -> Outcome)
    returns (results: map<string, Record>, newResults: Assoc.Dict<string, Record>)
    requires forall a, b :: 0 <= a < b < |toFetch| ==> toFetch[a] != toFetch[b]
    ensures Assoc.DistinctKeys(newResults)
    ensures forall c :: c in results <==> c in results0 || c in toFetch
    ensures forall c :: c in results ==> results[c] == if c in toFetch then OutcomeRecord(outcome(c)) else results0[c]
    ensures forall m :: 0 <= m < |newResults| ==>
      newResults[m].0 in toFetch && outcome(newResults[m].0) == Returned(newResults[m].1)
    ensures forall c :: c in toFetch && outcome(c).Returned? ==> exists m :: 0 <= m < |newResults| && newResults[m].0 == c
  {
    results, newResults := results0, [];
    var j := 0;
    while j < |toFetch|
      invariant 0 <= j <= |toFetch|
      invariant forall c :: c in results <==> c in results0 || c in toFetch[..j]
      invariant forall c :: c in results ==> results[c] == if c in toFetch[..j] then OutcomeRecord(outcome(c)) else results0[c]
      invariant Assoc.DistinctKeys(newResults)
      invariant forall m :: 0 <= m < |newResults| ==>
        newResults[m].0 in toFetch[..j] && outcome(newResults[m].0) == Returned(newResults[m].1)
      invariant forall c :: c in toFetch[..j] && outcome(c).Returned? ==> exists m :: 0 <= m < |newResults| && newResults[m].0 == c
    {
      assert toFetch[..j + 1] == toFetch[..j] + [toFetch[j]];
      var code := toFetch[j];
      match outcome(code) {
        case Returned(res) =>
          ghost var before := newResults;
          assert code !in toFetch[..j];
          newResults := newResults + [(code, res)];
          results := results[code := res];
          assert newResults[|newResults| - 1].0 == code;
          forall c | c in toFetch[..j] && outcome(c).Returned?
            ensures exists m :: 0 <= m < |newResults| && newResults[m].0 == c
          {
            var m :| 0 <= m < |before| && before[m].0 == c;
            assert newResults[m] == before[m];
          }
        case Raised(message, trace) =>
          results := results[code := RaisedRecord(message, trace)];
      }
      j := j + 1;
    }
    assert toFetch[..j] == toFetch;
  }

  /** Step 3, the cache update: each collected record under its code's key. */
  method WriteCache(cache: map<string, Record>, newResults: Assoc.Dict<string, Record>, productionDate: string)
    returns (saved: map<string, Record>)
    requires Assoc.DistinctKeys(newResults)
    ensures saved.Keys == cache.Keys + set m | 0 <= m < |newResults| :: CacheKey(newResults[m].0, productionDate)
    ensures forall m :: 0 <= m < |newResults| ==> saved[CacheKey(newResults[m].0, productionDate)] == newResults[m].1
    ensures forall k :: k in cache && k !in (set m | 0 <= m < |newResults| :: CacheKey(newResults[m].0, productionDate)) ==>
      saved[k] == cache[k]
  {
    saved := cache;
    var n := 0;
    while n < |newResults|
      invariant 0 <= n <= |newResults|
      invariant saved.Keys == cache.Keys + set m | 0 <= m < n :: CacheKey(newResults[m].0, productionDate)
      invariant forall m :: 0 <= m < n ==> saved[CacheKey(newResults[m].0, productionDate)] == newResults[m].1
      invariant forall k :: k in cache && k !in (set m | 0 <= m < n :: CacheKey(newResults[m].0, productionDate)) ==>
        saved[k] == cache[k]
    {
      saved := saved[CacheKey(newResults[n].0, productionDate) := newResults[n].1];
      forall m | 0 <= m < n ensures saved[CacheKey(newResults[m].0, productionDate)] == newResults[m].1 {
        if CacheKey(newResults[m].0, productionDate) == CacheKey(newResults[n].0, productionDate) {
          CacheKeyInjective(newResults[m].0, newResults[n].0, productionDate);
        }
      }
      n := n + 1;
    }
  }

  /**
   * `verify_gb_standards`: returns the results and the cache as saved. With
   * no service configured every code gets the unconfigured record and the
   * cache is untouched. Otherwise hits are served from the cache, the misses
   * go to the workers, and only the records the workers returned are written.
   */
  method VerifyGbStandards(codes: seq<string>, productionDate: string, given: Option<string>, loaded: Option<string>,
                           cache: map<string, Record>, now: real, outcome: string -> Outcome)
    returns (results: map<string, Record>, saved: map<string, Record>)
    ensures !Configured(given, loaded) ==> results == (map c | c in codes :: UnconfiguredRecord()) && saved == cache
    ensures Configured(given, loaded) ==> results == ExpectedResults(codes, productionDate, cache, now, outcome)
    ensures Configured(given, loaded) ==> CacheUpdated(codes, productionDate, cache, now, outcome, saved)
  {
    if !Configured(given, loaded) {
      return map c | c in codes :: UnconfiguredRecord(), cache;
    }
    var hits, toFetch := CheckCache(codes, productionDate, cache, now);
    var newResults;
    results, newResults := RunWorkers(hits, toFetch, outcome);
    saved := WriteCache(cache, newResults, productionDate);
    ResultsAssembled(codes, productionDate, cache, now, outcome, hits, toFetch, results);
    WrittenAreReturned(codes, productionDate, cache, now, outcome, toFetch, newResults);
    CacheAssembled(codes, productionDate, cache, now, outcome, newResults, saved);
  }

  /** Steps 1 and 2 together give the expected results. */
  lemma ResultsAssembled(codes: seq<string>, productionDate: string, cache: map<string, Record>, now: real,
                         outcome: string -> Outcome, hits: map<string, Record>, toFetch: seq<string>, results: map<string, Record>)
    requires forall c :: c in hits <==> c in codes && !Fetched(c, productionDate, cache, now)
    requires forall c :: c in hits ==> IsHit(cache, CacheKey(c, productionDate), now) && hits[c] == cache[CacheKey(c, productionDate)]
    requires forall c :: c in toFetch <==> c in codes && Fetched(c, productionDate, cache, now)
    requires forall c :: c in results <==> c in hits || c in toFetch
    requires forall c :: c in results ==> results[c] == if c in toFetch then OutcomeRecord(outcome(c)) else hits[c]
    ensures results == ExpectedResults(codes, productionDate, cache, now, outcome)
  {
    var e := ExpectedResults(codes, productionDate, cache, now, outcome);
    assert results.Keys == e.Keys;
  }

  /** Step 3 writes exactly the written keys, with the workers' records. */
  lemma CacheAssembled(codes: seq<string>, productionDate: string, cache: map<string, Record>, now: real,
                       outcome: string -> Outcome, newResults: Assoc.Dict<string, Record>, saved: map<string, Record>)
    requires (set m | 0 <= m < |newResults| :: CacheKey(newResults[m].0, productionDate)) ==
      WrittenKeys(codes, productionDate, cache, now, outcome)
    requires forall c :: c in codes && Fetched(c, productionDate, cache, now) && outcome(c).Returned? ==>
      exists m :: 0 <= m < |newResults| && newResults[m].0 == c
    requires forall m :: 0 <= m < |newResults| ==> outcome(newResults[m].0) == Returned(newResults[m].1)
    requires saved.Keys == cache.Keys + set m | 0 <= m < |newResults| :: CacheKey(newResults[m].0, productionDate)
    requires forall m :: 0 <= m < |newResults| ==> saved[CacheKey(newResults[m].0, productionDate)] == newResults[m].1
    requires forall k :: k in cache && k !in (set m | 0 <= m < |newResults| :: CacheKey(newResults[m].0, productionDate)) ==>
      saved[k] == cache[k]
    ensures CacheUpdated(codes, productionDate, cache, now, outcome, saved)
  {
    forall c | c in codes && Fetched(c, productionDate, cache, now) && outcome(c).Returned?
      ensures saved[CacheKey(c, productionDate)] == outcome(c).record
    {
      var m :| 0 <= m < |newResults| && newResults[m].0 == c;
    }
  }

  /** The keys written in step 3 are exactly the batch's written keys. */
  lemma WrittenAreReturned(codes: seq<string>, productionDate: string, cache: map<string, Record>, now: real,
                           outcome: string -> Outcome, toFetch: seq<string>, newResults: Assoc.Dict<string, Record>)
    requires forall c :: c in toFetch <==> c in codes && Fetched(c, productionDate, cache, now)
    requires forall m :: 0 <= m < |newResults| ==>
      newResults[m].0 in toFetch && outcome(newResults[m].0) == Returned(newResults[m].1)
    requires forall c :: c in toFetch && outcome(c).Returned? ==> exists m :: 0 <= m < |newResults| && newResults[m].0 == c
    ensures (set m | 0 <= m < |newResults| :: CacheKey(newResults[m].0, productionDate)) ==
      WrittenKeys(codes, productionDate, cache, now, outcome)
  {
    var w := WrittenKeys(codes, productionDate, cache, now, outcome);
    var s := set m | 0 <= m < |newResults| :: CacheKey(newResults[m].0, productionDate);
    forall k | k in w ensures k in s {
      var c :| c in codes && Fetched(c, productionDate, cache, now) && outcome(c).Returned? && k == CacheKey(c, productionDate);
      var m :| 0 <= m < |newResults| && newResults[m].0 == c;
    }
  }

  /** The entry of a code served from the cache is left as it was. */
  lemma HitEntryKept(codes: seq<string>, productionDate: string, cache: map<string, Record>, now: real,
                     outcome: string -> Outcome, saved: map<string, Record>, c: string)
    requires CacheUpdated(codes, productionDate, cache, now, outcome, saved)
    requires !Fetched(c, productionDate, cache, now)
    ensures CacheKey(c, productionDate) in saved && saved[CacheKey(c, productionDate)] == cache[CacheKey(c, productionDate)]
  {
  }

  /** A code whose worker raised gets a result but no new cache entry. */
  lemma RaisedNotCached(codes: seq<string>, productionDate: string, cache: map<string, Record>, now: real,
                        outcome: string -> Outcome, saved: map<string, Record>, c: string)
    requires CacheUpdated(codes, productionDate, cache, now, outcome, saved)
    requires c in codes && Fetched(c, productionDate, cache, now) && outcome(c).Raised?
    ensures ExpectedResults(codes, productionDate, cache, now, outcome)[c] == RaisedRecord(outcome(c).message, outcome(c).trace)
    ensures CacheKey(c, productionDate) in saved <==> CacheKey(c, productionDate) in cache
    ensures CacheKey(c, productionDate) in cache ==> saved[CacheKey(c, productionDate)] == cache[CacheKey(c, productionDate)]
  {
    var k := CacheKey(c, productionDate);
    if k in WrittenKeys(codes, productionDate, cache, now, outcome) {
      var c' :| c' in codes && Fetched(c', productionDate, cache, now) && outcome(c').Returned? && k == CacheKey(c', productionDate);
      CacheKeyInjective(c, c', productionDate);
    }
  }

  /** The record `verify_single_gb` falls back on when the batch has no entry for the code. */
  function MissingRecord(): (r: Record)
    ensures !r.passed && r.status == "error" && r.reasons == ["未知错误"]
  {
    Record(false, "error", "验证失败", None, None, None, None, None, None, ["未知错误"], Some("No result returned"), None)
  }

  /**
   * `verify_single_gb`: the batch's entry for the one code. The batch always
   * has that entry, so the fallback record is never returned.
   */
  method VerifySingleGb(code: string, productionDate: string, given: Option<string>, loaded: Option<string>,
                        cache: map<string, Record>, now: real, outcome: string -> Outcome)
    returns (result: Record, saved: map<string, Record>)
    ensures !Configured(given, loaded) ==> result == UnconfiguredRecord() && saved == cache
    ensures Configured(given, loaded) && !Fetched(code, productionDate, cache, now) ==>
      result == cache[CacheKey(code, productionDate)] && saved == cache
    ensures Configured(given, loaded) && Fetched(code, productionDate, cache, now) ==> (
      && result == OutcomeRecord(outcome(code))
      && saved == if outcome(code).Returned? then cache[CacheKey(code, productionDate) := outcome(code).record] else cache)
  {
    var results;
    results, saved := VerifyGbStandards([code], productionDate, given, loaded, cache, now, outcome);
    result := if code in results then results[code] else MissingRecord();
    if Configured(given, loaded) {
      SingleCacheUpdate(code, productionDate, cache, now, outcome, saved);
    }
  }

  /** For a batch of one code, the saved cache in full. */
  lemma SingleCacheUpdate(code: string, productionDate: string, cache: map<string, Record>, now: real,
                          outcome: string -> Outcome, saved: map<string, Record>)
    requires CacheUpdated([code], productionDate, cache, now, outcome, saved)
    ensures saved == if Fetched(code, productionDate, cache, now) && outcome(code).Returned?
      then cache[CacheKey(code, productionDate) := outcome(code).record] else cache
  {
    var k := CacheKey(code, productionDate);
    var w := WrittenKeys([code], productionDate, cache, now, outcome);
    if Fetched(code, productionDate, cache, now) && outcome(code).Returned? {
      assert w == {k};
    } else {
      assert w == {};
    }
  }
}
