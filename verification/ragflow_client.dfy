/**
 * The RAGFlow retrieval client: the questions it asks, the knowledge bases it
 * asks them of, how a search response becomes result records, and the
 * process-wide client that is created once. The HTTP exchange itself is a
 * parameter: the status and the decoded body (None when the body is not JSON).
 */
module RagflowClient {
  import opened Wrappers
  import opened Json

  // ---------------------------------------------------------------- the client

  /** A configured client; its fields are set once, at construction. */
  datatype Client = Client(apiUrl: string, apiKey: string, kbId: string)
  {
    /** The request headers: bearer authentication with the API key. */
    function Headers(): (h: seq<(string, string)>)
      ensures |h| == 2 && h[0] == ("Authorization", "Bearer " + apiKey)
    {
      [("Authorization", "Bearer " + apiKey), ("Content-Type", "application/json")]
    }
  }

  // ---------------------------------------------------------------- questions

  /** The inspection-items question: the custom query when one is given, else "<food>检验项目". */
  function InspectionQuestion(foodName: string, customQuery: Option<string>): (q: string)
    ensures customQuery.Some? && customQuery.value != [] ==> q == customQuery.value
    ensures (customQuery.None? || customQuery.value == []) ==> |q| == |foodName| + 4 && q[..|foodName|] == foodName && q[|foodName|..] == "检验项目"
  {
    if customQuery.Some? && customQuery.value != [] then customQuery.value else foodName + "检验项目"
  }

  function TestMethodsQuestion(itemName: string): (q: string)
    ensures |q| == |itemName| + 4 && q[..|itemName|] == itemName && q[|itemName|..] == "检测方法"
  {
    itemName + "检测方法"
  }

  function GbStandardQuestion(standardNum: string): (q: string)
    ensures |q| == |standardNum| + 3 && q[..3] == "GB " && q[3..] == standardNum
  {
    "GB " + standardNum
  }

  /** The limit question: the code, the item, and the words for limit and requirement. */
  function StandardLimitQuestion(standardCode: string, itemName: string): (q: string)
    ensures |q| == |standardCode| + 1 + |itemName| + 10
    ensures q[..|standardCode|] == standardCode && q[|standardCode|] == ' '
    ensures q[|standardCode| + 1..|standardCode| + 1 + |itemName|] == itemName
    ensures q[|standardCode| + 1 + |itemName|..] == " 标准限量 指标要求"
  {
    standardCode + " " + itemName + " 标准限量 指标要求"
  }

  const DefaultIndicatorCode := "GB 2763"

  /** `query_standard_indicators`: the limit question, with the pesticide-residue standard when no code is given. */
  function IndicatorQuestion(itemName: string, standardCode: Option<string>): (q: string)
    ensures standardCode.Some? && standardCode.value != [] ==> q == StandardLimitQuestion(standardCode.value, itemName)
    ensures (standardCode.None? || standardCode.value == []) ==> q == StandardLimitQuestion(DefaultIndicatorCode, itemName)
  {
    StandardLimitQuestion(if standardCode.Some? && standardCode.value != [] then standardCode.value else DefaultIndicatorCode, itemName)
  }

  // ---------------------------------------------------------------- knowledge bases

  /** The knowledge bases `_search` asks: the given list if non-empty, else the given id, else the client's. */
  function TargetIds(c: Client, datasetIds: seq<string>, kbId: Option<string>): (ids: seq<string>)
    ensures ids != []
    ensures datasetIds != [] ==> ids == datasetIds
    ensures datasetIds == [] && kbId.Some? && kbId.value != [] ==> ids == [kbId.value]
    ensures datasetIds == [] && (kbId.None? || kbId.value == []) ==> ids == [c.kbId]
  {
    if datasetIds != [] then datasetIds
    else if kbId.Some? && kbId.value != [] then [kbId.value]
    else [c.kbId]
  }

  /** The knowledge bases `query` asks: the given list if non-empty, else the client's own. */
  function QueryIds(c: Client, datasetIds: seq<string>): (ids: seq<string>)
    ensures ids == TargetIds(c, datasetIds, None)
  {
    if datasetIds != [] then datasetIds else [c.kbId]
  }

  // ---------------------------------------------------------------- result records

  /** One processed chunk, field by field as `_process_results` builds it. */
  datatype Record = Record(content: Json, score: Json, chunkId: Json, docName: Json, documentId: Json, pageNum: Json)

  /** The chunk text: the first non-empty of content, content_with_weight and content_ltks. */
  function ContentOf(chunk: Json): (r: Json)
    ensures Truthy(MemberOr(chunk, "content", Str(""))) ==> r == MemberOr(chunk, "content", Str(""))
    ensures !Truthy(MemberOr(chunk, "content", Str(""))) && Truthy(MemberOr(chunk, "content_with_weight", Str(""))) ==>
      r == MemberOr(chunk, "content_with_weight", Str(""))
    ensures Truthy(r) <==> (Truthy(MemberOr(chunk, "content", Str(""))) || Truthy(MemberOr(chunk, "content_with_weight", Str("")))
      || Truthy(MemberOr(chunk, "content_ltks", Str(""))))
  {
    var c := MemberOr(chunk, "content", Str(""));
    if Truthy(c) then c
    else
      var w := MemberOr(chunk, "content_with_weight", Str(""));
      if Truthy(w) then w else MemberOr(chunk, "content_ltks", Str(""))
  }

  /** Values `len` accepts. */
  predicate Sized(v: Json) { v.Str? || v.Arr? || v.Obj? }

  function Size(v: Json): nat
    requires Sized(v)
  {
    match v
    case Str(s) => |s|
    case Arr(items) => |items|
    case Obj(members) => |members|
  }

  /** `v[0]` on a non-empty sized value: the first character or item; None when it raises (an object has no key 0). */
  function First(v: Json): (r: Option<Json>)
    requires Sized(v) && Size(v) > 0
    ensures v.Arr? ==> r == Some(v.items[0])
    ensures v.Obj? <==> r.None?
  {
    match v
    case Str(s) => Some(Str([s[0]]))
    case Arr(items) => Some(items[0])
    case Obj(_) => None
  }

  /**
   * The page from `positions[0][0]`: Ok(None) when there is none to take,
   * Err when the expression raises.
   */
  function PositionPage(chunk: Json): (r: Result<Option<Json>, string>)
    ensures (match Member(chunk, "positions")
             case Some(Arr(ps)) => ps != [] && ps[0].Arr? && ps[0].items != []
             case _ => false) ==> r == Ok(Some(Member(chunk, "positions").value.items[0].items[0]))
    ensures !Truthy(MemberOr(chunk, "positions", Arr([]))) ==> r == Ok(None)
  {
    var positions := MemberOr(chunk, "positions", Arr([]));
    if !Truthy(positions) then Ok(None)
    else if !Sized(positions) then Err("TypeError")
    else match First(positions)
      case None => Err("KeyError")
      case Some(p0) =>
        if !Sized(p0) then Err("TypeError")
        else if Size(p0) == 0 then Ok(None)
        else match First(p0)
          case None => Err("KeyError")
          case Some(page) => Ok(Some(page))
  }

  /** The page number: the position's page unless it is null, else page_num or page_num_int; a falsy one becomes 1. */
  function PageNumOf(chunk: Json, position: Option<Json>): (r: Json)
    ensures Truthy(r)
    ensures position.Some? && Truthy(position.value) ==> r == position.value
    ensures !Truthy(OrJson(MemberOr(chunk, "page_num", Null), MemberOr(chunk, "page_num_int", Null))) && (position.None? || position.value.Null?) ==> r == Num(1.0)
  {
    var page := if position.Some? && !position.value.Null? then position.value
      else OrJson(MemberOr(chunk, "page_num", Null), MemberOr(chunk, "page_num_int", Null));
    OrJson(page, Num(1.0))
  }

  /** The record of one chunk, or Err when reading the chunk raises. */
  function ProcessChunk(chunk: Json): (r: Result<Record, string>)
    ensures !chunk.Obj? ==> r.Err?
    ensures r.Ok? ==> Truthy(r.value.pageNum) && r.value.content == ContentOf(chunk)
    ensures r.Ok? ==> r.value.score == MemberOr(chunk, "similarity", Num(0.0))
    ensures r.Ok? ==> r.value.chunkId == MemberOr(chunk, "id", MemberOr(chunk, "chunk_id", Str("")))
    ensures r.Ok? ==> r.value.docName == MemberOr(chunk, "document_keyword", MemberOr(chunk, "docnm_kwd", Str("")))
  {
    if !chunk.Obj? then Err("AttributeError")
    else match PositionPage(chunk)
      case Err(e) => Err(e)
      case Ok(position) =>
        Ok(Record(
          ContentOf(chunk),
          MemberOr(chunk, "similarity", Num(0.0)),
          MemberOr(chunk, "id", MemberOr(chunk, "chunk_id", Str(""))),
          MemberOr(chunk, "document_keyword", MemberOr(chunk, "docnm_kwd", Str(""))),
          MemberOr(chunk, "document_id", Str("")),
          PageNumOf(chunk, position)))
  }

  /** The records of all chunks in order, or Err when one of them raises. */
  function ProcessAll(chunks: seq<Json>): (r: Result<seq<Record>, string>)
    ensures r.Ok? <==> forall k :: 0 <= k < |chunks| ==> ProcessChunk(chunks[k]).Ok?
    ensures r.Ok? ==> |r.value| == |chunks| && forall k :: 0 <= k < |chunks| ==> ProcessChunk(chunks[k]) == Ok(r.value[k])
  {
    MapAllOk(ProcessChunk, chunks);
    MapAllValues(ProcessChunk, chunks);
    MapAll(ProcessChunk, chunks)
  }

  /** `_process_results`. */
  method ProcessResults(chunks: seq<Json>) returns (r: Result<seq<Record>, string>)
    ensures r == ProcessAll(chunks)
  {
    var processed: seq<Record> := [];
    var i := 0;
    while i < |chunks|
      invariant 0 <= i <= |chunks|
      invariant MapAll(ProcessChunk, chunks[..i]) == Ok(processed)
    {
      assert chunks[..i + 1][..i] == chunks[..i];
      match ProcessChunk(chunks[i]) {
        case Err(e) =>
          MapAllErrStays(ProcessChunk, chunks, i + 1);
          return Err(e);
        case Ok(rec) =>
          processed := processed + [rec];
      }
      i := i + 1;
    }
    assert chunks[..i] == chunks;
    r := Ok(processed);
  }

  /**
   * What `_search` returns for a response: the records of the chunks when the
   * status is 200 and the body's code is 0, and an empty list on any other
   * status or code and on any exception while reading the body.
   */
  function SearchResults(status: int, body: Option<Json>): (r: seq<Record>)
    ensures status != 200 || body.None? ==> r == []
  {
    if status != 200 then []
    else match body
      case None => []
      case Some(result) =>
        if !result.Obj? then []
        else if !(Member(result, "code").Some? && EqualsInt(Member(result, "code").value, 0)) then []
        else
          var data := MemberOr(result, "data", Obj([]));
          if !data.Obj? then []
          else match MemberOr(data, "chunks", Arr([]))
            case Arr(chunks) =>
              (match ProcessAll(chunks)
               case Ok(records) => records
               case Err(_) => [])
            case _ => []
  }

  /** A successful response with well-formed chunks gives one record per chunk, in order. */
  lemma SearchResultsPerChunk(chunks: seq<Json>, rest: seq<(string, Json)>)
    requires forall k :: 0 <= k < |chunks| ==> ProcessChunk(chunks[k]).Ok?
    ensures var r := SearchResults(200, Some(Obj([("code", Num(0.0)), ("data", Obj([("chunks", Arr(chunks))]))] + rest)));
      |r| == |chunks| && forall k :: 0 <= k < |chunks| ==> ProcessChunk(chunks[k]) == Ok(r[k])
  {
    var members := [("code", Num(0.0)), ("data", Obj([("chunks", Arr(chunks))]))] + rest;
    assert members[0].0 == "code" && members[1].0 == "data";
    assert Get(members, "data") == Some(Obj([("chunks", Arr(chunks))])) by {
      GetAt(members, "data", 1);
    }
  }

  // ---------------------------------------------------------------- the shared client

  /** Settings as the configuration dict holds them; a missing key is absent. */
  type Settings = map<string, string>

  /** Whether a setting is present and non-empty. */
  predicate Configured(config: Settings, key: string) { key in config && config[key] != [] }

  /** `get_ragflow_client` as a value: the existing client, else a new one when URL, key and id are all set. */
  function Obtain(current: Option<Client>, config: Settings): (r: Option<Client>)
    ensures current.Some? ==> r == current
    ensures current.None? ==> (r.Some? <==> Configured(config, "RAGFLOW_API_URL") && Configured(config, "RAGFLOW_API_KEY") && Configured(config, "RAGFLOW_KB_ID"))
    ensures current.None? && r.Some? ==>
      r.value == Client(config["RAGFLOW_API_URL"], config["RAGFLOW_API_KEY"], config["RAGFLOW_KB_ID"])
  {
    if current.Some? then current
    else if Configured(config, "RAGFLOW_API_URL") && Configured(config, "RAGFLOW_API_KEY") && Configured(config, "RAGFLOW_KB_ID")
    then Some(Client(config["RAGFLOW_API_URL"], config["RAGFLOW_API_KEY"], config["RAGFLOW_KB_ID"]))
    else None
  }

  /** Once a client exists, later configurations never change it. */
  lemma {:induction false} ObtainFirstWins(current: Option<Client>, configs: seq<Settings>)
    requires current.Some?
    ensures ObtainAll(current, configs) == current
  {
    if configs != [] {
      ObtainFirstWins(current, configs[..|configs| - 1]);
    }
  }

  /** The client after a sequence of calls. */
  function ObtainAll(current: Option<Client>, configs: seq<Settings>): Option<Client> {
    if configs == [] then current else Obtain(ObtainAll(current, configs[..|configs| - 1]), configs[|configs| - 1])
  }

  /** The module-level singleton. */
  class Registry {
    var client: Option<Client>

    constructor ()
      ensures client.None?
    {
      client := None;
    }

    /** `get_ragflow_client`. */
    method GetClient(config: Settings) returns (c: Option<Client>)
      modifies this
      ensures client == Obtain(old(client), config)
      ensures c == client
    {
      if client.None? {
        if Configured(config, "RAGFLOW_API_URL") && Configured(config, "RAGFLOW_API_KEY") && Configured(config, "RAGFLOW_KB_ID") {
          client := Some(Client(config["RAGFLOW_API_URL"], config["RAGFLOW_API_KEY"], config["RAGFLOW_KB_ID"]));
        }
      }
      c := client;
    }
  }
}
