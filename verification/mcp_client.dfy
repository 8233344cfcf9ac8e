/**
 * The client side of the Model Context Protocol calls: reading server-sent
 * event replies, building and answering JSON-RPC 2.0 requests, and choosing
 * the search tool and its arguments. The HTTP exchange is a parameter (the
 * status and decoded body), and so is `json.loads` (`parse`).
 */
module McpClient {
  import opened Wrappers
  import opened Text
  import opened Json

  type Parser = string -> Option<Json>

  // ---------------------------------------------------------------- server-sent events

  /** The payload of a `data:` line: the stripped text after the field name. */
  function DataPayload(line: string): (r: Option<string>)
    ensures r.Some? ==> StartsWith(Strip(line), "data:") && IsStripped(r.value)
    ensures !StartsWith(Strip(line), "data:") ==> r.None?
  {
    var l := Strip(line);
    if StartsWith(l, "data:") then Some(Strip(l[5..])) else None
  }

  /** What one line contributes: the object its non-empty payload decodes to, if any. */
  function LineMessage(line: string, parse: Parser): (r: seq<Json>)
    ensures |r| <= 1 && forall k :: 0 <= k < |r| ==> r[k].Obj?
    ensures |r| == 1 <==> (
      && DataPayload(line).Some? && DataPayload(line).value != []
      && parse(DataPayload(line).value).Some? && parse(DataPayload(line).value).value.Obj?)
  {
    match DataPayload(line)
    case None => []
    case Some(data) =>
      if data == [] then []
      else match parse(data)
        case Some(obj) => if obj.Obj? then [obj] else []
        case None => []
  }

  /** The messages of a list of lines, in order. */
  function SseMessages(lines: seq<string>, parse: Parser): (r: seq<Json>)
    ensures |r| <= |lines| && forall k :: 0 <= k < |r| ==> r[k].Obj?
  {
    if lines == [] then [] else SseMessages(lines[..|lines| - 1], parse) + LineMessage(lines[|lines| - 1], parse)
  }

  /** Messages of consecutive stretches of lines come one after the other: no line is joined to its neighbour. */
  lemma {:induction false} SseMessagesAppend(a: seq<string>, b: seq<string>, parse: Parser)
    ensures SseMessages(a + b, parse) == SseMessages(a, parse) + SseMessages(b, parse)
    decreases |b|
  {
    if b == [] {
      assert a + b == a;
    } else {
      var b' := b[..|b| - 1];
      assert (a + b)[..|a + b| - 1] == a + b';
      SseMessagesAppend(a, b', parse);
    }
  }

  /** Two data lines give two messages, each decoded on its own. */
  lemma TwoDataLinesTwoMessages(l1: string, l2: string, parse: Parser)
    requires |LineMessage(l1, parse)| == 1 && |LineMessage(l2, parse)| == 1
    ensures SseMessages([l1, l2], parse) == LineMessage(l1, parse) + LineMessage(l2, parse)
  {
    assert [l1, l2][..1] == [l1];
    assert [l1] == [] + [l1];
  }

  /** `parse_sse_message_json`. */
  method ParseSseMessageJson(raw: string, parse: Parser) returns (out: seq<Json>)
    ensures out == SseMessages(SplitLines(raw), parse)
  {
    var lines := SplitLines(raw);
    out := [];
    var i := 0;
    while i < |lines|
      invariant 0 <= i <= |lines|
      invariant out == SseMessages(lines[..i], parse)
    {
      assert lines[..i + 1][..i] == lines[..i];
      var line := Strip(lines[i]);
      if StartsWith(line, "data:") {
        var data := Strip(line[5..]);
        if data != [] {
          match parse(data) {
            case Some(obj) =>
              if obj.Obj? {
                out := out + [obj];
              }
            case None =>
          }
        }
      }
      i := i + 1;
    }
    assert lines[..i] == lines;
  }

  // ---------------------------------------------------------------- JSON-RPC

  /** The request object: version, id and method, and the params only when there are some. */
  function Payload(reqId: int, name: string, params: Option<Json>): (r: Json)
    ensures r.Obj?
    ensures Member(r, "jsonrpc") == Some(Str("2.0"))
    ensures Member(r, "id") == Some(Num(reqId as real))
    ensures Member(r, "method") == Some(Str(name))
    ensures Member(r, "params") == params
  {
    var base := [("jsonrpc", Str("2.0")), ("id", Num(reqId as real)), ("method", Str(name))];
    var members := if params.Some? then base + [("params", params.value)] else base;
    assert members[0] == ("jsonrpc", Str("2.0")) && members[1] == ("id", Num(reqId as real)) && members[2] == ("method", Str(name));
    assert Get(members, "id") == Some(Num(reqId as real)) by {
      GetAt(members, "id", 1);
    }
    assert Get(members, "method") == Some(Str(name)) by {
      GetAt(members, "method", 2);
    }
    assert Get(members, "params") == params by {
      GetSkip(members, "params", 3);
    }
    Obj(members)
  }

  /** What `jsonrpc` returns. */
  datatype Reply = Reply(httpStatus: int, body: Json, transport: string, raw: Option<string>)

  /** The first message whose id equals the request's. */
  function MessageWithId(msgs: seq<Json>, reqId: int): (r: Option<Json>)
    ensures r.Some? ==> r.value in msgs && Member(r.value, "id").Some? && EqualsInt(Member(r.value, "id").value, reqId)
    ensures r.None? ==> forall k :: 0 <= k < |msgs| ==> !(Member(msgs[k], "id").Some? && EqualsInt(Member(msgs[k], "id").value, reqId))
  {
    if msgs == [] then None
    else if Member(msgs[0], "id").Some? && EqualsInt(Member(msgs[0], "id").value, reqId) then Some(msgs[0])
    else
      var r := MessageWithId(msgs[1..], reqId);
      assert forall k :: 1 <= k < |msgs| ==> msgs[k] == msgs[1..][k - 1];
      r
  }

  /** The raw text of a reply that came as an event stream. */
  function RawText(body: Json): Option<string> {
    match Member(body, "_raw")
    case Some(Str(raw)) => Some(raw)
    case _ => None
  }

  /**
   * The reply selection of `jsonrpc`: for a stream, the message answering this
   * request, else the first message; with no stream or no message, the body
   * as it came.
   */
  function SelectReply(status: int, body: Json, reqId: int, parse: Parser): (r: Reply)
    ensures r.httpStatus == status
    ensures r.transport == "sse" <==> RawText(body).Some? && SseMessages(SplitLines(RawText(body).value), parse) != []
    ensures r.transport == "json" ==> r.body == body && r.raw.None?
    ensures r.transport == "sse" ==> r.raw == RawText(body) && r.body.Obj?
  {
    match RawText(body)
    case None => Reply(status, body, "json", None)
    case Some(raw) =>
      var msgs := SseMessages(SplitLines(raw), parse);
      match MessageWithId(msgs, reqId)
      case Some(m) => Reply(status, m, "sse", Some(raw))
      case None => if msgs != [] then Reply(status, msgs[0], "sse", Some(raw)) else Reply(status, body, "json", None)
  }

  /** A streamed reply answers with the message carrying the request's id, or the first one when none does. */
  lemma StreamedReplyChoice(status: int, body: Json, reqId: int, parse: Parser)
    requires RawText(body).Some?
    ensures var msgs := SseMessages(SplitLines(RawText(body).value), parse);
      var r := SelectReply(status, body, reqId, parse);
      && (MessageWithId(msgs, reqId).Some? ==> r.body == MessageWithId(msgs, reqId).value)
      && (MessageWithId(msgs, reqId).None? && msgs != [] ==> r.body == msgs[0])
  {
  }

  // ---------------------------------------------------------------- tools

  /** `find_tool`: the first tool with exactly that name. */
  function FindTool(tools: seq<Json>, name: string): (r: Option<Json>)
    requires forall k :: 0 <= k < |tools| ==> tools[k].Obj?
    ensures r.Some? ==> exists k :: (0 <= k < |tools| && tools[k] == r.value &&
      Member(r.value, "name") == Some(Str(name)) && forall j :: 0 <= j < k ==> Member(tools[j], "name") != Some(Str(name)))
    ensures r.None? ==> forall k :: 0 <= k < |tools| ==> Member(tools[k], "name") != Some(Str(name))
  {
    if tools == [] then None
    else if Member(tools[0], "name") == Some(Str(name)) then Some(tools[0])
    else
      var r := FindTool(tools[1..], name);
      if r.Some? then
        var k :| 0 <= k < |tools[1..]| && tools[1..][k] == r.value && Member(r.value, "name") == Some(Str(name)) &&
          forall j :: 0 <= j < k ==> Member(tools[1..][j], "name") != Some(Str(name));
        assert tools[k + 1] == r.value;
        assert forall j :: 1 <= j < k + 1 ==> tools[j] == tools[1..][j - 1];
        r
      else
        assert forall j :: 1 <= j < |tools| ==> tools[j] == tools[1..][j - 1];
        r
  }

  /** `(t.get(field) or "").lower()` reads the field without raising: it is absent, falsy or a string. */
  predicate TextField(t: Json, field: string) {
    Member(t, field).None? || !Truthy(Member(t, field).value) || Member(t, field).value.Str?
  }

  /**
   * A tool the first loop of `pick_search_tool` reads without raising
   * AttributeError: `t.get` needs a dict, and `.lower()` a string.
   */
  predicate ReadableTool(t: Json) {
    t.Obj? && TextField(t, "name") && TextField(t, "description")
  }

  predicate ReadableTools(tools: seq<Json>) {
    forall k :: 0 <= k < |tools| ==> ReadableTool(tools[k])
  }

  /** The field's text, "" when absent or falsy. */
  function FieldText(t: Json, field: string): string {
    match Member(t, field)
    case Some(Str(s)) => s
    case _ => ""
  }

  /** The tool's name as appended to the candidates: `t.get("name")`, null when absent. */
  function NameOf(t: Json): Json {
    MemberOr(t, "name", Null)
  }

  predicate IsSearchTool(t: Json) {
    Contains(Lower(FieldText(t, "name")), "search") || Contains(Lower(FieldText(t, "description")), "search")
  }

  /** The names of the tools whose name or description mentions search, in order. */
  function Candidates(tools: seq<Json>): (r: seq<Json>)
    ensures |r| <= |tools|
  {
    if tools == [] then []
    else Candidates(tools[..|tools| - 1]) + (if IsSearchTool(tools[|tools| - 1]) then [NameOf(tools[|tools| - 1])] else [])
  }

  const Preferences: seq<string> := ["tavily_search", "search", "web_search", "tavily.search"]

  /** The first candidate that is a non-empty name whose lower-cased form is `preferred`. */
  function FirstNamed(cands: seq<Json>, preferred: string): (r: Option<string>)
    ensures r.Some? ==> Str(r.value) in cands && Lower(r.value) == preferred
    ensures r.None? ==> forall k :: 0 <= k < |cands| && cands[k].Str? && cands[k].s != [] ==> Lower(cands[k].s) != preferred
  {
    if cands == [] then None
    else if cands[0].Str? && cands[0].s != [] && Lower(cands[0].s) == preferred then Some(cands[0].s)
    else
      var r := FirstNamed(cands[1..], preferred);
      assert forall k :: 1 <= k < |cands| ==> cands[k] == cands[1..][k - 1];
      r
  }

  /** The first preferred name, taking the preferences from `k` on in order. */
  function Preferred(cands: seq<Json>, k: nat): (r: Option<string>)
    requires k <= |Preferences|
    ensures r.Some? ==> Str(r.value) in cands
    decreases |Preferences| - k
  {
    if k == |Preferences| then None
    else match FirstNamed(cands, Preferences[k])
      case Some(c) => Some(c)
      case None => Preferred(cands, k + 1)
  }

  /**
   * `pick_search_tool`: AttributeError when some tool cannot be read; else a
   * preferred name in order of preference, else the first candidate as the tool
   * gave it (null, or a falsy name, when it has none), else None (null).
   */
  function PickSearchToolSpec(tools: seq<Json>): Result<Json, string> {
    if !ReadableTools(tools) then Err("AttributeError")
    else
      var cands := Candidates(tools);
      match Preferred(cands, 0)
      case Some(c) => Ok(Str(c))
      case None => Ok(if cands != [] then cands[0] else Null)
  }

  /** The first loop of `pick_search_tool`: the candidates, or AttributeError at a tool it cannot read. */
  method CollectCandidates(tools: seq<Json>) returns (r: Result<seq<Json>, string>)
    ensures r.Err? <==> !ReadableTools(tools)
    ensures r.Err? ==> r.error == "AttributeError"
    ensures r.Ok? ==> r.value == Candidates(tools)
  {
    var candidates: seq<Json> := [];
    var i := 0;
    while i < |tools|
      invariant 0 <= i <= |tools|
      invariant forall k :: 0 <= k < i ==> ReadableTool(tools[k])
      invariant candidates == Candidates(tools[..i])
    {
      assert tools[..i + 1][..i] == tools[..i];
      var t := tools[i];
      if !ReadableTool(t) {
        return Err("AttributeError");
      }
      var name := Lower(FieldText(t, "name"));
      var desc := Lower(FieldText(t, "description"));
      if Contains(name, "search") || Contains(desc, "search") {
        candidates := candidates + [NameOf(t)];
      }
      i := i + 1;
    }
    assert tools[..i] == tools;
    r := Ok(candidates);
  }

  /** `pick_search_tool`. */
  method PickSearchTool(tools: seq<Json>) returns (r: Result<Json, string>)
    ensures r == PickSearchToolSpec(tools)
  {
    var collected := CollectCandidates(tools);
    if collected.Err? {
      return Err(collected.error);
    }
    var candidates := collected.value;
    var p := 0;
    while p < |Preferences|
      invariant 0 <= p <= |Preferences|
      invariant Preferred(candidates, 0) == Preferred(candidates, p)
    {
      var j := 0;
      while j < |candidates|
        invariant 0 <= j <= |candidates|
        invariant FirstNamed(candidates, Preferences[p]) == FirstNamed(candidates[j..], Preferences[p])
      {
        var c := candidates[j];
        if c.Str? && c.s != [] && Lower(c.s) == Preferences[p] {
          return Ok(c);
        }
        j := j + 1;
      }
      p := p + 1;
    }
    r := Ok(if candidates != [] then candidates[0] else Null);
  }

  /** A tool whose name is "tavily_search" in any case is always the one picked (the first such). */
  lemma {:induction false} TavilySearchWins(tools: seq<Json>, k: nat)
    requires ReadableTools(tools)
    requires k < |tools| && NameOf(tools[k]).Str? && Lower(NameOf(tools[k]).s) == "tavily_search"
    ensures PickSearchToolSpec(tools).Ok? && PickSearchToolSpec(tools).value.Str?
    ensures Lower(PickSearchToolSpec(tools).value.s) == "tavily_search"
  {
    var t := tools[k];
    var name := NameOf(t).s;
    assert FieldText(t, "name") == name;
    assert OccursAt(Lower(name), "search", 7);
    CandidateOf(tools, k);
    var cands := Candidates(tools);
    var m :| 0 <= m < |cands| && cands[m] == Str(name);
    assert name != [];
    assert FirstNamed(cands, "tavily_search").Some?;
  }

  /** A search tool's name is among the candidates. */
  lemma {:induction false} CandidateOf(tools: seq<Json>, k: nat)
    requires k < |tools| && IsSearchTool(tools[k])
    ensures NameOf(tools[k]) in Candidates(tools)
    decreases |tools|
  {
    var init := tools[..|tools| - 1];
    var last := tools[|tools| - 1];
    var tail := if IsSearchTool(last) then [NameOf(last)] else [];
    var cands := Candidates(init);
    assert Candidates(tools) == cands + tail;
    if k < |tools| - 1 {
      assert init[k] == tools[k];
      CandidateOf(init, k);
      var m :| 0 <= m < |cands| && cands[m] == NameOf(tools[k]);
      assert (cands + tail)[m] == NameOf(tools[k]);
    } else {
      assert (cands + tail)[|cands|] == NameOf(tools[k]);
    }
  }

  /** What is picked from readable tools is a candidate, and None only when there is none. */
  lemma {:induction false} PickedIsCandidate(tools: seq<Json>)
    requires ReadableTools(tools)
    ensures PickSearchToolSpec(tools).Ok?
    ensures Candidates(tools) != [] ==> PickSearchToolSpec(tools).value in Candidates(tools)
    ensures Candidates(tools) == [] ==> PickSearchToolSpec(tools).value == Null
  {
  }

  /** A tool that is not a dict, or whose name or description is truthy but not text, makes the pick raise. */
  lemma UnreadableToolRaises(tools: seq<Json>, k: nat)
    requires k < |tools|
    requires !tools[k].Obj? || (Truthy(NameOf(tools[k])) && !NameOf(tools[k]).Str?)
    ensures PickSearchToolSpec(tools) == Err("AttributeError")
  {
    if tools[k].Obj? {
      assert Member(tools[k], "name") == Some(NameOf(tools[k]));
    }
  }

  // ---------------------------------------------------------------- tool arguments

  type Members = seq<(string, Json)>

  /** The tool's input schema, `{}` when absent or falsy. */
  function Schema(tool: Json): Json {
    match Member(tool, "inputSchema")
    case Some(v) => if Truthy(v) then v else Obj([])
    case None => Obj([])
  }

  /** The schema's properties, `{}` when absent or falsy or when the schema is not an object. */
  function PropsValue(tool: Json): Json {
    var schema := Schema(tool);
    if !schema.Obj? then Obj([])
    else match Member(schema, "properties")
      case Some(v) => if Truthy(v) then v else Obj([])
      case None => Obj([])
  }

  /** The schema's `required` list, empty when it is not a list. */
  function RequiredList(tool: Json): seq<Json> {
    var schema := Schema(tool);
    if !schema.Obj? then []
    else match Member(schema, "required")
      case Some(Arr(items)) => items
      case _ => []
  }

  /** Properties `in` can search; on a number or a boolean `k in props` raises TypeError. */
  predicate Searchable(props: Json) {
    props.Obj? || props.Str? || props.Arr?
  }

  /** Python `key in props` for a string key: a key of a dict, a substring of a string, an element of a list. */
  predicate KeyIn(props: Json, key: string) {
    match props
    case Obj(ms) => HasKey(ms, key)
    case Str(s) => Contains(s, key)
    case Arr(items) => Str(key) in items
    case _ => false
  }

  /**
   * A tool `build_tool_args` reads without raising: a dict whose properties
   * are a dict of dicts (or falsy values), and whose required names are hashable.
   */
  predicate WellFormedTool(tool: Json) {
    && tool.Obj?
    && PropsValue(tool).Obj?
    && (forall k :: 0 <= k < |PropsValue(tool).members| ==>
          PropsValue(tool).members[k].1.Obj? || !Truthy(PropsValue(tool).members[k].1))
    && (forall k :: 0 <= k < |RequiredList(tool)| ==> !RequiredList(tool)[k].Arr? && !RequiredList(tool)[k].Obj?)
  }

  const QueryKeys: seq<string> := ["query", "q", "text", "input"]

  /** The first query key the properties name, from `k` on, else "query". */
  function QueryKey(props: Json, k: nat): (key: string)
    requires k <= |QueryKeys|
    ensures key in QueryKeys
    ensures key == "query" || KeyIn(props, key)
    ensures forall j :: k <= j < |QueryKeys| && KeyIn(props, QueryKeys[j]) ==> KeyIn(props, key)
    decreases |QueryKeys| - k
  {
    if k == |QueryKeys| then "query"
    else if KeyIn(props, QueryKeys[k]) then QueryKeys[k]
    else QueryKey(props, k + 1)
  }

  /** The optional arguments and the values the code gives them, in the order it sets them. */
  const OptionalDefaults: Members := [
    ("max_results", Num(10.0)),
    ("search_depth", Str("advanced")),
    ("include_domains", Arr([Str("down.foodmate.net")])),
    ("include_raw_content", Bool(true))]

  predicate DistinctNames(ms: Members) {
    forall i, j :: 0 <= i < j < |ms| ==> ms[i].0 != ms[j].0
  }

  /** The defaults whose key the properties name, in order. */
  function Present(props: Json, defaults: Members): (r: Members)
    ensures forall k :: 0 <= k < |r| ==> r[k] in defaults && KeyIn(props, r[k].0)
    ensures forall k :: 0 <= k < |defaults| && KeyIn(props, defaults[k].0) ==> defaults[k] in r
  {
    if defaults == [] then []
    else
      var rest := Present(props, defaults[1..]);
      assert forall k :: 1 <= k < |defaults| ==> defaults[k] == defaults[1..][k - 1];
      (if KeyIn(props, defaults[0].0) then [defaults[0]] else []) + rest
  }

  /** Keeping some of a list of distinct names keeps them distinct. */
  lemma {:induction false} PresentDistinct(props: Json, defaults: Members)
    requires DistinctNames(defaults)
    ensures DistinctNames(Present(props, defaults))
  {
    if defaults != [] {
      assert DistinctNames(defaults[1..]) by {
        forall i, j | 0 <= i < j < |defaults[1..]| ensures defaults[1..][i].0 != defaults[1..][j].0 {
          assert defaults[1..][i] == defaults[i + 1] && defaults[1..][j] == defaults[j + 1];
        }
      }
      PresentDistinct(props, defaults[1..]);
      var rest := Present(props, defaults[1..]);
      forall k | 0 <= k < |rest| ensures rest[k].0 != defaults[0].0 {
        var m :| 0 <= m < |defaults[1..]| && defaults[1..][m] == rest[k];
        assert defaults[m + 1] == rest[k];
      }
    }
  }

  /** The optional arguments the properties name, with their values, in order. */
  function Optionals(props: Json): (r: Members)
    ensures forall k :: 0 <= k < |r| ==> r[k] in OptionalDefaults && KeyIn(props, r[k].0)
    ensures forall k :: 0 <= k < |OptionalDefaults| && KeyIn(props, OptionalDefaults[k].0) ==> OptionalDefaults[k] in r
  {
    Present(props, OptionalDefaults)
  }

  /** No optional key is set twice. */
  lemma OptionalsDistinct(props: Json)
    ensures DistinctNames(Optionals(props))
  {
    assert DistinctNames(OptionalDefaults);
    PresentDistinct(props, OptionalDefaults);
  }

  /** The query key is never one of the optional keys. */
  lemma QueryKeyNotOptional(props: Json)
    ensures forall k :: 0 <= k < |Optionals(props)| ==> Optionals(props)[k].0 != QueryKey(props, 0)
  {
    assert forall q, d :: q in QueryKeys && d in OptionalDefaults ==> q != d.0;
  }

  /** The default for a required property by its declared type, or None for any other type. */
  function TypeDefault(t: Option<Json>): Option<Json> {
    match t
    case Some(Str(ty)) =>
      if ty == "string" then Some(Str(""))
      else if ty == "number" || ty == "integer" then Some(Num(0.0))
      else if ty == "boolean" then Some(Bool(false))
      else if ty == "array" then Some(Arr([]))
      else if ty == "object" then Some(Obj([]))
      else None
    case _ => None
  }

  /** `(props[r] or {}).get("type")`: AttributeError when the property's schema is truthy but not a dict. */
  function DeclaredType(schema: Json): Result<Option<Json>, string> {
    if !Truthy(schema) then Ok(None)
    else if schema.Obj? then Ok(Member(schema, "type"))
    else Err("AttributeError")
  }

  /** Python `==` between a hashable decoded value and a list element: numbers and booleans compare by value. */
  predicate ScalarEq(a: Json, b: Json) {
    if (a.Num? || a.Bool?) && (b.Num? || b.Bool?) then NumericValue(a) == NumericValue(b) else a == b
  }

  function NumericValue(v: Json): real
    requires v.Num? || v.Bool?
  {
    if v.Num? then v.n else if v.b then 1.0 else 0.0
  }

  /** The outcome where a list of properties would be indexed by a number (see README, "Left out"). */
  const ListIndexed := "list index"

  /**
   * One required entry `r`: `r not in args` raises TypeError on a list or a
   * dict (unhashable); a name already set is skipped; then `r in props` and
   * `props[r]`, which on a string (or with a non-string `r`) and on a list
   * with anything but a number raise TypeError.
   */
  function AddRequired(props: Json, args: Members, r: Json): Result<Members, string>
    requires Searchable(props)
  {
    if r.Arr? || r.Obj? then Err("TypeError")
    else if r.Str? && r.s in Keys(args) then Ok(args)
    else if props.Obj? then
      if r.Str? && HasKey(props.members, r.s) then
        match DeclaredType(Get(props.members, r.s).value)
        case Err(e) => Err(e)
        case Ok(t) =>
          match TypeDefault(t)
          case Some(d) => Ok(args + [(r.s, d)])
          case None => Ok(args)
      else Ok(args)
    else if props.Str? then
      if !r.Str? || Contains(props.s, r.s) then Err("TypeError") else Ok(args)
    else
      if !exists y :: y in props.items && ScalarEq(r, y) then Ok(args)
      else if r.Num? || r.Bool? then Err(ListIndexed)
      else Err("TypeError")
  }

  /** The required entries in order, stopping at the first that raises. */
  function AddRequireds(props: Json, args: Members, required: seq<Json>): Result<Members, string>
    requires Searchable(props)
  {
    if required == [] then Ok(args)
    else match AddRequireds(props, args, required[..|required| - 1])
      case Err(e) => Err(e)
      case Ok(mid) => AddRequired(props, mid, required[|required| - 1])
  }

  /** `build_tool_args` over searchable properties and the required list. */
  function ArgsFor(props: Json, required: seq<Json>, query: string): Result<Members, string>
    requires Searchable(props)
  {
    AddRequireds(props, [(QueryKey(props, 0), Str(query))] + Optionals(props), required)
  }

  /**
   * `build_tool_args`: AttributeError for a tool that is not a dict, TypeError
   * for properties that are a number or a boolean, else the arguments.
   */
  function ToolArgs(tool: Json, query: string): Result<Members, string> {
    if !tool.Obj? then Err("AttributeError")
    else if !Searchable(PropsValue(tool)) then Err("TypeError")
    else ArgsFor(PropsValue(tool), RequiredList(tool), query)
  }

  /** Required entries only add keys after the ones already set, and never repeat one. */
  lemma {:induction false} AddRequiredsExtends(props: Json, args: Members, required: seq<Json>)
    requires Searchable(props) && DistinctNames(args)
    ensures var r := AddRequireds(props, args, required);
      r.Ok? ==>
        && |r.value| >= |args|
        && r.value[..|args|] == args
        && DistinctNames(r.value)
        && forall k :: |args| <= k < |r.value| ==> KeyIn(props, r.value[k].0) && Str(r.value[k].0) in required
    decreases |required|
  {
    if required != [] {
      var init := required[..|required| - 1];
      AddRequiredsExtends(props, args, init);
      var res := AddRequireds(props, args, init);
      if res.Ok? {
        var mid := res.value;
        var r := AddRequired(props, mid, required[|required| - 1]);
        if r.Ok? && r.value != mid {
          var key := required[|required| - 1].s;
          assert key !in Keys(mid);
          assert forall i :: 0 <= i < |mid| ==> mid[i].0 != key by {
            forall i | 0 <= i < |mid| ensures mid[i].0 != key {
              assert Keys(mid)[i] == mid[i].0;
            }
          }
          assert r.value[..|args|] == mid[..|args|];
        }
        forall k | |args| <= k < |mid| ensures Str(mid[k].0) in required {
          assert Str(mid[k].0) in init;
        }
      }
    }
  }

  /** Once an entry raises, the later ones are not reached: the error stays. */
  lemma {:induction false} RequiredsErrStays(props: Json, args: Members, required: seq<Json>, n: nat)
    requires Searchable(props) && n <= |required| && AddRequireds(props, args, required[..n]).Err?
    ensures AddRequireds(props, args, required) == AddRequireds(props, args, required[..n])
    decreases |required| - n
  {
    if n < |required| {
      assert required[..n + 1][..n] == required[..n];
      RequiredsErrStays(props, args, required, n + 1);
    } else {
      assert required[..n] == required;
    }
  }

  /** A required name that is a list or a dict makes `build_tool_args` raise, unless an earlier entry already did. */
  lemma {:induction false} UnhashableRequiredRaises(props: Json, args: Members, required: seq<Json>, k: nat)
    requires Searchable(props) && k < |required| && (required[k].Arr? || required[k].Obj?)
    ensures AddRequireds(props, args, required).Err?
  {
    assert required[..k + 1][..k] == required[..k];
    assert AddRequireds(props, args, required[..k + 1]).Err?;
    RequiredsErrStays(props, args, required, k + 1);
  }

  /** Dict properties whose values are dicts or falsy, and hashable required names, never raise. */
  lemma {:induction false} RequiredsReadable(props: Json, args: Members, required: seq<Json>)
    requires props.Obj?
    requires forall k :: 0 <= k < |props.members| ==> props.members[k].1.Obj? || !Truthy(props.members[k].1)
    requires forall k :: 0 <= k < |required| ==> !required[k].Arr? && !required[k].Obj?
    ensures AddRequireds(props, args, required).Ok?
    decreases |required|
  {
    if required != [] {
      var init := required[..|required| - 1];
      RequiredsReadable(props, args, init);
      var r := required[|required| - 1];
      if r.Str? && HasKey(props.members, r.s) {
        var v := Get(props.members, r.s).value;
        var i :| 0 <= i < |props.members| && props.members[i] == (r.s, v);
      }
    }
  }

  /** A well-formed tool always gets its arguments, laid out as `ArgsShape` says. */
  lemma WellFormedToolArgs(tool: Json, query: string)
    requires WellFormedTool(tool)
    ensures ToolArgs(tool, query).Ok?
  {
    RequiredsReadable(PropsValue(tool), [(QueryKey(PropsValue(tool), 0), Str(query))] + Optionals(PropsValue(tool)), RequiredList(tool));
  }

  /** The query and the optional arguments have distinct keys. */
  lemma BaseDistinct(props: Json, query: string)
    ensures DistinctNames([(QueryKey(props, 0), Str(query))] + Optionals(props))
  {
    var opts := Optionals(props);
    var base := [(QueryKey(props, 0), Str(query))] + opts;
    OptionalsDistinct(props);
    QueryKeyNotOptional(props);
    forall i, j | 0 <= i < j < |base| ensures base[i].0 != base[j].0 {
      assert base[j] == opts[j - 1];
      if i > 0 {
        assert base[i] == opts[i - 1];
      }
    }
  }

  /**
   * What the arguments hold, when none raises: the query first, under the
   * first query key the properties name; then the optional keys the properties
   * name; then the defaults of required properties; no key twice, so nothing
   * set is overwritten.
   */
  lemma ArgsShape(props: Json, required: seq<Json>, query: string)
    requires Searchable(props)
    ensures var r := ArgsFor(props, required, query);
      r.Ok? ==>
        && |r.value| >= 1 + |Optionals(props)|
        && r.value[0] == (QueryKey(props, 0), Str(query))
        && r.value[1..1 + |Optionals(props)|] == Optionals(props)
        && DistinctNames(r.value)
        && (forall k :: 1 + |Optionals(props)| <= k < |r.value| ==> KeyIn(props, r.value[k].0) && Str(r.value[k].0) in required)
  {
    var base := [(QueryKey(props, 0), Str(query))] + Optionals(props);
    BaseDistinct(props, query);
    assert base[1..] == Optionals(props);
    AddRequiredsExtends(props, base, required);
  }

  /** `build_tool_args`. */
  method BuildToolArgs(tool: Json, query: string) returns (args: Result<Members, string>)
    ensures args == ToolArgs(tool, query)
  {
    if !tool.Obj? {
      return Err("AttributeError");
    }
    var props := PropsValue(tool);
    if !Searchable(props) {
      return Err("TypeError");
    }
    var k := 0;
    while k < |QueryKeys| && !KeyIn(props, QueryKeys[k])
      invariant 0 <= k <= |QueryKeys|
      invariant QueryKey(props, 0) == QueryKey(props, k)
    {
      k := k + 1;
    }
    var queryKey := if k < |QueryKeys| then QueryKeys[k] else "query";
    args := AddDefaults(props, [(queryKey, Str(query))] + Optionals(props), RequiredList(tool));
  }

  /** The loop over the required names of `build_tool_args`. */
  method AddDefaults(props: Json, start: Members, required: seq<Json>) returns (res: Result<Members, string>)
    requires Searchable(props)
    ensures res == AddRequireds(props, start, required)
  {
    var args := start;
    var i := 0;
    while i < |required|
      invariant 0 <= i <= |required|
      invariant AddRequireds(props, start, required[..i]) == Ok(args)
    {
      assert required[..i + 1][..i] == required[..i];
      var r := required[i];
      var step: Result<Members, string> := Ok(args);
      if r.Arr? || r.Obj? {
        step := Err("TypeError");
      } else if !(r.Str? && r.s in Keys(args)) {
        if props.Obj? {
          if r.Str? && HasKey(props.members, r.s) {
            var schema := Get(props.members, r.s).value;
            if Truthy(schema) && !schema.Obj? {
              step := Err("AttributeError");
            } else {
              var t := if Truthy(schema) then Member(schema, "type") else None;
              match TypeDefault(t) {
                case Some(d) => step := Ok(args + [(r.s, d)]);
                case None =>
              }
            }
          }
        } else if props.Str? {
          if !r.Str? || Contains(props.s, r.s) {
            step := Err("TypeError");
          }
        } else if exists y :: y in props.items && ScalarEq(r, y) {
          step := if r.Num? || r.Bool? then Err(ListIndexed) else Err("TypeError");
        }
      }
      assert step == AddRequired(props, args, r);
      if step.Err? {
        RequiredsErrStays(props, start, required, i + 1);
        return step;
      }
      args := step.value;
      i := i + 1;
    }
    assert required[..i] == required;
    res := Ok(args);
  }

  // ---------------------------------------------------------------- connecting

  /** Whether some message carries a result that is not null. */
  predicate AnyResult(msgs: seq<Json>) {
    exists k :: 0 <= k < |msgs| && Member(msgs[k], "result").Some? && !Member(msgs[k], "result").value.Null?
  }

  /**
   * The acceptance rule of `try_direct_jsonrpc`: status 200 and a body with a
   * "result" member, or a streamed body one of whose messages has a non-null result.
   */
  predicate DirectAccepted(status: int, body: Json, parse: Parser) {
    && status == 200
    && body.Obj?
    && (HasKey(body.members, "result")
        || (RawText(body).Some? && AnyResult(SseMessages(SplitLines(RawText(body).value), parse))))
  }

  /** A plain body is accepted with a null result, while a streamed message with a null result does not count. */
  lemma NullResultAsymmetry(parse: Parser, raw: string)
    requires SseMessages(SplitLines(raw), parse) == [Obj([("result", Null)])]
    ensures DirectAccepted(200, Obj([("result", Null)]), parse)
    ensures !DirectAccepted(200, Obj([("_raw", Str(raw))]), parse)
  {
    assert RawText(Obj([("_raw", Str(raw))])) == Some(raw);
    assert Member(Obj([("result", Null)]), "result") == Some(Null);
  }

  /** The initialize request `try_direct_jsonrpc` sends. */
  function InitRequest(): (r: Json)
    ensures Member(r, "id") == Some(Num(1.0)) && Member(r, "method") == Some(Str("initialize"))
    ensures Member(r, "params").Some? && Member(r, "params").value.Obj?
  {
    Payload(1, "initialize", Some(Obj([
      ("protocolVersion", Str("2024-11-05")),
      ("clientInfo", Obj([("name", Str("verifier2-mcp")), ("version", Str("0.1.0"))])),
      ("capabilities", Obj([]))])))
  }
}
