/**
 * The documentation fetcher for the Context7 tool server
 * (`backend/fetchers/context7_fetcher.py`): it picks the tools it needs from
 * those the server lists, resolves a library id when it can, asks for the
 * library's documentation (or searches for it), and normalises each returned
 * item to a title, a url and a text. The server session is given as a value
 * (the tool list, or none when connecting fails, and a call function), and
 * JSON decoding as a parse function; values keep Python's truthiness and
 * `or`.
 */
module Context7 {
  import opened Wrappers
  import opened Strings

  /** A decoded JSON value. Numbers are integers here; the fetcher only tests them for truthiness. */
  datatype Json =
    | JNull
    | JBool(b: bool)
    | JNum(n: int)
    | JStr(s: string)
    | JList(items: seq<Json>)
    | JObject(fields: map<string, Json>)

  /** Python truthiness: `None`, `False`, `0`, `""`, `[]` and `{}` are false. */
  predicate Truthy(v: Json) {
    match v
    case JNull => false
    case JBool(b) => b
    case JNum(n) => n != 0
    case JStr(s) => s != []
    case JList(items) => items != []
    case JObject(fields) => fields != map[]
  }

  /** Python's `a or b`: the first operand when it is truthy, else the second. */
  function Or(a: Json, b: Json): (r: Json)
    ensures Truthy(r) <==> Truthy(a) || Truthy(b)
    ensures Truthy(a) ==> r == a
    ensures !Truthy(a) ==> r == b
  {
    if Truthy(a) then a else b
  }

  /** `d.get(key)`: `None` for a missing key. */
  function Get(m: map<string, Json>, key: string): Json {
    if key in m then m[key] else JNull
  }

  type Args = map<string, Json>

  /** An item of a tool result: one with a `text` attribute (possibly `None`), or another object shown by `str`. */
  datatype ContentItem = TextItem(text: Option<string>) | OtherItem(shown: string)

  /** The server session: its tools (none when connecting or listing fails), its tool calls, and JSON decoding. */
  datatype Session = Session(
    tools: Option<seq<string>>,
    call: (string, Args) -> Result<seq<ContentItem>>,
    parse: string -> Option<Json>)

  /** The fetcher's settings, read once from the environment. */
  datatype Config = Config(url: string, library: string, version: Option<string>, limit: int)

  /** A normalised documentation record. */
  datatype Doc = Doc(title: Json, url: Json, text: Json)

  const ResolveTools: seq<string> :=
    ["resolve-library-id", "resolveLibraryId", "context7.resolveLibraryId", "search-library", "searchLibrary"]
  const DocsTools: seq<string> :=
    ["get-library-docs", "getLibraryDocs", "context7.getLibraryDocs", "library-docs", "docs", "fetchDocs"]
  const SearchTools: seq<string> := ["search", "searchDocs", "context7.search"]

  const MissingUrl: string := "CONTEXT7_MCP_URL is missing. Put it in backend/.env or export it."
  const NoTools: string := "No suitable docs/search tools found."

  // ------------------------------------------------------------ tool choice

  /** The first candidate, in candidate order, that the server offers. */
  function FirstIn(available: seq<string>, candidates: seq<string>): (r: Option<string>)
    ensures r.None? <==> forall i :: 0 <= i < |candidates| ==> candidates[i] !in available
    ensures r.Some? ==> exists i :: 0 <= i < |candidates| && candidates[i] == r.value && r.value in available &&
                          forall j :: 0 <= j < i ==> candidates[j] !in available
  {
    if candidates == [] then None
    else if candidates[0] in available then Some(candidates[0])
    else
      var r := FirstIn(available, candidates[1..]);
      assert forall i :: 1 <= i < |candidates| ==> candidates[i] == candidates[1..][i - 1];
      assert r.Some? ==> exists i :: 1 <= i < |candidates| && candidates[i] == r.value && r.value in available &&
                            forall j :: 0 <= j < i ==> candidates[j] !in available by {
        if r.Some? {
          var i :| 0 <= i < |candidates[1..]| && candidates[1..][i] == r.value && r.value in available &&
                   forall j :: 0 <= j < i ==> candidates[1..][j] !in available;
          assert candidates[i + 1] == r.value;
          assert forall j :: 1 <= j < i + 1 ==> candidates[j] == candidates[1..][j - 1];
        }
      }
      r
  }

  /** `_choose(available, candidates)`: scan the candidates and return the first one offered. */
  method Choose(available: seq<string>, candidates: seq<string>) returns (r: Option<string>)
    ensures r == FirstIn(available, candidates)
  {
    for i := 0 to |candidates|
      invariant FirstIn(available, candidates[i..]) == FirstIn(available, candidates)
    {
      assert candidates[i..][0] == candidates[i] && candidates[i..][1..] == candidates[i + 1..];
      if candidates[i] in available {
        return Some(candidates[i]);
      }
    }
    assert candidates[|candidates|..] == [];
    return None;
  }

  // ----------------------------------------------------------- library id

  /** `_get_text(item)`. */
  function GetText(item: ContentItem): Option<string> {
    match item
    case TextItem(t) => t
    case OtherItem(shown) => Some(shown)
  }

  /** `_maybe_json(text)`: the decoded value, or `None` when there is no text or it does not decode. */
  function MaybeJson(parse: string -> Option<Json>, text: Option<string>): Json {
    match text
    case None => JNull
    case Some(s) => match parse(s) case None => JNull case Some(v) => v
  }

  /** `payload.get("libraryId") or payload.get("library_id") or payload.get("id")`. */
  function LibIdOf(m: map<string, Json>): (id: Json)
    ensures Truthy(id) <==> Truthy(Get(m, "libraryId")) || Truthy(Get(m, "library_id")) || Truthy(Get(m, "id"))
  {
    Or(Or(Get(m, "libraryId"), Get(m, "library_id")), Get(m, "id"))
  }

  /** `libraryId` wins over `library_id`, which wins over `id`; each only when truthy. */
  lemma LibIdPrecedence(m: map<string, Json>)
    ensures Truthy(Get(m, "libraryId")) ==> LibIdOf(m) == Get(m, "libraryId")
    ensures !Truthy(Get(m, "libraryId")) && Truthy(Get(m, "library_id")) ==> LibIdOf(m) == Get(m, "library_id")
    ensures !Truthy(Get(m, "libraryId")) && !Truthy(Get(m, "library_id")) ==> LibIdOf(m) == Get(m, "id")
  {
  }

  /** `if version:` holds. */
  predicate HasVersion(version: Option<string>) {
    version.Some? && version.value != []
  }

  /** Add `version` to the arguments when the version is truthy. */
  function WithVersion(args: Args, version: Option<string>): Args {
    if HasVersion(version) then args["version" := JStr(version.value)] else args
  }

  function ResolveArgs(library: string, version: Option<string>): Args {
    WithVersion(map["name" := JStr(library)], version)
  }

  function RetryResolveArgs(library: string, version: Option<string>): Args {
    WithVersion(map["libraryName" := JStr(library)], version)
  }

  /**
   * One resolve call inside its `try`: the call may raise, and so does
   * `payload.get` when the decoded payload is truthy but not an object. An
   * empty result leaves the id unset, and a falsy payload reads as `{}`.
   */
  function ResolveAttempt(session: Session, tool: string, args: Args): Result<Json> {
    match session.call(tool, args)
    case Failure(e) => Failure(e)
    case Success(content) =>
      if content == [] then Success(JNull)
      else
        var decoded := MaybeJson(session.parse, GetText(content[0]));
        var payload := Or(decoded, JObject(map[]));
        if payload.JObject? then Success(LibIdOf(payload.fields))
        else Failure("payload has no attribute 'get'")
  }

  /** A payload that decodes to a truthy non-object makes the attempt fail, so the fetcher retries. */
  lemma NonObjectPayloadFails(session: Session, tool: string, args: Args)
    requires session.call(tool, args).Success? && session.call(tool, args).value != []
    requires var v := MaybeJson(session.parse, GetText(session.call(tool, args).value[0]));
      Truthy(v) && !v.JObject?
    ensures ResolveAttempt(session, tool, args).Failure?
  {
  }

  /** A payload that decodes to nothing truthy resolves no id, and no attempt fails for that reason. */
  lemma FalsyPayloadResolvesNothing(session: Session, tool: string, args: Args)
    requires session.call(tool, args).Success? && session.call(tool, args).value != []
    requires !Truthy(MaybeJson(session.parse, GetText(session.call(tool, args).value[0])))
    ensures ResolveAttempt(session, tool, args) == Success(JNull)
  {
    assert LibIdOf(map[]) == JNull;
  }

  /** The library id: from the resolve tool's first attempt, else from its retry with `libraryName`, else unset. */
  function ResolveLibId(session: Session, tool: Option<string>, library: string, version: Option<string>): Json {
    if tool.None? then JNull
    else match ResolveAttempt(session, tool.value, ResolveArgs(library, version))
      case Success(id) => id
      case Failure(_) =>
        match ResolveAttempt(session, tool.value, RetryResolveArgs(library, version))
        case Success(id) => id
        case Failure(_) => JNull
  }

  // ------------------------------------------------------------ docs call

  /** The docs tool's arguments: the id and the limit when an id was resolved, else the name, the limit and any version. */
  function DocsArgs(libId: Json, library: string, version: Option<string>, limit: int): (args: Args)
    ensures Truthy(libId) ==> args == map["libraryId" := libId, "limit" := JNum(limit)]
    ensures !Truthy(libId) ==>
      ("name" in args && args["name"] == JStr(library) && "limit" in args && args["limit"] == JNum(limit) &&
       ("version" in args <==> HasVersion(version)) &&
       (HasVersion(version) ==> args["version"] == JStr(version.value)) &&
       "libraryId" !in args)
  {
    if Truthy(libId) then map["libraryId" := libId, "limit" := JNum(limit)]
    else WithVersion(map["name" := JStr(library), "limit" := JNum(limit)], version)
  }

  /** The arguments of the second docs call: the id under `library_id` when there is one, else the same as before. */
  function DocsRetryArgs(libId: Json, limit: int, args: Args): (r: Args)
    ensures Truthy(libId) ==> r == map["library_id" := libId, "limit" := JNum(limit)]
    ensures !Truthy(libId) ==> r == args
  {
    if Truthy(libId) then map["library_id" := libId, "limit" := JNum(limit)] else args
  }

  /** `f"{library} {version or ''}".strip()`. */
  function SearchQuery(library: string, version: Option<string>): string {
    Trim(library + " " + (if HasVersion(version) then version.value else ""))
  }

  /** Without a version the search query is just the trimmed library name. */
  lemma SearchQueryWithoutVersion(library: string, version: Option<string>)
    requires !HasVersion(version)
    ensures SearchQuery(library, version) == Trim(library)
  {
    assert library + " " + "" == library + [' '];
    TrimAppendSpace(library, ' ');
  }

  /** The documentation call: the docs tool (tried twice), else the search tool, else a failure. */
  function DocsCall(session: Session, docsTool: Option<string>, searchTool: Option<string>, libId: Json,
                    library: string, version: Option<string>, limit: int): Result<seq<ContentItem>>
  {
    if docsTool.Some? then
      var args := DocsArgs(libId, library, version, limit);
      match session.call(docsTool.value, args)
      case Success(content) => Success(content)
      case Failure(_) => session.call(docsTool.value, DocsRetryArgs(libId, limit, args))
    else if searchTool.Some? then
      session.call(searchTool.value, map["query" := JStr(SearchQuery(library, version)), "limit" := JNum(limit)])
    else
      Failure(NoTools)
  }

  // --------------------------------------------------------- normalisation

  /** `_get_text(item) or ""`. */
  function Blob(item: ContentItem): string {
    match GetText(item) case None => "" case Some(s) => s
  }

  /** One item as a record: the fields of a decoded object with their fallbacks, or the raw text. */
  function NormalizeItem(parse: string -> Option<Json>, item: ContentItem): Doc {
    var blob := Blob(item);
    var parsed := MaybeJson(parse, Some(blob));
    if parsed.JObject? then
      var m := parsed.fields;
      Doc(Or(Get(m, "title"), Or(Get(m, "name"), JStr(""))),
          Or(Get(m, "url"), Or(Get(m, "source"), JStr(""))),
          Or(Get(m, "content"), Or(Get(m, "text"), JStr(blob))))
    else
      Doc(JStr(""), JStr(""), JStr(blob))
  }

  /**
   * Title and url are truthy or the empty string; for an item that is not a
   * JSON object they are empty and the text is the raw text; the text is
   * truthy whenever the raw text is not empty.
   */
  lemma NormalizeItemFields(parse: string -> Option<Json>, item: ContentItem)
    ensures var d := NormalizeItem(parse, item);
      && (Truthy(d.title) || d.title == JStr(""))
      && (Truthy(d.url) || d.url == JStr(""))
      && (Truthy(d.text) || d.text == JStr(""))
      && (Blob(item) != [] ==> Truthy(d.text))
    ensures !MaybeJson(parse, Some(Blob(item))).JObject? ==>
      NormalizeItem(parse, item) == Doc(JStr(""), JStr(""), JStr(Blob(item)))
  {
  }

  function NormalizeAll(parse: string -> Option<Json>, items: seq<ContentItem>): (docs: seq<Doc>)
    ensures |docs| == |items| && forall k :: 0 <= k < |items| ==> docs[k] == NormalizeItem(parse, items[k])
  {
    seq(|items|, k requires 0 <= k < |items| => NormalizeItem(parse, items[k]))
  }

  /** The normalisation loop: one record per item, appended in order. */
  method Normalize(parse: string -> Option<Json>, items: seq<ContentItem>) returns (out: seq<Doc>)
    ensures out == NormalizeAll(parse, items)
  {
    out := [];
    for k := 0 to |items|
      invariant out == NormalizeAll(parse, items[..k])
    {
      assert items[..k + 1][..k] == items[..k];
      out := out + [NormalizeItem(parse, items[k])];
    }
    assert items[..|items|] == items;
  }

  // ------------------------------------------------------------------ fetch

  /**
   * `_fetch_async(library, version, limit)`: a blank url raises before
   * anything else; every failure inside the session, including a server
   * without a docs or search tool, gives no records.
   */
  function Fetch(url: string, library: string, version: Option<string>, limit: int, session: Session): Result<seq<Doc>> {
    if url == [] then Failure(MissingUrl)
    else match session.tools
      case None => Success([])
      case Some(available) =>
        var libId := ResolveLibId(session, FirstIn(available, ResolveTools), library, version);
        match DocsCall(session, FirstIn(available, DocsTools), FirstIn(available, SearchTools), libId, library, version, limit)
        case Failure(_) => Success([])
        case Success(items) => Success(NormalizeAll(session.parse, items))
  }

  /**
   * Only a missing url raises. A session that cannot connect, or that offers
   * neither a docs nor a search tool, returns no records.
   */
  lemma FetchFailures(url: string, library: string, version: Option<string>, limit: int, session: Session)
    ensures Fetch(url, library, version, limit, session).Failure? <==> url == []
    ensures url == [] ==> Fetch(url, library, version, limit, session) == Failure(MissingUrl)
    ensures url != [] && session.tools.None? ==> Fetch(url, library, version, limit, session) == Success([])
    ensures (url != [] && session.tools.Some? &&
             (forall i :: 0 <= i < |DocsTools| ==> DocsTools[i] !in session.tools.value) &&
             (forall i :: 0 <= i < |SearchTools| ==> SearchTools[i] !in session.tools.value)) ==>
      Fetch(url, library, version, limit, session) == Success([])
  {
  }

  /** A successful docs or search call is normalised item by item, in order. */
  lemma FetchNormalises(url: string, library: string, version: Option<string>, limit: int, session: Session)
    requires url != [] && session.tools.Some?
    ensures var available := session.tools.value;
      var libId := ResolveLibId(session, FirstIn(available, ResolveTools), library, version);
      var res := DocsCall(session, FirstIn(available, DocsTools), FirstIn(available, SearchTools), libId, library, version, limit);
      res.Success? ==>
        (Fetch(url, library, version, limit, session).Success? &&
         |Fetch(url, library, version, limit, session).value| == |res.value| &&
         forall k :: 0 <= k < |res.value| ==>
           Fetch(url, library, version, limit, session).value[k] == NormalizeItem(session.parse, res.value[k]))
  {
  }

  /** `_fetch_async` as the sequence of steps it takes. */
  method FetchAsync(url: string, library: string, version: Option<string>, limit: int, session: Session)
    returns (docs: Result<seq<Doc>>)
    ensures docs == Fetch(url, library, version, limit, session)
  {
    if url == [] {
      return Failure(MissingUrl);
    }
    if session.tools.None? {
      return Success([]);
    }
    var available := session.tools.value;
    var resolveTool := Choose(available, ResolveTools);
    var docsTool := Choose(available, DocsTools);
    var searchTool := Choose(available, SearchTools);
    var libId := ResolveLibId(session, resolveTool, library, version);
    var res := DocsCall(session, docsTool, searchTool, libId, library, version, limit);
    if res.Failure? {
      return Success([]);
    }
    var out := Normalize(session.parse, res.value);
    return Success(out);
  }

  // -------------------------------------------------------------- defaults

  /** The environment's settings: url and library trimmed, a blank version unset, the limit parsed (which may raise). */
  function ConfigFromEnv(getenv: string -> Option<string>, parseInt: string -> Option<int>): Result<Config> {
    var url := Trim(getenv("CONTEXT7_MCP_URL").GetOr(""));
    var library := Trim(getenv("CONTEXT7_LIBRARY").GetOr("react"));
    var rawVersion := getenv("CONTEXT7_VERSION");
    var version := Trim(if rawVersion.Some? && rawVersion.value != [] then rawVersion.value else "");
    var rawLimit := getenv("CONTEXT7_RESULTS_LIMIT").GetOr("10");
    match parseInt(if rawLimit == [] then "10" else rawLimit)
    case None => Failure("invalid literal for int()")
    case Some(limit) => Success(Config(url, library, if version == [] then None else Some(version), limit))
  }

  /** The settings of an empty environment: no url, the library `react`, no version, the limit 10. */
  lemma EmptyEnvDefaults(getenv: string -> Option<string>, parseInt: string -> Option<int>)
    requires getenv("CONTEXT7_MCP_URL") == None && getenv("CONTEXT7_LIBRARY") == None
    requires getenv("CONTEXT7_VERSION") == None && getenv("CONTEXT7_RESULTS_LIMIT") == None
    requires parseInt("10") == Some(10)
    ensures ConfigFromEnv(getenv, parseInt) == Success(Config("", "react", None, 10))
  {
    TrimUnchanged("");
    TrimUnchanged("react");
  }

  /** A version setting of only whitespace counts as no version. */
  lemma BlankVersionIsUnset(getenv: string -> Option<string>, parseInt: string -> Option<int>)
    requires getenv("CONTEXT7_VERSION").Some?
    requires forall k :: 0 <= k < |getenv("CONTEXT7_VERSION").value| ==> IsWhitespace(getenv("CONTEXT7_VERSION").value[k])
    requires ConfigFromEnv(getenv, parseInt).Success?
    ensures ConfigFromEnv(getenv, parseInt).value.version == None
  {
    TrimShape(getenv("CONTEXT7_VERSION").value);
    TrimShape("");
  }

  /** `fetch_context7_docs`: a falsy library or limit takes the setting, a `None` version takes the setting. */
  function FetchDocs(cfg: Config, library: Option<string>, version: Option<string>, limit: Option<int>, session: Session): Result<seq<Doc>> {
    var lib := if library.Some? && library.value != [] then library.value else cfg.library;
    var ver := if version.Some? then version else cfg.version;
    var lim := if limit.Some? && limit.value != 0 then limit.value else cfg.limit;
    Fetch(cfg.url, lib, ver, lim, session)
  }

  /**
   * The defaults: an empty library name and a zero limit are replaced like
   * absent ones, but an explicit empty version is kept, so it overrides a
   * configured version and the fetch runs without one.
   */
  lemma FetchDocsDefaults(cfg: Config, session: Session)
    ensures FetchDocs(cfg, None, None, None, session) == Fetch(cfg.url, cfg.library, cfg.version, cfg.limit, session)
    ensures forall version, limit :: FetchDocs(cfg, Some(""), version, limit, session) == FetchDocs(cfg, None, version, limit, session)
    ensures forall library, version :: FetchDocs(cfg, library, version, Some(0), session) == FetchDocs(cfg, library, version, None, session)
    ensures forall library, limit ::
      (FetchDocs(cfg, library, Some(""), limit, session) == FetchDocs(cfg.(version := None), library, None, limit, session))
  {
    forall library: Option<string>, limit: Option<int>
      ensures FetchDocs(cfg, library, Some(""), limit, session) == FetchDocs(cfg.(version := None), library, None, limit, session)
    {
      var lib := if library.Some? && library.value != [] then library.value else cfg.library;
      var lim := if limit.Some? && limit.value != 0 then limit.value else cfg.limit;
      FetchWithoutVersion(cfg.url, lib, lim, session);
    }
  }

  /** An empty version and an absent one fetch the same way: neither is sent and neither enters the search query. */
  lemma FetchWithoutVersion(url: string, library: string, limit: int, session: Session)
    ensures Fetch(url, library, Some(""), limit, session) == Fetch(url, library, None, limit, session)
  {
    if url != [] && session.tools.Some? {
      var available := session.tools.value;
      var tool := FirstIn(available, ResolveTools);
      ResolveWithoutVersion(session, tool, library);
      var libId := ResolveLibId(session, tool, library, None);
      DocsCallWithoutVersion(session, FirstIn(available, DocsTools), FirstIn(available, SearchTools), libId, library, limit);
    }
  }

  lemma ResolveWithoutVersion(session: Session, tool: Option<string>, library: string)
    ensures ResolveLibId(session, tool, library, Some("")) == ResolveLibId(session, tool, library, None)
  {
    assert ResolveArgs(library, Some("")) == ResolveArgs(library, None);
    assert RetryResolveArgs(library, Some("")) == RetryResolveArgs(library, None);
  }

  lemma DocsCallWithoutVersion(session: Session, docsTool: Option<string>, searchTool: Option<string>, libId: Json,
                               library: string, limit: int)
    ensures DocsCall(session, docsTool, searchTool, libId, library, Some(""), limit) ==
            DocsCall(session, docsTool, searchTool, libId, library, None, limit)
  {
    assert DocsArgs(libId, library, Some(""), limit) == DocsArgs(libId, library, None, limit);
    assert SearchQuery(library, Some("")) == SearchQuery(library, None);
  }
}
