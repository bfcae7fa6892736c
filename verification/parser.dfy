/**
 * The newer parser's entry points: `parseTextContent`, which decides whether a text is JSON,
 * `parseJson`, which classifies an already parsed value as a project file, a legacy script or a
 * chat array, and the serialisation and file name of `saveProjectToFile`.
 *
 * `JSON.parse` is not modelled: its outcome on the text is a parameter, `None` standing for a
 * syntax error. The current time that stands in for a missing script id is a parameter too.
 */
module Parser {
  import opened Outcomes
  import opened JsText
  import opened JsonValue
  import opened JsMap
  import opened CodeBlocks
  import opened ChatText
  import opened ChatAnalysis

  /** The one error every failure inside `parseJson` surfaces as. */
  const JsonFailure := "Failed to parse JSON file. Please ensure it is a valid chat log, podcast project, or script file."

  /** The script of a legacy script-only file. */
  datatype ScriptRecord = ScriptRecord(id: Json, title: string, hook: string, segments: seq<Json>)

  /** A project configuration after loading: its own fields, and the voice mapping as a Map. */
  datatype Config = Config(fields: map<string, Json>, voiceMapping: seq<Entry>)

  datatype ProcessedFile =
    | Chat(messages: seq<ChatMessage>)
    | LegacyScript(legacy: ScriptRecord, scriptAnalysis: AnalysisResult)
    | ScriptProject(script: Json, config: Config, analysis: Json)

  /** Check 1: version `1.0` or `1.1`, with a truthy script, configuration and analysis. */
  predicate IsProjectFile(data: Json) {
    && (Field(data, "version") == Some(JString("1.0")) || Field(data, "version") == Some(JString("1.1")))
    && TruthyRead(Field(data, "generatedScript"))
    && TruthyRead(Field(data, "podcastConfig"))
    && TruthyRead(Field(data, "analysisResult"))
  }

  predicate IsStringField(data: Json, key: string) {
    Field(data, key).Some? && Field(data, key).value.JString?
  }

  /** Check 2: string `title` and `hook`, and an array of `segments`. */
  predicate IsLegacyScript(data: Json) {
    IsStringField(data, "title") && IsStringField(data, "hook")
    && Field(data, "segments").Some? && Field(data, "segments").value.JArray?
  }

  /**
   * `item.role || 'unknown'`; a truthy role that is not a string is kept as its text, and as
   * `[object Object]` where `String` would throw on it (the code itself never converts a role).
   */
  function RoleOf(item: Json): string {
    var r := Field(item, "role");
    if TruthyRead(r) then (if r.value.JString? then r.value.s else ToJsString(r.value).GetOr("[object Object]"))
    else "unknown"
  }

  /** `item.content || ''`. */
  function ContentOf(item: Json): (content: Json)
    ensures Truthy(content) || content == JString("")
  {
    var c := Field(item, "content");
    if TruthyRead(c) then c.value else JString("")
  }

  /** The messages of a chat array; reading a property of a `null` item throws. */
  function Items(items: seq<Json>): (r: Result<seq<RawMessage>>)
    ensures r.Ok? <==> forall k :: 0 <= k < |items| ==> !items[k].JNull?
    ensures r.Err? ==> r.message == JsonFailure
    ensures r.Ok? ==> |r.value| == |items|
    ensures r.Ok? ==> forall k :: 0 <= k < |items| ==> r.value[k] == RawMessage(RoleOf(items[k]), ContentOf(items[k]))
  {
    if |items| == 0 then Ok([])
    else if items[0].JNull? then Err(JsonFailure)
    else
      match Items(items[1..])
      case Err(e) => Err(e)
      case Ok(rest) =>
        assert forall k :: 1 <= k < |items| ==> items[k] == items[1..][k - 1];
        Ok([RawMessage(RoleOf(items[0]), ContentOf(items[0]))] + rest)
  }

  /** The loaded form of a project file that passed check 1. */
  function LoadProject(data: Json): (r: Result<ProcessedFile>)
    requires IsProjectFile(data)
    ensures r.Ok? <==> FromIterable(Field(Field(data, "podcastConfig").value, "voiceMapping")).Ok?
    ensures r.Ok? ==> r.value.ScriptProject? && "voiceMapping" !in r.value.config.fields
    ensures r.Ok? ==>
      && Field(data, "generatedScript") == Some(r.value.script)
      && Field(data, "analysisResult") == Some(r.value.analysis)
      && r.value.config.fields == Spread(Field(data, "podcastConfig").value) - {"voiceMapping"}
    ensures r.Ok? ==> DistinctKeys(r.value.config.voiceMapping)
    ensures r.Err? ==> r.message == JsonFailure
  {
    var pc := Field(data, "podcastConfig").value;
    match FromIterable(Field(pc, "voiceMapping"))
    case Err(_) => Err(JsonFailure)
    case Ok(m) =>
      Ok(ScriptProject(
        Field(data, "generatedScript").value,
        Config(Spread(pc) - {"voiceMapping"}, m),
        Field(data, "analysisResult").value))
  }

  /**
   * `parseJson`: a project file, else a legacy script, else a chat array, else the one error.
   * `parsed` is what `JSON.parse` gave, `now` the time stamp for a legacy script without an id.
   */
  function ParseJson(parsed: Option<Json>, now: string): (r: Result<ProcessedFile>)
    ensures r.Err? ==> r.message == JsonFailure
    ensures r.Ok? ==> parsed.Some? && !parsed.value.JNull?
    ensures r.Ok? && r.value.ScriptProject? ==> IsProjectFile(parsed.value)
    ensures r.Ok? && r.value.LegacyScript? ==> !IsProjectFile(parsed.value) && IsLegacyScript(parsed.value)
    ensures r.Ok? && r.value.Chat? ==>
      !IsProjectFile(parsed.value) && !IsLegacyScript(parsed.value) && parsed.value.JArray?
    ensures parsed.None? || parsed.value.JNull? ==> r == Err(JsonFailure)
    ensures parsed.Some? && IsProjectFile(parsed.value) ==> r == LoadProject(parsed.value)
    ensures parsed.Some? && !IsProjectFile(parsed.value) && IsLegacyScript(parsed.value) ==>
      r == Ok(LegacyScript(LegacyRecord(parsed.value, now), AnalyzeScript(None)))
    ensures parsed.Some? && parsed.value.JArray? ==>
      (r.Ok? <==> Items(parsed.value.elems).Ok? && AllPrintable(Items(parsed.value.elems).value))
    ensures r.Ok? && r.value.Chat? ==>
      Items(parsed.value.elems).Ok? && AllPrintable(Items(parsed.value.elems).value)
      && r.value.messages == ProcessCodeBlocks(Items(parsed.value.elems).value)
    ensures parsed.Some? && !parsed.value.JArray? && !IsProjectFile(parsed.value) && !IsLegacyScript(parsed.value) ==>
      r == Err(JsonFailure)
  {
    match parsed
    case None => Err(JsonFailure)
    case Some(data) =>
      if data.JNull? then Err(JsonFailure)
      else if IsProjectFile(data) then LoadProject(data)
      else if IsLegacyScript(data) then Ok(LegacyScript(LegacyRecord(data, now), AnalyzeScript(None)))
      else
        match data
        case JArray(elems) =>
          (match Items(elems)
           case Err(e) => Err(e)
           case Ok(ms) =>
             (match ProcessCodeBlocksChecked(ms)
              case Ok(out) => Ok(Chat(out))
              case Err(_) => Err(JsonFailure)))
        case _ => Err(JsonFailure)
  }

  /** The script of a value that passed check 2, its id defaulting to `now`. */
  function LegacyRecord(data: Json, now: string): (s: ScriptRecord)
    requires IsLegacyScript(data)
    ensures Field(data, "title") == Some(JString(s.title)) && Field(data, "hook") == Some(JString(s.hook))
    ensures Field(data, "segments") == Some(JArray(s.segments))
    ensures TruthyRead(Field(data, "id")) ==> Some(s.id) == Field(data, "id")
    ensures !TruthyRead(Field(data, "id")) ==> s.id == JString(now)
  {
    var id := if TruthyRead(Field(data, "id")) then Field(data, "id").value else JString(now);
    ScriptRecord(id, Field(data, "title").value.s, Field(data, "hook").value.s, Field(data, "segments").value.elems)
  }

  /** The text looks like JSON to the newer parser: after trimming it opens an object or array. */
  predicate LooksLikeJson(content: string) {
    StartsWith(Trim(content), "{") || StartsWith(Trim(content), "[")
  }

  /** `parseTextContent(content, typeHint)`, where `jsonHint` is `typeHint === 'json'`. */
  function ParseTextContent(content: string, jsonHint: bool, parsed: Option<Json>, now: string): ProcessedFile {
    if jsonHint || LooksLikeJson(content) then
      match ParseJson(parsed, now)
      case Ok(f) => f
      case Err(_) => Chat(ParseTxt(content))
    else Chat(ParseTxt(content))
  }

  // ---------------------------------------------------------------------------
  // properties of the parsers

  /** Without the hint and without a leading brace or bracket, JSON is not consulted at all. */
  lemma NoJsonWithoutCue(content: string, p1: Option<Json>, p2: Option<Json>, now: string)
    requires !LooksLikeJson(content)
    ensures ParseTextContent(content, false, p1, now) == ParseTextContent(content, false, p2, now)
    ensures ParseTextContent(content, false, p1, now).Chat?
  {
  }

  /** A JSON syntax error falls back to the text parser. */
  lemma SyntaxErrorFallsBack(content: string, jsonHint: bool, now: string)
    ensures ParseTextContent(content, jsonHint, None, now) == Chat(ParseTxt(content))
  {
  }

  /** A `null` item anywhere in a chat array makes the whole file fail. */
  lemma NullItemFails(items: seq<Json>, k: nat, now: string)
    requires k < |items| && items[k].JNull?
    ensures ParseJson(Some(JArray(items)), now) == Err(JsonFailure)
  {
  }

  /** An item without role or content becomes an `unknown` message with empty content, which yields nothing. */
  lemma EmptyItemVanishes(now: string)
    ensures ParseJson(Some(JArray([JObject(map[])])), now) == Ok(Chat([]))
  {
    var m := RawMessage("unknown", JString(""));
    assert [JObject(map[])][1..] == [];
    assert Field(JObject(map[]), "role") == None && Field(JObject(map[]), "content") == None;
    assert RoleOf(JObject(map[])) == "unknown" && ContentOf(JObject(map[])) == JString("");
    var items := [JObject(map[])];
    assert !items[0].JNull?;
    var r := Items(items);
    assert r.Ok? && |r.value| == 1 && r.value[0] == m;
    assert r.value == [m];
    NoFence("unknown", "");
    ProcessSingle(m);
  }

  /**
   * A chat array of objects is cut at code fences message by message, unless `String` throws on
   * a content, which fails the file.
   */
  lemma ChatArray(items: seq<Json>, now: string)
    requires forall k :: 0 <= k < |items| ==> items[k].JObject?
    ensures var ms := seq(|items|, k requires 0 <= k < |items| => RawMessage(RoleOf(items[k]), ContentOf(items[k])));
      ParseJson(Some(JArray(items)), now)
        == if AllPrintable(ms) then Ok(Chat(ProcessCodeBlocks(ms))) else Err(JsonFailure)
  {
    var ms := seq(|items|, k requires 0 <= k < |items| => RawMessage(RoleOf(items[k]), ContentOf(items[k])));
    assert forall k :: 0 <= k < |items| ==> !items[k].JNull?;
    var r := Items(items);
    assert r.Ok?;
    assert r.value == ms;
  }

  /**
   * `String` throws on a content object with its own `toString`: the chat array fails as a
   * whole, and `parseTextContent` falls back to the text parser.
   */
  lemma ToStringContentFails(content: string, jsonHint: bool, now: string)
    requires jsonHint || LooksLikeJson(content)
    ensures var item := JObject(map["role" := JString("user"), "content" := JObject(map["toString" := JNumber(0)])]);
      && ParseJson(Some(JArray([item])), now) == Err(JsonFailure)
      && ParseTextContent(content, jsonHint, Some(JArray([item])), now) == Chat(ParseTxt(content))
  {
    var item := JObject(map["role" := JString("user"), "content" := JObject(map["toString" := JNumber(0)])]);
    assert Field(item, "content") == Some(JObject(map["toString" := JNumber(0)]));
    assert !Printable(Items([item]).value[0]);
  }

  /** A value that passes check 1 is a project even when it also looks like a legacy script. */
  lemma ProjectBeforeLegacy(data: Json, now: string)
    requires IsProjectFile(data) && IsLegacyScript(data)
    ensures ParseJson(Some(data), now).Ok? ==> ParseJson(Some(data), now).value.ScriptProject?
  {
  }

  // ---------------------------------------------------------------------------
  // saving a project

  /**
   * The project file `saveProjectToFile` writes: version `1.1`, the script, the configuration
   * with its voice mapping as entry pairs, and the analysis.
   */
  function SaveProject(script: Json, fields: map<string, Json>, mapping: seq<(string, Json)>, analysis: Json): (r: Json)
    ensures Field(r, "version") == Some(JString("1.1"))
    ensures Field(r, "generatedScript") == Some(script) && Field(r, "analysisResult") == Some(analysis)
  {
    JObject(map[
      "version" := JString("1.1"),
      "generatedScript" := script,
      "podcastConfig" := JObject(fields["voiceMapping" := ToEntries(mapping)]),
      "analysisResult" := analysis])
  }

  /** Saving a project and loading the file gives back the script, configuration and analysis. */
  lemma ProjectRoundTrip(script: Json, fields: map<string, Json>, mapping: seq<(string, Json)>, analysis: Json, now: string)
    requires Truthy(script) && Truthy(analysis)
    requires DistinctNames(mapping) && "voiceMapping" !in fields
    ensures ParseJson(Some(SaveProject(script, fields, mapping, analysis)), now)
      == Ok(ScriptProject(script, Config(fields, Lift(mapping)), analysis))
  {
    var data := SaveProject(script, fields, mapping, analysis);
    var pc := JObject(fields["voiceMapping" := ToEntries(mapping)]);
    assert Field(data, "podcastConfig") == Some(pc);
    assert IsProjectFile(data);
    EntriesRoundTrip(mapping);
    assert Field(pc, "voiceMapping") == Some(ToEntries(mapping));
    assert Spread(pc) - {"voiceMapping"} == fields;
  }

  /** The characters a saved file name may not hold: `/ \ ? % * : | " < >`. */
  predicate Forbidden(c: char) {
    c == '/' || c == '\\' || c == '?' || c == '%' || c == '*' || c == ':' || c == '|' || c == '"'
    || c == '<' || c == '>'
  }

  /** Each forbidden character replaced by `-`. */
  function Sanitize(s: string): (r: string)
    ensures |r| == |s|
    ensures forall i :: 0 <= i < |r| ==> !Forbidden(r[i])
    ensures forall i :: 0 <= i < |s| && !Forbidden(s[i]) ==> r[i] == s[i]
    ensures forall i :: 0 <= i < |s| && Forbidden(s[i]) ==> r[i] == '-'
  {
    seq(|s|, i requires 0 <= i < |s| => if Forbidden(s[i]) then '-' else s[i])
  }

  /** A name without forbidden characters is kept as it is; so sanitising twice is sanitising once. */
  lemma SanitizeClean(s: string)
    requires forall i :: 0 <= i < |s| ==> !Forbidden(s[i])
    ensures Sanitize(s) == s
  {
  }

  lemma SanitizeIdempotent(s: string)
    ensures Sanitize(Sanitize(s)) == Sanitize(s)
  {
    SanitizeClean(Sanitize(s));
  }

  /** The download name of a saved project: the sanitised title, `podcast_project` when empty. */
  function ProjectFilename(title: string): (name: string)
    ensures EndsWith(name, ".json") && |name| > |".json"|
    ensures forall i :: 0 <= i < |name| - 5 ==> !Forbidden(name[i])
    ensures title != "" ==> |name| == |title| + 5 && name[..|title|] == Sanitize(title)
    ensures title == "" ==> name == "podcast_project.json"
  {
    var base := if title == "" then "podcast_project" else title;
    var safe := Sanitize(base);
    assert (safe + ".json")[..|safe|] == safe;
    safe + ".json"
  }
}
