/**
 * The older parser's entry points. Its `parseTxt` and `processCodeBlocks` are the same as the
 * newer ones (modules `ChatText` and `CodeBlocks`); `parseJson` accepts only an array of
 * messages, and `parseTextContent` wants the trimmed text to both open and close a bracket.
 *
 * As in `Parser`, the outcome of `JSON.parse` is a parameter, `None` standing for a syntax error.
 */
module LegacyParser {
  import opened Outcomes
  import opened JsText
  import opened JsonValue
  import opened CodeBlocks
  import opened ChatText
  import Parser

  /** The one error the older `parseJson` surfaces. */
  const LegacyJsonFailure := "Failed to parse JSON file. Please ensure it is a valid JSON array of messages."

  /** The older `parseJson`: an array of messages, else the one error. */
  function LegacyParseJson(parsed: Option<Json>): (r: Result<seq<ChatMessage>>)
    ensures r.Err? ==> r.message == LegacyJsonFailure
    ensures r.Ok? <==>
      parsed.Some? && parsed.value.JArray? && Parser.Items(parsed.value.elems).Ok?
      && AllPrintable(Parser.Items(parsed.value.elems).value)
    ensures r.Ok? ==> r.value == ProcessCodeBlocks(Parser.Items(parsed.value.elems).value)
  {
    match parsed
    case Some(JArray(elems)) =>
      (match Parser.Items(elems)
       case Ok(ms) =>
         (match ProcessCodeBlocksChecked(ms)
          case Ok(out) => Ok(out)
          case Err(_) => Err(LegacyJsonFailure))
       case Err(_) => Err(LegacyJsonFailure))
    case _ => Err(LegacyJsonFailure)
  }

  /** The text looks like JSON to the older parser: after trimming it opens and closes a bracket. */
  predicate LegacyLooksLikeJson(content: string) {
    StartsWith(Trim(content), "[") && EndsWith(Trim(content), "]")
  }

  /** The older `parseTextContent(content, typeHint)`, where `jsonHint` is `typeHint === 'json'`. */
  function LegacyParseTextContent(content: string, jsonHint: bool, parsed: Option<Json>): (r: seq<ChatMessage>)
    ensures !jsonHint && !LegacyLooksLikeJson(content) ==> r == ParseTxt(content)
    ensures (jsonHint || LegacyLooksLikeJson(content)) && LegacyParseJson(parsed).Ok? ==> r == LegacyParseJson(parsed).value
    ensures LegacyParseJson(parsed).Err? ==> r == ParseTxt(content)
  {
    if jsonHint || LegacyLooksLikeJson(content) then
      match LegacyParseJson(parsed)
      case Ok(ms) => ms
      case Err(_) => ParseTxt(content)
    else ParseTxt(content)
  }

  // ---------------------------------------------------------------------------
  // the older parser against the newer one

  /** Whatever the older parser reads as JSON, the newer one does too. */
  lemma LegacyCueImpliesNew(content: string)
    requires LegacyLooksLikeJson(content)
    ensures Parser.LooksLikeJson(content)
  {
  }

  /** An object opens with a brace, so only the newer parser reads it as JSON unprompted. */
  lemma ObjectCueOnlyNew()
    ensures Parser.LooksLikeJson("{}") && !LegacyLooksLikeJson("{}")
  {
    assert Trim("{}") == "{}";
  }

  /** An array is not a project file nor a legacy script: it has no named fields. */
  lemma ArrayIsNoRecord(items: seq<Json>)
    ensures !Parser.IsProjectFile(JArray(items)) && !Parser.IsLegacyScript(JArray(items))
  {
    assert Field(JArray(items), "version") == None;
    assert Field(JArray(items), "title") == None;
  }

  /** On an array both generations give the same messages, or both fail. */
  lemma ArraysAgree(items: seq<Json>, now: string)
    ensures LegacyParseJson(Some(JArray(items))).Ok? <==> Parser.ParseJson(Some(JArray(items)), now).Ok?
    ensures LegacyParseJson(Some(JArray(items))).Ok? ==>
      Parser.ParseJson(Some(JArray(items)), now).value == Parser.Chat(LegacyParseJson(Some(JArray(items))).value)
  {
    ArrayIsNoRecord(items);
  }

  /** Anything but an array, and a syntax error, is the older parser's one error. */
  lemma NonArrayFails(parsed: Option<Json>)
    requires parsed.None? || !parsed.value.JArray?
    ensures LegacyParseJson(parsed) == Err(LegacyJsonFailure)
  {
  }

  /** A project file the newer parser loads is text to the older one, which has no such notion. */
  lemma ProjectIsTextToLegacy(content: string, jsonHint: bool, data: Json)
    requires data.JObject?
    ensures LegacyParseTextContent(content, jsonHint, Some(data)) == ParseTxt(content)
  {
  }
}
