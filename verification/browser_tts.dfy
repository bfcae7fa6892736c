/**
 * The newer browser speech adapter: `getBrowserVoices`, with its module-level voice cache and
 * loaded flag, and the decisions of `browserTextToSpeech`.
 *
 * The engine's events and the 1500 ms fallback timer are separate steps here: `OnVoicesChanged`
 * and `OnLoadTimeout` are what the two callbacks do when they run.
 */
module BrowserTts {
  import opened Outcomes
  import opened JsText
  import opened Speech

  /** The module-level `cachedVoices` and `voicesLoaded`. */
  datatype VoiceCache = VoiceCache(voices: seq<Voice>, loaded: bool)

  /** The cache after a step and how the pending voice request stands. */
  datatype VoicesStep = VoicesStep(cache: VoiceCache, outcome: VoicesOutcome)

  const InitialCache := VoiceCache([], false)

  const NoApiForVoices := "Browser Speech Synthesis API not supported in this environment."
  const LoadTimeout := "[BrowserTTS] Timeout — could not load any browser voices."
  const NoVoices := "[BrowserTTS] No valid voices available for synthesis."

  /** The cache is marked loaded exactly when it holds voices: it is only ever filled non-empty. */
  predicate Consistent(c: VoiceCache) {
    c.loaded <==> |c.voices| > 0
  }

  /** `loadVoices`: an empty engine list changes nothing; otherwise the copies become the cache. */
  function LoadVoices(cache: VoiceCache, engine: seq<EngineVoice>): (s: VoicesStep)
    ensures |engine| == 0 ==> s == VoicesStep(cache, VoicesWaiting)
    ensures |engine| > 0 ==> s.cache.loaded && s.cache.voices == CopyAll(engine)
    ensures |engine| > 0 ==> s.outcome == VoicesResolved(s.cache.voices)
  {
    if |engine| == 0 then VoicesStep(cache, VoicesWaiting)
    else
      var copies := CopyAll(engine);
      VoicesStep(VoiceCache(copies, true), VoicesResolved(copies))
  }

  /** `getBrowserVoices()` on a cache and the engine's current voice list. */
  function GetBrowserVoices(apiPresent: bool, cache: VoiceCache, engine: seq<EngineVoice>): (s: VoicesStep)
    ensures !apiPresent ==> s == VoicesStep(cache, VoicesRejected(NoApiForVoices))
    ensures apiPresent && cache.loaded && |cache.voices| > 0 ==> s == VoicesStep(cache, VoicesResolved(cache.voices))
    ensures s.outcome.VoicesResolved? ==> s.cache.loaded && s.outcome.voices == s.cache.voices
    ensures s.outcome.VoicesResolved? ==> |s.outcome.voices| > 0
  {
    if !apiPresent then VoicesStep(cache, VoicesRejected(NoApiForVoices))
    else if cache.loaded && |cache.voices| > 0 then VoicesStep(cache, VoicesResolved(cache.voices))
    else LoadVoices(cache, engine)
  }

  /** The engine's voices-changed event: it loads only while the cache is not yet loaded. */
  function OnVoicesChanged(cache: VoiceCache, engine: seq<EngineVoice>): (s: VoicesStep)
    ensures cache.loaded ==> s == VoicesStep(cache, VoicesWaiting)
    ensures !cache.loaded ==> s == LoadVoices(cache, engine)
  {
    if !cache.loaded then LoadVoices(cache, engine) else VoicesStep(cache, VoicesWaiting)
  }

  /** The fallback timer: one more load while not loaded, and a rejection if that finds nothing. */
  function OnLoadTimeout(cache: VoiceCache, engine: seq<EngineVoice>): (s: VoicesStep)
    ensures s.outcome.VoicesRejected? <==> !cache.loaded && |engine| == 0
    ensures s.outcome.VoicesRejected? ==> s.outcome.reason == LoadTimeout && s.cache == cache
    ensures !cache.loaded && |engine| > 0 ==> s == LoadVoices(cache, engine)
  {
    if cache.loaded then VoicesStep(cache, VoicesWaiting)
    else
      var s := LoadVoices(cache, engine);
      if s.outcome.VoicesWaiting? then VoicesStep(cache, VoicesRejected(LoadTimeout)) else s
  }

  /** Every step keeps the cache consistent, starting from the empty one. */
  lemma CacheStaysConsistent(api: bool, cache: VoiceCache, engine: seq<EngineVoice>)
    requires Consistent(cache)
    ensures Consistent(GetBrowserVoices(api, cache, engine).cache)
    ensures Consistent(OnVoicesChanged(cache, engine).cache)
    ensures Consistent(OnLoadTimeout(cache, engine).cache)
  {
  }

  lemma InitialConsistent()
    ensures Consistent(InitialCache)
  {
  }

  /** A loaded cache answers without consulting the engine at all. */
  lemma CachedIgnoresEngine(cache: VoiceCache, e1: seq<EngineVoice>, e2: seq<EngineVoice>)
    requires Consistent(cache) && cache.loaded
    ensures GetBrowserVoices(true, cache, e1) == GetBrowserVoices(true, cache, e2)
    ensures GetBrowserVoices(true, cache, e1).outcome == VoicesResolved(cache.voices)
  {
  }

  /** Each cached voice is the engine voice at the same position, cut to name, language and URI. */
  lemma CachedCopies(cache: VoiceCache, engine: seq<EngineVoice>, k: nat)
    requires !cache.loaded && k < |engine|
    ensures var c := GetBrowserVoices(true, cache, engine).cache;
      k < |c.voices| && c.voices[k].name == engine[k].name && c.voices[k].lang == engine[k].lang
      && c.voices[k].voiceURI == engine[k].voiceURI
  {
  }

  // ---------------------------------------------------------------------------
  // speaking

  /**
   * `browserTextToSpeech(text, voiceURI, options)` with the API present or not, the loaded flag,
   * the engine's flags and its current voice list.
   */
  function TextToSpeech(
    text: string, uri: string, options: SpeechOptions,
    apiPresent: bool, voicesLoaded: bool, flags: EngineFlags, engine: seq<EngineVoice>): (d: Decision)
    ensures !apiPresent ==> d == Decision([], Rejected(NotSupported))
    ensures apiPresent && IsBlank(text) ==> d == Decision([], Resolved)
    ensures apiPresent && !IsBlank(text) && !voicesLoaded ==> d == Decision([], LoadVoicesFirst)
    ensures d.outcome.Rejected? && apiPresent ==> d.commands == [] && d.outcome.message == NoVoices && |engine| == 0
    ensures d.outcome == AwaitUtterance <==> apiPresent && !IsBlank(text) && voicesLoaded && |engine| > 0
    ensures d.outcome == AwaitUtterance ==>
      |d.commands| > 0 && d.commands[|d.commands| - 1] == Speak(MakeUtterance(Trim(text), ChooseVoice(engine, uri).value, options))
    ensures d.outcome == AwaitUtterance ==> d.commands[..|d.commands| - 1] == CancelIfBusy(flags)
    ensures d.outcome != AwaitUtterance ==> d.commands == []
  {
    if !apiPresent then Decision([], Rejected(NotSupported))
    else
      var trimmed := Trim(text);
      if trimmed == "" then Decision([], Resolved)
      else if !voicesLoaded then Decision([], LoadVoicesFirst)
      else
        match ChooseVoice(engine, uri)
        case None => Decision([], Rejected(NoVoices))
        case Some(voice) =>
          var cs := CancelIfBusy(flags) + [Speak(MakeUtterance(trimmed, voice, options))];
          assert cs[..|cs| - 1] == CancelIfBusy(flags);
          Decision(cs, AwaitUtterance)
  }

  /**
   * The request re-issued once the voice list request it triggered has settled: a rejection is
   * passed on, a resolution means the cache is loaded and the request is decided again.
   */
  function RetryAfterLoad(
    load: VoicesStep, text: string, uri: string, options: SpeechOptions,
    flags: EngineFlags, engine: seq<EngineVoice>): (d: Decision)
    requires !load.outcome.VoicesWaiting?
    ensures load.outcome.VoicesRejected? ==> d == Decision([], Rejected(load.outcome.reason))
    ensures load.outcome.VoicesResolved? ==> d == TextToSpeech(text, uri, options, true, load.cache.loaded, flags, engine)
  {
    match load.outcome
    case VoicesRejected(reason) => Decision([], Rejected(reason))
    case VoicesResolved(_) => TextToSpeech(text, uri, options, true, load.cache.loaded, flags, engine)
  }

  /** The re-issued request never asks for the voices again: the retry is taken at most once. */
  lemma RetryLoadsOnce(
    api: bool, cache: VoiceCache, voiceList: seq<EngineVoice>, text: string, uri: string, options: SpeechOptions,
    flags: EngineFlags, engine: seq<EngineVoice>)
    requires !GetBrowserVoices(api, cache, voiceList).outcome.VoicesWaiting?
    ensures RetryAfterLoad(GetBrowserVoices(api, cache, voiceList), text, uri, options, flags, engine).outcome != LoadVoicesFirst
  {
  }

  /** `cancel` comes only from a busy engine, only for a request that speaks, and before `speak`. */
  lemma CancelBeforeSpeak(
    text: string, uri: string, options: SpeechOptions,
    api: bool, loaded: bool, flags: EngineFlags, engine: seq<EngineVoice>)
    ensures var d := TextToSpeech(text, uri, options, api, loaded, flags, engine);
      (Cancel in d.commands <==> d.outcome == AwaitUtterance && (flags.speaking || flags.pending))
      && (Cancel in d.commands ==> d.commands[0] == Cancel && d.commands[1].Speak?)
      && Resume !in d.commands
  {
    var d := TextToSpeech(text, uri, options, api, loaded, flags, engine);
    if d.outcome == AwaitUtterance {
      var n := |d.commands|;
      assert d.commands == d.commands[..n - 1] + [d.commands[n - 1]];
    }
  }

  /** Whitespace around the text changes nothing: the engine is given the trimmed text. */
  lemma SurroundingSpaceIgnored(
    text: string, uri: string, options: SpeechOptions,
    api: bool, loaded: bool, flags: EngineFlags, engine: seq<EngineVoice>)
    ensures TextToSpeech(Trim(text), uri, options, api, loaded, flags, engine)
      == TextToSpeech(text, uri, options, api, loaded, flags, engine)
  {
    TrimOfTrimmed(Trim(text));
  }

  // ---------------------------------------------------------------------------
  // the request as written

  /**
   * The `TypeError` a `logger.debug(...)` call throws: the logger has `info`, `warn` and `error`
   * only. The wording is the JavaScript engine's.
   */
  const NoDebug := "TypeError: logger.debug is not a function"

  /**
   * `browserTextToSpeech` as written: the `logger.debug` call before resolving blank text and
   * the one before cancelling a busy engine throw inside the promise executor, which rejects the
   * promise before anything else is done. `TextToSpeech` is the request with both calls logging.
   */
  function TextToSpeechAsWritten(
    text: string, uri: string, options: SpeechOptions,
    apiPresent: bool, voicesLoaded: bool, flags: EngineFlags, engine: seq<EngineVoice>): (d: Decision)
    ensures apiPresent && IsBlank(text) ==> d == Decision([], Rejected(NoDebug))
    ensures d.outcome == AwaitUtterance <==>
      apiPresent && !IsBlank(text) && voicesLoaded && |engine| > 0 && !flags.speaking && !flags.pending
    ensures Cancel !in d.commands
  {
    if !apiPresent then Decision([], Rejected(NotSupported))
    else
      var trimmed := Trim(text);
      if trimmed == "" then Decision([], Rejected(NoDebug))
      else if !voicesLoaded then Decision([], LoadVoicesFirst)
      else
        match ChooseVoice(engine, uri)
        case None => Decision([], Rejected(NoVoices))
        case Some(voice) =>
          if flags.speaking || flags.pending then Decision([], Rejected(NoDebug))
          else Decision([Speak(MakeUtterance(trimmed, voice, options))], AwaitUtterance)
  }

  /**
   * Where the request as written parts from the intended one: blank text is rejected instead of
   * resolved, and a busy engine rejects the request instead of being cancelled and spoken to.
   */
  lemma DebugCallsReject(
    text: string, uri: string, options: SpeechOptions, loaded: bool, flags: EngineFlags, engine: seq<EngineVoice>)
    ensures IsBlank(text) ==>
      TextToSpeechAsWritten(text, uri, options, true, loaded, flags, engine).outcome == Rejected(NoDebug)
      && TextToSpeech(text, uri, options, true, loaded, flags, engine).outcome == Resolved
    ensures !IsBlank(text) && loaded && |engine| > 0 && (flags.speaking || flags.pending) ==>
      TextToSpeechAsWritten(text, uri, options, true, loaded, flags, engine) == Decision([], Rejected(NoDebug))
      && TextToSpeech(text, uri, options, true, loaded, flags, engine).outcome == AwaitUtterance
      && TextToSpeech(text, uri, options, true, loaded, flags, engine).commands[0] == Cancel
  {
    var d := TextToSpeech(text, uri, options, true, loaded, flags, engine);
    if !IsBlank(text) && loaded && |engine| > 0 && (flags.speaking || flags.pending) {
      assert d.commands[..|d.commands| - 1] == [Cancel];
    }
  }

  /** Anywhere else, with no blank text and an idle engine, the two requests are the same. */
  lemma AsWrittenAgreesWhenIdle(
    text: string, uri: string, options: SpeechOptions,
    api: bool, loaded: bool, flags: EngineFlags, engine: seq<EngineVoice>)
    requires !IsBlank(text) && !flags.speaking && !flags.pending
    ensures TextToSpeechAsWritten(text, uri, options, api, loaded, flags, engine)
      == TextToSpeech(text, uri, options, api, loaded, flags, engine)
  {
  }
}
