/**
 * The older browser speech adapter: `getBrowserVoices` with a cache that counts as loaded when
 * non-empty, and `browserTextToSpeech`, which clears and resumes the engine before it looks for
 * a voice and speaks the text as given.
 */
module LegacyBrowserTts {
  import opened Outcomes
  import opened JsText
  import opened Speech
  import BrowserTts

  const LoadTimeout := "Could not load browser voices after a timeout."
  const NoVoices := "No browser voices available to speak with."

  /** The cache after a step and how the pending voice request stands. */
  datatype VoicesStep = VoicesStep(cache: seq<Voice>, outcome: VoicesOutcome)

  /** The inner `getVoices`: copies a non-empty engine list into the cache and resolves with it. */
  function LoadVoices(cache: seq<Voice>, engine: seq<EngineVoice>): (s: VoicesStep)
    ensures |engine| == 0 ==> s == VoicesStep(cache, VoicesWaiting)
    ensures |engine| > 0 ==> s == VoicesStep(CopyAll(engine), VoicesResolved(CopyAll(engine)))
  {
    if |engine| > 0 then VoicesStep(CopyAll(engine), VoicesResolved(CopyAll(engine)))
    else VoicesStep(cache, VoicesWaiting)
  }

  /** `getBrowserVoices()`: a non-empty cache is returned as it is. */
  function GetBrowserVoices(apiPresent: bool, cache: seq<Voice>, engine: seq<EngineVoice>): (s: VoicesStep)
    ensures !apiPresent ==> s == VoicesStep(cache, VoicesRejected(NotSupported))
    ensures apiPresent && |cache| > 0 ==> s == VoicesStep(cache, VoicesResolved(cache))
    ensures s.outcome.VoicesResolved? ==> |s.outcome.voices| > 0 && s.cache == s.outcome.voices
  {
    if !apiPresent then VoicesStep(cache, VoicesRejected(NotSupported))
    else if |cache| > 0 then VoicesStep(cache, VoicesResolved(cache))
    else LoadVoices(cache, engine)
  }

  /**
   * The voices-changed event reloads whatever the cache holds: a non-empty engine list replaces
   * the cache and settles a pending request with it; an empty one changes nothing.
   */
  function OnVoicesChanged(cache: seq<Voice>, engine: seq<EngineVoice>): (s: VoicesStep)
    ensures |engine| > 0 ==> s.cache == CopyAll(engine) && s.outcome == VoicesResolved(s.cache)
    ensures |engine| == 0 ==> s.cache == cache && s.outcome == VoicesWaiting
  {
    LoadVoices(cache, engine)
  }

  /** The 1000 ms timer: with the cache still empty, one more load, and a rejection if it finds nothing. */
  function OnLoadTimeout(cache: seq<Voice>, engine: seq<EngineVoice>): (s: VoicesStep)
    ensures s.outcome.VoicesRejected? <==> |cache| == 0 && |engine| == 0
    ensures s.outcome.VoicesRejected? ==> s.outcome.reason == LoadTimeout && s.cache == cache
  {
    if |cache| > 0 then VoicesStep(cache, VoicesWaiting)
    else if |engine| > 0 then LoadVoices(cache, engine)
    else VoicesStep(cache, VoicesRejected(LoadTimeout))
  }

  /** Unlike the newer cache, a non-empty one is replaced on every voices-changed event. */
  lemma ChangedEventReloads(cache: seq<Voice>, engine: seq<EngineVoice>)
    requires |cache| > 0 && |engine| > 0
    ensures OnVoicesChanged(cache, engine).cache == CopyAll(engine)
    ensures BrowserTts.OnVoicesChanged(BrowserTts.VoiceCache(cache, true), engine).cache.voices == cache
  {
  }

  /** The engine commands issued before the voice lookup: `cancel` when busy, then `resume` when paused. */
  function Prepare(flags: EngineFlags): (cs: seq<Command>)
    ensures Cancel in cs <==> flags.speaking || flags.pending
    ensures Resume in cs <==> flags.paused
    ensures Cancel in cs ==> cs[0] == Cancel
    ensures forall c :: c in cs ==> !c.Speak?
  {
    CancelIfBusy(flags) + (if flags.paused then [Resume] else [])
  }

  /** The older `browserTextToSpeech(text, voiceURI, options)`. */
  function TextToSpeech(
    text: string, uri: string, options: SpeechOptions,
    apiPresent: bool, flags: EngineFlags, engine: seq<EngineVoice>): (d: Decision)
    ensures !apiPresent ==> d == Decision([], Rejected(NotSupported))
    ensures apiPresent && IsBlank(text) ==> d == Decision([], Resolved)
    ensures apiPresent && !IsBlank(text) && |engine| == 0 ==> d == Decision(Prepare(flags), Rejected(NoVoices))
    ensures d.outcome == AwaitUtterance <==> apiPresent && !IsBlank(text) && |engine| > 0
    ensures d.outcome == AwaitUtterance ==>
      d.commands == Prepare(flags) + [Speak(MakeUtterance(text, ChooseVoice(engine, uri).value, options))]
    ensures d.outcome != LoadVoicesFirst
  {
    if !apiPresent then Decision([], Rejected(NotSupported))
    else if Trim(text) == "" then Decision([], Resolved)
    else
      var prepared := Prepare(flags);
      match ChooseVoice(engine, uri)
      case None => Decision(prepared, Rejected(NoVoices))
      case Some(voice) => Decision(prepared + [Speak(MakeUtterance(text, voice, options))], AwaitUtterance)
  }

  // ---------------------------------------------------------------------------
  // the older adapter against the newer one

  /**
   * On an engine that is not paused, with voices loaded, both generations pick the same voice
   * and issue the same commands; the older one speaks the text as given, the newer one trimmed.
   */
  lemma SameChoiceAsNewer(
    text: string, uri: string, options: SpeechOptions, flags: EngineFlags, engine: seq<EngineVoice>)
    requires !IsBlank(text) && |engine| > 0 && !flags.paused
    ensures TextToSpeech(Trim(text), uri, options, true, flags, engine)
      == BrowserTts.TextToSpeech(text, uri, options, true, true, flags, engine)
  {
    assert Trim(text) != [];
    TrimOfTrimmed(Trim(text));
    assert Prepare(flags) == CancelIfBusy(flags);
    var d := BrowserTts.TextToSpeech(text, uri, options, true, true, flags, engine);
    assert d.commands == d.commands[..|d.commands| - 1] + [d.commands[|d.commands| - 1]];
  }

  /** With no voices the older adapter still clears and resumes the engine before it gives up. */
  lemma RejectsAfterPreparing(text: string, uri: string, options: SpeechOptions)
    requires !IsBlank(text)
    ensures TextToSpeech(text, uri, options, true, EngineFlags(true, false, true), [])
      == Decision([Cancel, Resume], Rejected(NoVoices))
  {
  }

  /** A paused engine is resumed after any cancel and before the new utterance. */
  lemma ResumeBeforeSpeak(
    text: string, uri: string, options: SpeechOptions, flags: EngineFlags, engine: seq<EngineVoice>)
    requires flags.paused && !IsBlank(text) && |engine| > 0
    ensures var cs := TextToSpeech(text, uri, options, true, flags, engine).commands;
      |cs| >= 2 && cs[|cs| - 2] == Resume && cs[|cs| - 1].Speak?
  {
  }
}
