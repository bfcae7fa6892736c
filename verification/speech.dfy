/**
 * The speech engine as both generations of the browser speech adapter see it: the voices it
 * lists, the flags it reports, the commands the adapter issues, and how a request settles.
 *
 * The engine itself is not modelled. Its voice list and its `speaking`, `pending` and `paused`
 * flags are inputs; what the adapter does is a list of commands plus an outcome.
 */
module Speech {
  import opened Outcomes

  /** A voice as the engine lists it. */
  datatype EngineVoice = EngineVoice(name: string, lang: string, voiceURI: string, isDefault: bool, localService: bool)

  /** A voice as the adapter hands it out: the engine voice's name, language and URI. */
  datatype Voice = Voice(name: string, lang: string, voiceURI: string)

  /** The engine's state flags at the time of a request. */
  datatype EngineFlags = EngineFlags(speaking: bool, pending: bool, paused: bool)

  /** The optional rate, pitch and volume a caller passes. */
  datatype SpeechOptions = SpeechOptions(rate: Option<real>, pitch: Option<real>, volume: Option<real>)

  /** The utterance handed to the engine. */
  datatype Utterance = Utterance(text: string, voice: EngineVoice, rate: real, pitch: real, volume: real)

  /** What the adapter tells the engine to do, in order. */
  datatype Command = Cancel | Resume | Speak(utterance: Utterance)

  /** How a speech request settles. */
  datatype Outcome =
    | Resolved                 // the promise resolves at once
    | Rejected(message: string)
    | AwaitUtterance           // settles when the engine reports the utterance's end or an error
    | LoadVoicesFirst          // loads the voice list, then issues the same request again

  /** The commands a request issues and how it settles. */
  datatype Decision = Decision(commands: seq<Command>, outcome: Outcome)

  /** How a request for the voice list settles. */
  datatype VoicesOutcome =
    | VoicesResolved(voices: seq<Voice>)
    | VoicesRejected(reason: string)
    | VoicesWaiting            // no voices yet: waits for the engine's voices-changed event or the timeout

  /** The engine has no speech API at all. */
  const NotSupported := "Browser Speech Synthesis API not supported."

  /** The event that ends an utterance. */
  datatype SpeechEvent = Ended | Failed(error: string)

  /** The copy the adapter keeps of an engine voice. */
  function Copy(v: EngineVoice): (c: Voice)
    ensures c.name == v.name && c.lang == v.lang && c.voiceURI == v.voiceURI
  {
    Voice(v.name, v.lang, v.voiceURI)
  }

  function CopyAll(vs: seq<EngineVoice>): (cs: seq<Voice>)
    ensures |cs| == |vs|
    ensures forall k :: 0 <= k < |vs| ==> cs[k] == Copy(vs[k])
  {
    seq(|vs|, k requires 0 <= k < |vs| => Copy(vs[k]))
  }

  /** Index `k` holds the first voice with URI `uri`. */
  predicate FirstMatchAt(voices: seq<EngineVoice>, uri: string, k: int) {
    0 <= k < |voices| && voices[k].voiceURI == uri && forall j :: 0 <= j < k ==> voices[j].voiceURI != uri
  }

  /** `voices.find(v => v.voiceURI === uri)`: the first voice with that URI. */
  function FindVoice(voices: seq<EngineVoice>, uri: string): (r: Option<EngineVoice>)
    ensures r.Some? <==> exists k :: 0 <= k < |voices| && voices[k].voiceURI == uri
    ensures r.Some? ==> exists k :: FirstMatchAt(voices, uri, k) && voices[k] == r.value
  {
    if |voices| == 0 then None
    else if voices[0].voiceURI == uri then Some(voices[0])
    else
      var r := FindVoice(voices[1..], uri);
      assert forall k :: 1 <= k < |voices| ==> voices[k] == voices[1..][k - 1];
      if r.Some? then
        var k :| FirstMatchAt(voices[1..], uri, k) && voices[1..][k] == r.value;
        assert FirstMatchAt(voices, uri, k + 1) && voices[k + 1] == r.value;
        r
      else
        r
  }

  /** The requested voice, else the first voice, else none: the choice both generations make. */
  function ChooseVoice(voices: seq<EngineVoice>, uri: string): (r: Option<EngineVoice>)
    ensures r.Some? <==> |voices| > 0
    ensures r.Some? ==> r.value in voices
    ensures (exists k :: 0 <= k < |voices| && voices[k].voiceURI == uri) ==> r.Some? && r.value.voiceURI == uri
    ensures (forall k :: 0 <= k < |voices| ==> voices[k].voiceURI != uri) && |voices| > 0 ==> r == Some(voices[0])
  {
    match FindVoice(voices, uri)
    case Some(v) => Some(v)
    case None => if |voices| > 0 then Some(voices[0]) else None
  }

  /** The utterance with the caller's options, each defaulting to 1. */
  function MakeUtterance(text: string, voice: EngineVoice, options: SpeechOptions): (u: Utterance)
    ensures u.text == text && u.voice == voice
    ensures options.rate.None? ==> u.rate == 1.0
    ensures options.pitch.None? ==> u.pitch == 1.0
    ensures options.volume.None? ==> u.volume == 1.0
    ensures options.rate.Some? ==> u.rate == options.rate.value
    ensures options.pitch.Some? ==> u.pitch == options.pitch.value
    ensures options.volume.Some? ==> u.volume == options.volume.value
  {
    Utterance(text, voice, options.rate.GetOr(1.0), options.pitch.GetOr(1.0), options.volume.GetOr(1.0))
  }

  /** `cancel()` when the engine is speaking or has queued items. */
  function CancelIfBusy(flags: EngineFlags): (cs: seq<Command>)
    ensures Cancel in cs <==> flags.speaking || flags.pending
    ensures cs == [] || cs == [Cancel]
  {
    if flags.speaking || flags.pending then [Cancel] else []
  }

  /**
   * How a request settles once the engine has reported `event`. Both generations resolve on an
   * error event as on a normal end, so that playback goes on with the next line.
   */
  function Settle(d: Decision, event: SpeechEvent): (r: Outcome)
    ensures d.outcome == AwaitUtterance ==> r == Resolved
    ensures d.outcome != AwaitUtterance ==> r == d.outcome
  {
    if d.outcome == AwaitUtterance then Resolved else d.outcome
  }

  /** An engine error never rejects a request: it settles as a normal end would. */
  lemma ErrorSettlesLikeEnd(d: Decision, error: string)
    ensures Settle(d, Failed(error)) == Settle(d, Ended)
    ensures d.outcome == AwaitUtterance ==> !Settle(d, Failed(error)).Rejected?
  {
  }

  /** The index of the first voice with the URI, or the length when none has it. */
  function FirstWithUri(voices: seq<EngineVoice>, uri: string): (k: nat)
    ensures k <= |voices|
  {
    if |voices| == 0 then 0
    else if voices[0].voiceURI == uri then 0
    else 1 + FirstWithUri(voices[1..], uri)
  }

  /** `ChooseVoice` picks the voice at the first matching index, else at index 0. */
  lemma {:induction false} ChooseByIndex(voices: seq<EngineVoice>, uri: string)
    ensures FirstWithUri(voices, uri) < |voices| ==> ChooseVoice(voices, uri) == Some(voices[FirstWithUri(voices, uri)])
    ensures FirstWithUri(voices, uri) == |voices| && |voices| > 0 ==> ChooseVoice(voices, uri) == Some(voices[0])
    ensures |voices| == 0 ==> ChooseVoice(voices, uri) == None
  {
    FindByIndex(voices, uri);
  }

  lemma {:induction false} FindByIndex(voices: seq<EngineVoice>, uri: string)
    ensures FirstWithUri(voices, uri) < |voices| ==> FindVoice(voices, uri) == Some(voices[FirstWithUri(voices, uri)])
    ensures FirstWithUri(voices, uri) == |voices| ==> FindVoice(voices, uri) == None
  {
    if |voices| > 0 && voices[0].voiceURI != uri {
      FindByIndex(voices[1..], uri);
    }
  }
}
