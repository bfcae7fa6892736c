/**
 * The newer `AudioService`: a playback controller with three states, a cursor on the script and
 * a `stopRequested` flag, which walks the segments in order and asks the speech adapter to read
 * each one.
 *
 * The controller is a value; each public operation is a function from it to the controller
 * after the operation and the trace of what the operation did, in order: state and segment
 * callbacks, engine cancels, speech requests and the timer `seek` sets. The `play` loop is cut at
 * its only suspension point, the awaited speech request: `Play` and `Resume` run it up to the
 * next request (or to its end), and whatever the environment does in between (`Pause`, `Stop`,
 * `Seek`, another `Play`) is applied to the controller before `Resume` is called with the
 * outcome of the request. Nothing stops two loops from being suspended at once.
 */
module Playback {
  import opened Outcomes
  import opened JsText
  import opened Script
  import Speech

  datatype PlayState = Playing | Paused | Stopped

  /**
   * The controller: the loaded script, the voice id per speaker, the state, the cursor and the
   * stop request. `listening` says whether `init` has registered the callbacks yet.
   */
  datatype Player = Player(
    script: seq<Segment>,
    voices: map<string, string>,
    state: PlayState,
    current: Option<int>,
    stopRequested: bool,
    listening: bool)

  datatype Event =
    | StateChanged(state: PlayState)
    | SegmentChanged(cursor: Option<int>)
    | EngineCancel
    | SpeakRequest(index: int, text: string, voiceId: string, options: Speech.SpeechOptions)
    | PlayScheduled(index: int)

  /** The controller after a synchronous operation, and what the operation did. */
  datatype Effect = Effect(player: Player, events: seq<Event>)

  /**
   * Where a run of the loop stopped: at its end, waiting for the speech request of segment
   * `index`, or thrown out by a cursor before the start of the script.
   */
  datatype Next = Finished | AwaitingSpeech(index: int) | Crashed

  datatype Step = Step(player: Player, events: seq<Event>, next: Next)

  const Fresh := Player([], map[], Stopped, None, false, false)

  /** `setState(state)`: a callback only when the state changes. */
  function SetState(p: Player, s: PlayState): Effect {
    if p.state == s then Effect(p, [])
    else Effect(p.(state := s), if p.listening then [StateChanged(s)] else [])
  }

  /** `setCurrentSegment(index)`: a callback only when the cursor changes. */
  function SetSegment(p: Player, index: Option<int>): Effect {
    if p.current == index then Effect(p, [])
    else Effect(p.(current := index), if p.listening then [SegmentChanged(index)] else [])
  }

  /** `stop()`: request a stop, cancel the engine, clear the cursor, enter `stopped`. */
  function Stop(p: Player): (r: Effect)
    ensures r.player == p.(state := Stopped, current := None, stopRequested := true)
    ensures r.events == [EngineCancel]
      + (if p.listening && p.current != None then [SegmentChanged(None)] else [])
      + (if p.listening && p.state != Stopped then [StateChanged(Stopped)] else [])
  {
    var e1 := SetSegment(p.(stopRequested := true), None);
    var e2 := SetState(e1.player, Stopped);
    Effect(e2.player, [EngineCancel] + e1.events + e2.events)
  }

  /** `init(callbacks)`: callbacks from now on, starting with those of a stop. */
  function Init(p: Player): (r: Effect)
    ensures r.player.listening && r.player.state == Stopped && r.player.current == None
    ensures r.player.script == p.script && r.player.voices == p.voices
  {
    Stop(p.(listening := true))
  }

  /** `loadScript(script, voiceMapping)`: the new script and voices, then a stop. */
  function LoadScript(p: Player, script: seq<Segment>, voices: map<string, string>): (r: Effect)
    ensures r.player.script == script && r.player.voices == voices
    ensures r.player.state == Stopped && r.player.current == None && r.player.stopRequested
  {
    Stop(p.(script := script, voices := voices))
  }

  /** `pause()`: only while playing; request a stop, cancel the engine, enter `paused`. */
  function Pause(p: Player): (r: Effect)
    ensures p.state != Playing ==> r == Effect(p, [])
    ensures p.state == Playing ==>
      r.player == p.(state := Paused, stopRequested := true)
      && r.events == [EngineCancel] + (if p.listening then [StateChanged(Paused)] else [])
  {
    if p.state != Playing then Effect(p, [])
    else
      var e := SetState(p.(stopRequested := true), Paused);
      Effect(e.player, [EngineCancel] + e.events)
  }

  /**
   * `seek(index)`: a full stop, then for an index inside the script either a `play(index)` on a
   * timer (when it was playing) or `paused` at that index.
   */
  function Seek(p: Player, index: int): (r: Effect)
    ensures |Stop(p).events| <= |r.events| && r.events[..|Stop(p).events|] == Stop(p).events
    ensures !(0 <= index < |p.script|) ==> r == Stop(p)
    ensures 0 <= index < |p.script| && p.state == Playing ==>
      r.player == Stop(p).player && r.events == Stop(p).events + [PlayScheduled(index)]
    ensures 0 <= index < |p.script| && p.state != Playing ==>
      r.player == p.(state := Paused, current := Some(index), stopRequested := true)
      && NoSpeech(r.events) && forall m :: 0 <= m < |r.events| ==> !r.events[m].PlayScheduled?
  {
    var wasPlaying := p.state == Playing;
    var s := Stop(p);
    if 0 <= index < |p.script| then
      if wasPlaying then Effect(s.player, s.events + [PlayScheduled(index)])
      else
        var e1 := SetSegment(s.player, Some(index));
        var e2 := SetState(e1.player, Paused);
        Effect(e2.player, s.events + e1.events + e2.events)
    else s
  }

  // ---------------------------------------------------------------------------
  // the loop

  /** The voice id a speaker is read with: none when the speaker has no entry or an empty id. */
  function VoiceFor(voices: map<string, string>, speaker: string): (v: Option<string>)
    ensures v.Some? <==> speaker in voices && voices[speaker] != ""
    ensures v.Some? ==> v.value == voices[speaker]
  {
    if speaker in voices && voices[speaker] != "" then Some(voices[speaker]) else None
  }

  /** A segment the loop passes over: no voice for its speaker, or nothing but white space to say. */
  predicate Skippable(script: seq<Segment>, voices: map<string, string>, k: int)
    requires 0 <= k < |script|
  {
    VoiceFor(voices, script[k].speaker).None? || Trim(SpokenText(script[k])) == ""
  }

  /** The request the loop makes for a segment it reads. */
  function Request(script: seq<Segment>, voices: map<string, string>, k: int): Event
    requires 0 <= k < |script| && !Skippable(script, voices, k)
  {
    var seg := script[k];
    SpeakRequest(k, SpokenText(seg), VoiceFor(voices, seg.speaker).value, Speech.SpeechOptions(seg.rate, seg.pitch, seg.volume))
  }

  /**
   * The `for` loop from index `i` up to its next suspension: the bound check, the stop check
   * (which keeps the cursor when paused), the cursor move, the skips, and the speech request.
   * A loop that runs off the end without a stop request stops the controller.
   */
  function Run(p: Player, i: int): (r: Step)
    ensures r.player.script == p.script && r.player.voices == p.voices && r.player.listening == p.listening
    decreases |p.script| - i
  {
    if i >= |p.script| then
      if !p.stopRequested then var s := Stop(p); Step(s.player, s.events, Finished)
      else Step(p, [], Finished)
    else if p.stopRequested then
      if p.state != Paused then var e := SetSegment(p, None); Step(e.player, e.events, Finished)
      else Step(p, [], Finished)
    else
      var e := SetSegment(p, Some(i));
      if i < 0 then Step(e.player, e.events, Crashed)
      else if Skippable(e.player.script, e.player.voices, i) then
        var rest := Run(e.player, i + 1);
        Step(rest.player, e.events + rest.events, rest.next)
      else Step(e.player, e.events + [Request(e.player.script, e.player.voices, i)], AwaitingSpeech(i))
  }

  /** Where `play(startIndex)` starts. */
  function StartIndex(p: Player, startIndex: Option<int>): int {
    if startIndex.Some? then startIndex.value
    else if p.current.Some? && p.state == Paused then p.current.value
    else 0
  }

  /**
   * Where a loop with no stop request that starts at segment `i` of `p` ends up: waiting on the
   * one request it made, for the first segment from `i` on it does not skip, with the cursor
   * there; or, having skipped them all, stopped with no request made.
   */
  predicate ReadOn(p: Player, i: int, r: Step)
    requires 0 <= i < |p.script|
  {
    && SkipsFit(p, i, r)
    && (r.next.AwaitingSpeech? ==>
          r.player == p.(current := Some(r.next.index)) && Requested(r.events) == [r.next.index])
    && (r.next.Finished? ==>
          r.player == p.(state := Stopped, current := None, stopRequested := true) && Requested(r.events) == [])
  }

  /**
   * `play(startIndex)` up to its first suspension: ignored while playing or with an empty script;
   * from an index inside the script, the loop of a controller that plays with no stop request.
   */
  function Play(p: Player, startIndex: Option<int>): (r: Step)
    ensures p.state == Playing || |p.script| == 0 ==> r == Step(p, [], Finished)
    ensures r.player.script == p.script && r.player.voices == p.voices && r.player.listening == p.listening
    ensures p.state != Playing && 0 <= StartIndex(p, startIndex) < |p.script| ==>
      ReadOn(p.(state := Playing, stopRequested := false), StartIndex(p, startIndex), r)
  {
    if p.state == Playing || |p.script| == 0 then Step(p, [], Finished)
    else
      var e := SetState(p.(stopRequested := false), Playing);
      var start := StartIndex(p, startIndex);
      var run := Run(e.player, start);
      if 0 <= start < |p.script| then
        PlayStart(p, start);
        Step(run.player, e.events + run.events, run.next)
      else Step(run.player, e.events + run.events, run.next)
  }

  /** The loop a `play` starts inside the script, behind the `playing` callback, which is no request. */
  lemma PlayStart(p: Player, start: int)
    requires p.state != Playing && 0 <= start < |p.script|
    ensures var e := SetState(p.(stopRequested := false), Playing);
      var run := Run(e.player, start);
      ReadOn(e.player, start, Step(run.player, e.events + run.events, run.next))
  {
    var e := SetState(p.(stopRequested := false), Playing);
    RunSkips(e.player, start);
    RunPlayer(e.player, start);
    RunSpeech(e.player, start);
    Quiet(e.events);
    RequestedAppend(e.events, Run(e.player, start).events);
  }

  /** The loop from segment `i` with no stop request, which `RunSkips`, `RunPlayer` and `RunSpeech` describe. */
  lemma LoopReadOn(p: Player, i: int)
    requires !p.stopRequested && 0 <= i < |p.script|
    ensures ReadOn(p, i, Run(p, i))
  {
    RunSkips(p, i);
    RunPlayer(p, i);
    RunSpeech(p, i);
  }

  /** How the awaited speech request of the adapter settled. */
  datatype SpeechResult = Spoken | Failed

  /**
   * The loop after the speech request of segment `k` settles: a failure stops the controller and
   * ends the loop; otherwise it goes on with the next segment, in whatever state `p` is now.
   */
  function Resume(p: Player, k: int, result: SpeechResult): (r: Step)
    ensures r.player.script == p.script && r.player.voices == p.voices && r.player.listening == p.listening
    ensures result == Failed ==>
      r.player == p.(state := Stopped, current := None, stopRequested := true)
      && r.next == Finished && NoSpeech(r.events)
    ensures result == Spoken && p.stopRequested ==>
      r.next == Finished && NoSpeech(r.events)
      && r.player == (if k + 1 < |p.script| && p.state != Paused then p.(current := None) else p)
    ensures result == Spoken && !p.stopRequested && k + 1 >= |p.script| ==>
      r.player == p.(state := Stopped, current := None, stopRequested := true)
      && r.next == Finished && NoSpeech(r.events)
    ensures result == Spoken && !p.stopRequested && 0 <= k + 1 < |p.script| ==> ReadOn(p, k + 1, r)
  {
    if result == Failed then StopEvents(p); var s := Stop(p); Step(s.player, s.events, Finished)
    else if p.stopRequested || k + 1 >= |p.script| then StopEvents(p); Run(p, k + 1)
    else if 0 <= k + 1 then LoopReadOn(p, k + 1); Run(p, k + 1)
    else Run(p, k + 1)
  }

  // ---------------------------------------------------------------------------
  // the trace

  /** No speech request among the events. */
  predicate NoSpeech(evs: seq<Event>) {
    forall m :: 0 <= m < |evs| ==> !evs[m].SpeakRequest?
  }

  /** The indices the segment callback was handed, in order, leaving out the `null`s. */
  function Cursors(evs: seq<Event>): seq<int> {
    if |evs| == 0 then []
    else (if evs[0].SegmentChanged? && evs[0].cursor.Some? then [evs[0].cursor.value] else []) + Cursors(evs[1..])
  }

  lemma {:induction false} CursorsAppend(a: seq<Event>, b: seq<Event>)
    ensures Cursors(a + b) == Cursors(a) + Cursors(b)
    decreases |a|
  {
    if |a| > 0 {
      assert (a + b)[1..] == a[1..] + b;
      CursorsAppend(a[1..], b);
    } else {
      assert a + b == b;
    }
  }

  /** `lo, lo + 1, ..., hi - 1`. */
  function Range(lo: int, hi: int): (r: seq<int>)
    requires lo <= hi
    ensures |r| == hi - lo && forall k :: 0 <= k < |r| ==> r[k] == lo + k
    decreases hi - lo
  {
    if lo == hi then [] else [lo] + Range(lo + 1, hi)
  }

  /**
   * The segment callbacks of a loop that moves the cursor through `i .. end - 1`: every index,
   * except `i` when the cursor is already there, and none before `init`.
   */
  function Moves(p: Player, i: int, end: int): seq<int>
    requires i < end
  {
    if !p.listening then [] else if p.current == Some(i) then Range(i + 1, end) else Range(i, end)
  }

  /** The indices of the speech requests among the events, in order. */
  function Requested(evs: seq<Event>): seq<int> {
    if |evs| == 0 then []
    else (if evs[0].SpeakRequest? then [evs[0].index] else []) + Requested(evs[1..])
  }

  lemma {:induction false} RequestedAppend(a: seq<Event>, b: seq<Event>)
    ensures Requested(a + b) == Requested(a) + Requested(b)
    decreases |a|
  {
    if |a| > 0 {
      assert (a + b)[1..] == a[1..] + b;
      RequestedAppend(a[1..], b);
    } else {
      assert a + b == b;
    }
  }

  /** Events with neither a cursor nor a speech request. */
  lemma {:induction false} Quiet(evs: seq<Event>)
    requires forall m :: 0 <= m < |evs| ==> !(evs[m].SegmentChanged? && evs[m].cursor.Some?) && !evs[m].SpeakRequest?
    ensures Cursors(evs) == [] && Requested(evs) == []
    decreases |evs|
  {
    if |evs| > 0 {
      Quiet(evs[1..]);
    }
  }

  lemma StopEvents(p: Player)
    ensures Cursors(Stop(p).events) == [] && Requested(Stop(p).events) == [] && NoSpeech(Stop(p).events)
  {
    Quiet(Stop(p).events);
  }

  /** The cursor move at the top of the loop body. */
  lemma Enter(p: Player, i: int)
    requires !p.stopRequested && 0 <= i < |p.script|
    ensures var e := SetSegment(p, Some(i));
      e.player == p.(current := Some(i)) && Requested(e.events) == []
      && Cursors(e.events) == (if p.listening && p.current != Some(i) then [i] else [])
  {
    var e := SetSegment(p, Some(i));
    if p.listening && p.current != Some(i) {
      assert e.events[1..] == [];
    }
  }

  /** The loop at a segment it reads: the cursor move, then the request. */
  lemma RunRead(p: Player, i: int)
    requires !p.stopRequested && 0 <= i < |p.script| && !Skippable(p.script, p.voices, i)
    ensures Run(p, i)
      == Step(p.(current := Some(i)), SetSegment(p, Some(i)).events + [Request(p.script, p.voices, i)], AwaitingSpeech(i))
  {
  }

  /** The loop skipping the last segment: the cursor move, then the stop at the end. */
  lemma RunSkipLast(p: Player, i: int)
    requires !p.stopRequested && 0 <= i && i + 1 == |p.script| && Skippable(p.script, p.voices, i)
    ensures var s := Stop(p.(current := Some(i)));
      Run(p, i) == Step(s.player, SetSegment(p, Some(i)).events + s.events, Finished)
  {
  }

  /** The loop skipping a segment before the last: the cursor move, then the loop from the next. */
  lemma RunSkip(p: Player, i: int)
    requires !p.stopRequested && 0 <= i && i + 1 < |p.script| && Skippable(p.script, p.voices, i)
    ensures var rest := Run(p.(current := Some(i)), i + 1);
      Run(p, i) == Step(rest.player, SetSegment(p, Some(i)).events + rest.events, rest.next)
  {
  }

  /** Where a step of the loop from `i` stopped, as `RunSkips` states it. */
  predicate SkipsFit(p: Player, i: int, r: Step)
    requires 0 <= i < |p.script|
  {
    && (r.next.Finished? || r.next.AwaitingSpeech?)
    && (r.next.Finished? <==> forall k :: i <= k < |p.script| ==> Skippable(p.script, p.voices, k))
    && (r.next.AwaitingSpeech? ==>
          var j := r.next.index;
          i <= j < |p.script| && !Skippable(p.script, p.voices, j) && forall k :: i <= k < j ==> Skippable(p.script, p.voices, k))
  }

  lemma SkipsRead(p: Player, i: int)
    requires !p.stopRequested && 0 <= i < |p.script| && !Skippable(p.script, p.voices, i)
    ensures SkipsFit(p, i, Run(p, i))
  {
    RunRead(p, i);
  }

  lemma SkipsLast(p: Player, i: int)
    requires !p.stopRequested && 0 <= i && i + 1 == |p.script| && Skippable(p.script, p.voices, i)
    ensures SkipsFit(p, i, Run(p, i))
  {
    RunSkipLast(p, i);
  }

  lemma SkipsSkip(p: Player, i: int)
    requires !p.stopRequested && 0 <= i && i + 1 < |p.script| && Skippable(p.script, p.voices, i)
    requires SkipsFit(p.(current := Some(i)), i + 1, Run(p.(current := Some(i)), i + 1))
    ensures SkipsFit(p, i, Run(p, i))
  {
    RunSkip(p, i);
    SkipsStep(p, i, Run(p, i), Run(p.(current := Some(i)), i + 1));
  }

  /** A step that skips `i` and then does what `rest` did from `i + 1`. */
  lemma SkipsStep(p: Player, i: int, r: Step, rest: Step)
    requires 0 <= i && i + 1 < |p.script| && Skippable(p.script, p.voices, i)
    requires r.next == rest.next
    requires SkipsFit(p.(current := Some(i)), i + 1, rest)
    ensures SkipsFit(p, i, r)
  {
  }

  lemma {:induction false} SkipsFrom(p: Player, i: int)
    requires !p.stopRequested && 0 <= i < |p.script|
    ensures SkipsFit(p, i, Run(p, i))
    decreases |p.script| - i
  {
    if !Skippable(p.script, p.voices, i) {
      SkipsRead(p, i);
    } else if i + 1 == |p.script| {
      SkipsLast(p, i);
    } else {
      SkipsFrom(p.(current := Some(i)), i + 1);
      SkipsSkip(p, i);
    }
  }

  /** Which segments a loop with no stop request skips, and where it stops. */
  lemma RunSkips(p: Player, i: int)
    requires !p.stopRequested && 0 <= i < |p.script|
    ensures var r := Run(p, i);
      (r.next.Finished? || r.next.AwaitingSpeech?)
      && (r.next.Finished? <==> forall k :: i <= k < |p.script| ==> Skippable(p.script, p.voices, k))
      && (r.next.AwaitingSpeech? ==>
            var j := r.next.index;
            i <= j < |p.script| && !Skippable(p.script, p.voices, j) && forall k :: i <= k < j ==> Skippable(p.script, p.voices, k))
  {
    SkipsFrom(p, i);
  }

  /** The controller a loop with no stop request leaves: at the segment it reads, or stopped. */
  lemma {:induction false} RunPlayer(p: Player, i: int)
    requires !p.stopRequested && 0 <= i < |p.script|
    ensures var r := Run(p, i);
      (r.next.AwaitingSpeech? ==> r.player == p.(current := Some(r.next.index)))
      && (r.next.Finished? ==> r.player == p.(state := Stopped, current := None, stopRequested := true))
    decreases |p.script| - i
  {
    var q := p.(current := Some(i));
    Enter(p, i);
    if Skippable(p.script, p.voices, i) && i + 1 < |p.script| {
      RunPlayer(q, i + 1);
    }
  }

  /** The speech requests of a step of the loop, as `RunSpeech` states them. */
  predicate SpeechFit(p: Player, r: Step) {
    && (r.next.AwaitingSpeech? ==>
          0 <= r.next.index < |p.script| && !Skippable(p.script, p.voices, r.next.index)
          && |r.events| > 0 && r.events[|r.events| - 1] == Request(p.script, p.voices, r.next.index)
          && Requested(r.events) == [r.next.index])
    && (r.next.Finished? ==> Requested(r.events) == [])
  }

  /** A step that makes no request of its own before doing what `rest` did. */
  lemma SpeechStep(p: Player, first: seq<Event>, r: Step, rest: Step)
    requires Requested(first) == []
    requires r.next == rest.next && r.events == first + rest.events
    requires SpeechFit(p, rest)
    ensures SpeechFit(p, r)
  {
    RequestedAppend(first, rest.events);
    if rest.next.AwaitingSpeech? {
      assert r.events[|r.events| - 1] == rest.events[|rest.events| - 1];
    }
  }

  lemma SpeechRead(p: Player, i: int)
    requires !p.stopRequested && 0 <= i < |p.script| && !Skippable(p.script, p.voices, i)
    ensures SpeechFit(p, Run(p, i))
  {
    var req := Request(p.script, p.voices, i);
    Enter(p, i);
    RunRead(p, i);
    assert Requested([req]) == [i];
    SpeechStep(p, SetSegment(p, Some(i)).events, Run(p, i), Step(p.(current := Some(i)), [req], AwaitingSpeech(i)));
  }

  lemma SpeechLast(p: Player, i: int)
    requires !p.stopRequested && 0 <= i && i + 1 == |p.script| && Skippable(p.script, p.voices, i)
    ensures SpeechFit(p, Run(p, i))
  {
    var s := Stop(p.(current := Some(i)));
    Enter(p, i);
    RunSkipLast(p, i);
    StopEvents(p.(current := Some(i)));
    SpeechStep(p, SetSegment(p, Some(i)).events, Run(p, i), Step(s.player, s.events, Finished));
  }

  lemma SpeechSkip(p: Player, i: int)
    requires !p.stopRequested && 0 <= i && i + 1 < |p.script| && Skippable(p.script, p.voices, i)
    requires SpeechFit(p.(current := Some(i)), Run(p.(current := Some(i)), i + 1))
    ensures SpeechFit(p, Run(p, i))
  {
    Enter(p, i);
    RunSkip(p, i);
    SpeechStep(p, SetSegment(p, Some(i)).events, Run(p, i), Run(p.(current := Some(i)), i + 1));
  }

  lemma {:induction false} SpeechFrom(p: Player, i: int)
    requires !p.stopRequested && 0 <= i < |p.script|
    ensures SpeechFit(p, Run(p, i))
    decreases |p.script| - i
  {
    if !Skippable(p.script, p.voices, i) {
      SpeechRead(p, i);
    } else if i + 1 == |p.script| {
      SpeechLast(p, i);
    } else {
      SpeechFrom(p.(current := Some(i)), i + 1);
      SpeechSkip(p, i);
    }
  }

  /** A loop with no stop request makes one speech request at most, as its last event. */
  lemma RunSpeech(p: Player, i: int)
    requires !p.stopRequested && 0 <= i < |p.script|
    ensures var r := Run(p, i);
      (r.next.AwaitingSpeech? ==>
         0 <= r.next.index < |p.script| && !Skippable(p.script, p.voices, r.next.index)
         && |r.events| > 0 && r.events[|r.events| - 1] == Request(p.script, p.voices, r.next.index)
         && Requested(r.events) == [r.next.index])
      && (r.next.Finished? ==> Requested(r.events) == [])
  {
    SpeechFrom(p, i);
  }

  /** The segment callbacks of a step of the loop from `i`, as `RunCursors` states them. */
  predicate CursorsFit(p: Player, i: int, r: Step)
    requires 0 <= i < |p.script|
  {
    && (r.next.AwaitingSpeech? ==> i <= r.next.index && Cursors(r.events) == Moves(p, i, r.next.index + 1))
    && (r.next.Finished? ==> Cursors(r.events) == Moves(p, i, |p.script|))
  }

  lemma CursorsRead(p: Player, i: int)
    requires !p.stopRequested && 0 <= i < |p.script| && !Skippable(p.script, p.voices, i)
    ensures CursorsFit(p, i, Run(p, i))
  {
    RunRead(p, i);
    CursorsReadStep(p, i, Run(p, i), Request(p.script, p.voices, i));
  }

  /** A step that enters `i` and waits there after one event that moves no cursor. */
  lemma CursorsReadStep(p: Player, i: int, r: Step, x: Event)
    requires 0 <= i < |p.script| && !x.SegmentChanged?
    requires r.next == AwaitingSpeech(i) && r.events == SetSegment(p, Some(i)).events + [x]
    ensures CursorsFit(p, i, r)
  {
    var e := SetSegment(p, Some(i));
    CursorsAppend(e.events, [x]);
    assert Cursors([x]) == [];
    assert Cursors(e.events) == (if p.listening && p.current != Some(i) then [i] else []) by {
      if p.listening && p.current != Some(i) {
        assert e.events[1..] == [];
      }
    }
    assert Range(i + 1, i + 1) == [];
  }

  lemma CursorsSkipLast(p: Player, i: int)
    requires !p.stopRequested && 0 <= i && i + 1 == |p.script| && Skippable(p.script, p.voices, i)
    ensures CursorsFit(p, i, Run(p, i))
  {
    var q := p.(current := Some(i));
    Enter(p, i);
    RunSkipLast(p, i);
    StopEvents(q);
    CursorsAppend(SetSegment(p, Some(i)).events, Stop(q).events);
  }

  lemma CursorsSkip(p: Player, i: int)
    requires !p.stopRequested && 0 <= i && i + 1 < |p.script| && Skippable(p.script, p.voices, i)
    requires CursorsFit(p.(current := Some(i)), i + 1, Run(p.(current := Some(i)), i + 1))
    ensures CursorsFit(p, i, Run(p, i))
  {
    RunSkip(p, i);
    CursorsStep(p, i, Run(p, i), Run(p.(current := Some(i)), i + 1));
  }

  /** A step that enters `i` and then does what `rest` did. */
  lemma CursorsStep(p: Player, i: int, r: Step, rest: Step)
    requires 0 <= i && i + 1 < |p.script|
    requires r.next == rest.next && r.events == SetSegment(p, Some(i)).events + rest.events
    requires CursorsFit(p.(current := Some(i)), i + 1, rest)
    ensures CursorsFit(p, i, r)
  {
    var q := p.(current := Some(i));
    var e := SetSegment(p, Some(i));
    CursorsAppend(e.events, rest.events);
    assert Cursors(e.events) == (if p.listening && p.current != Some(i) then [i] else []) by {
      if p.listening && p.current != Some(i) {
        assert e.events[1..] == [];
      }
    }
    if rest.next.AwaitingSpeech? || rest.next.Finished? {
      var end := if rest.next.AwaitingSpeech? then rest.next.index + 1 else |p.script|;
      assert Moves(q, i + 1, end) == if p.listening then Range(i + 1, end) else [];
      MovesStep(p, i, end);
    }
  }

  /** Entering `i` and then moving through `i + 1 .. end - 1` moves through `i .. end - 1`. */
  lemma MovesStep(p: Player, i: int, end: int)
    requires i + 1 < end
    ensures Moves(p, i, end)
      == (if p.listening && p.current != Some(i) then [i] else []) + (if p.listening then Range(i + 1, end) else [])
  {
    if p.listening {
      assert Range(i, end) == [i] + Range(i + 1, end);
    }
  }

  lemma {:induction false} CursorsFrom(p: Player, i: int)
    requires !p.stopRequested && 0 <= i < |p.script|
    ensures CursorsFit(p, i, Run(p, i))
    decreases |p.script| - i
  {
    if !Skippable(p.script, p.voices, i) {
      CursorsRead(p, i);
    } else if i + 1 == |p.script| {
      CursorsSkipLast(p, i);
    } else {
      CursorsFrom(p.(current := Some(i)), i + 1);
      CursorsSkip(p, i);
    }
  }

  /**
   * The segment callbacks of a loop with no stop request: the indices from `i` in increasing
   * order, up to the segment it reads or to the end of the script.
   */
  lemma RunCursors(p: Player, i: int)
    requires !p.stopRequested && 0 <= i < |p.script|
    ensures var r := Run(p, i);
      (r.next.AwaitingSpeech? ==> i <= r.next.index && Cursors(r.events) == Moves(p, i, r.next.index + 1))
      && (r.next.Finished? ==> Cursors(r.events) == Moves(p, i, |p.script|))
  {
    CursorsFrom(p, i);
  }

  /**
   * `play(k)` with `k` before the start of the script moves the cursor there and throws when it
   * reads the missing segment, leaving the controller `playing` with no loop behind it.
   */
  lemma PlayBeforeStart(p: Player, k: int)
    requires p.state != Playing && |p.script| > 0 && k < 0
    ensures var r := Play(p, Some(k));
      r.next == Crashed && r.player.state == Playing && r.player.current == Some(k) && Requested(r.events) == []
  {
    var e := SetState(p.(stopRequested := false), Playing);
    var c := SetSegment(e.player, Some(k));
    Quiet(e.events);
    assert Requested(c.events) == [] by {
      if |c.events| > 0 {
        assert c.events[1..] == [];
      }
    }
    RequestedAppend(e.events, c.events);
  }

  /**
   * A pause while the loop waits at segment `j`: the cancel settles the request (the adapter
   * resolves on an interruption), the loop sees the stop request and leaves the paused
   * controller alone, and a later `play()` starts again at `j`.
   */
  lemma PauseKeepsPlace(p: Player, j: int)
    requires p.state == Playing && p.current == Some(j) && 0 <= j < |p.script|
    ensures var paused := Pause(p).player;
      var after := Resume(paused, j, Spoken);
      after == Step(paused, [], Finished)
      && paused.state == Paused && paused.current == Some(j)
      && Play(after.player, None) == Play(after.player, Some(j))
  {
  }

  /** Stopping twice does what stopping once does, and the second stop only cancels the engine. */
  lemma StopIdempotent(p: Player)
    ensures Stop(Stop(p).player).player == Stop(p).player
    ensures Stop(Stop(p).player).events == [EngineCancel]
  {
  }

  /** A seek while not playing leaves the controller paused at the index; `play()` starts there. */
  lemma SeekThenPlay(p: Player, index: int)
    requires 0 <= index < |p.script| && p.state != Playing
    ensures var q := Seek(p, index).player;
      Play(q, None) == Play(q, Some(index))
  {
  }
}
