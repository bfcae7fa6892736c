/**
 * A generated podcast script: a title, a hook and the segments a speaker reads out. The export,
 * download and playback code all read it.
 */
module Script {
  import opened Outcomes

  /**
   * One line of the script. `editedLine` is the user's edit of `line`; the older segment type
   * also carries a sound-effect note.
   */
  datatype Segment = Segment(
    speaker: string,
    line: string,
    sfx: Option<string>,
    editedLine: Option<string>,
    rate: Option<real>,
    pitch: Option<real>,
    volume: Option<real>)

  datatype GeneratedScript = GeneratedScript(id: string, title: string, hook: string, segments: seq<Segment>)

  /** `segment.editedLine ?? segment.line`: an edit, even an empty one, replaces the line. */
  function SpokenText(s: Segment): (t: string)
    ensures s.editedLine.Some? ==> t == s.editedLine.value
    ensures s.editedLine.None? ==> t == s.line
  {
    s.editedLine.GetOr(s.line)
  }
}
