/** ParseWebVTT (gowebvtt.go): the line-driven reader that skips to the
    WEBVTT header, then opens a scene on each time line, collects its
    transcript lines and hands it to AppendScene at the next blank line.
    The lines are those bufio.Scanner yields; reading them is not part of
    this model. */
module Parser {
  import opened Text
  import opened Timestamp
  import opened WebVtt

  /** The text at `a` is `w`. */
  predicate WordAt(l: string, a: nat, w: string) {
    a + |w| <= |l| && l[a..a + |w|] == w
  }

  /** RegHeader, `^\s*WEBVTT\s*`: WEBVTT after the leading white space; the
      trailing `\s*` matches anything, even nothing. */
  predicate IsHeaderLine(l: string) {
    WordAt(l, Span(l, 0, Space), "WEBVTT")
  }

  /** RegNote, `^\s*NOTE\s`: NOTE after the leading white space, then one
      white-space character. */
  predicate IsNoteLine(l: string) {
    var a := Span(l, 0, Space);
    WordAt(l, a, "NOTE") && a + 4 < |l| && IsSpace(l[a + 4])
  }

  /** RegTimestamp, `^\s*[0-9:.]+\s+-+>\s+[0-9:.]+\s*$`. Each class of the
      pattern is followed by one that shares no character with it, so the
      only way to match is to take every run whole; the scan below does
      that. */
  predicate IsTimestampLine(l: string) {
    var a := Span(l, 0, Space);
    var b := Span(l, a, TimeChar);
    var c := Span(l, b, Space);
    var d := Span(l, c, Dash);
    a < b && b < c && c < d && d < |l| && l[d] == '>'
    && var e := Span(l, d + 1, Space);
       var f := Span(l, e, TimeChar);
       d + 1 < e && e < f && Span(l, f, Space) == |l|
  }

  /** Go's zero Scene, and the scene the reader resets to. */
  const EmptyScene := Scene(0, 0, [], NoSceneOptions)

  /** A start above the previous end by more than this many milliseconds
      makes a "mute" scene for the gap. */
  const MuteGap := 50

  /** The reader's variables: isNote, isSubtext, scene, prevEndMilliSec and
      the scenes of the caption list. */
  datatype ParserState = ParserState(isNote: bool, isSubtext: bool, scene: Scene, prevEnd: U64, scenes: seq<Scene>)

  const Start := ParserState(false, false, EmptyScene, 0, [])

  /** How many lines the header loop consumes: up to and including the
      first header line, or all of them. */
  function HeaderEnd(lines: seq<string>): (h: nat)
    ensures h <= |lines|
    ensures (1 <= h && IsHeaderLine(lines[h - 1]))
            || (h == |lines| && forall j :: 0 <= j < |lines| ==> !IsHeaderLine(lines[j]))
    ensures forall j :: 0 <= j < h - 1 ==> !IsHeaderLine(lines[j])
  {
    if lines == [] then 0
    else if IsHeaderLine(lines[0]) then 1
    else 1 + HeaderEnd(lines[1..])
  }

  /** One round of the second loop: what each kind of line does to the
      reader's variables. */
  function Step(st: ParserState, line: string, opts: VttOptions, w: Wrapping): ParserState
    requires opts.enabled ==> opts.maxLinesPerScene != 0
    requires w.split ==> w.maxTokens >= 1
  {
    if line == "" then
      if st.isNote then st.(isNote := false)
      else if st.isSubtext then
        st.(isSubtext := false, scenes := st.scenes + Appended(opts, st.scene),
            prevEnd := st.scene.end, scene := EmptyScene)
      else st
    else if IsNoteLine(line) then st.(isNote := true)
    else if st.isSubtext then st.(scene := st.scene.(transcript := st.scene.transcript + SubtextLines(line, w)))
    else if IsTimestampLine(line) then
      var tr := GetTimeRange(line);
      var mute := Scene(st.prevEnd, tr.start, [], NoSceneOptions);
      st.(scene := st.scene.(start := tr.start, end := tr.end), isSubtext := true,
          scenes := if Sub64(tr.start, st.prevEnd) > MuteGap then st.scenes + Appended(opts, mute) else st.scenes)
    else st
  }

  /** The state after a run of lines. */
  function Steps(st: ParserState, ls: seq<string>, opts: VttOptions, w: Wrapping): ParserState
    requires opts.enabled ==> opts.maxLinesPerScene != 0
    requires w.split ==> w.maxTokens >= 1
  {
    if ls == [] then st else Step(Steps(st, ls[..|ls| - 1], opts, w), ls[|ls| - 1], opts, w)
  }

  /** The scenes once the input ends: a pending scene goes in as it is. */
  function Finish(st: ParserState): seq<Scene> {
    if st.isSubtext then st.scenes + [st.scene] else st.scenes
  }

  /** The caption list ParseWebVTT builds from the lines. */
  function Parse(lines: seq<string>, opts: VttOptions, w: Wrapping): seq<Scene>
    requires opts.enabled ==> opts.maxLinesPerScene != 0
    requires w.split ==> w.maxTokens >= 1
  {
    Finish(Steps(Start, lines[HeaderEnd(lines)..], opts, w))
  }

  lemma StepsLast(st: ParserState, lines: seq<string>, h: nat, p: nat, opts: VttOptions, w: Wrapping)
    requires opts.enabled ==> opts.maxLinesPerScene != 0
    requires w.split ==> w.maxTokens >= 1
    requires h <= p < |lines|
    ensures Steps(st, lines[h..p + 1], opts, w) == Step(Steps(st, lines[h..p], opts, w), lines[p], opts, w)
  {
    var t := lines[h..p + 1];
    assert |t| == p - h + 1 && t[|t| - 1] == lines[p];
    assert t[..|t| - 1] == lines[h..p];
  }

  /** ParseWebVTT's first loop: scan up to and including the header line. */
  method SkipHeader(lines: seq<string>) returns (pos: nat)
    ensures pos == HeaderEnd(lines)
  {
    pos := 0;
    while pos < |lines|
      invariant 0 <= pos <= |lines|
      invariant HeaderEnd(lines) == pos + HeaderEnd(lines[pos..])
    {
      var line := lines[pos];
      assert lines[pos..][1..] == lines[pos + 1..];
      pos := pos + 1;
      if IsHeaderLine(line) {
        break;
      }
    }
    assert pos == HeaderEnd(lines) by {
      if pos == |lines| {
        assert lines[pos..] == [];
      }
    }
  }

  /** ParseWebVTT, with the options of the caption list and the word-wrap
      switches passed in. */
  method ParseWebVTT(lines: seq<string>, opts: VttOptions, w: Wrapping) returns (vtt: Vtt)
    requires opts.enabled ==> opts.maxLinesPerScene != 0
    requires w.split ==> w.maxTokens >= 1
    ensures fresh(vtt) && vtt.options == opts
    ensures vtt.scenes == Parse(lines, opts, w)
  {
    vtt := new Vtt(opts);
    var pos := SkipHeader(lines);
    var isNote, isSubtext := false, false;
    var scene := EmptyScene;
    var prevEnd: U64 := 0;
    ghost var h := pos;
    while pos < |lines|
      invariant h <= pos <= |lines|
      invariant vtt.options == opts
      invariant ParserState(isNote, isSubtext, scene, prevEnd, vtt.scenes) == Steps(Start, lines[h..pos], opts, w)
    {
      var line := lines[pos];
      StepsLast(Start, lines, h, pos, opts, w);
      if line == "" {
        if isNote {
          isNote := false;
        } else if isSubtext {
          isSubtext := false;
          var _ := vtt.AppendScene(scene);
          prevEnd := scene.end;
          scene := EmptyScene;
        }
      } else if IsNoteLine(line) {
        isNote := true;
      } else if isSubtext {
        scene := ProcessSubtext(scene, line, w);
      } else if IsTimestampLine(line) {
        var tr := GetTimeRange(line);
        scene := scene.(start := tr.start, end := tr.end);
        if Sub64(scene.start, prevEnd) > MuteGap {
          var muteScene := Scene(prevEnd, scene.start, [], NoSceneOptions);
          var _ := vtt.AppendScene(muteScene);
        }
        isSubtext := true;
      }
      pos := pos + 1;
    }
    assert lines[h..pos] == lines[HeaderEnd(lines)..];
    if isSubtext {
      vtt.scenes := vtt.scenes + [scene];
    }
  }
}
