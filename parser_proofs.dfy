/** What the reader promises: the header and everything before it are
    skipped, the scenes AppendScene keeps all have lines while the one
    flushed at the end need not, lines inside a cue are text whatever they
    look like, and reading a rendered caption list gives the list back. */
module ParserProofs {
  import opened Text
  import opened Timestamp
  import opened TimestampProofs
  import opened TimestampCodec
  import opened WebVtt
  import opened WebVttProofs
  import opened Parser

  // ---------------------------------------------------------------------
  // Runs of lines
  // ---------------------------------------------------------------------

  lemma {:induction false} StepsConcat(st: ParserState, a: seq<string>, b: seq<string>, opts: VttOptions, w: Wrapping)
    requires opts.enabled ==> opts.maxLinesPerScene != 0
    requires w.split ==> w.maxTokens >= 1
    ensures Steps(st, a + b, opts, w) == Steps(Steps(st, a, opts, w), b, opts, w)
    decreases |b|
  {
    if b == [] {
      assert a + b == a;
    } else {
      assert (a + b)[..|a + b| - 1] == a + b[..|b| - 1];
      StepsConcat(st, a, b[..|b| - 1], opts, w);
    }
  }

  // ---------------------------------------------------------------------
  // The header
  // ---------------------------------------------------------------------

  lemma {:induction false} HeaderEndAfter(pre: seq<string>, hdr: string, rest: seq<string>)
    requires forall j :: 0 <= j < |pre| ==> !IsHeaderLine(pre[j])
    requires IsHeaderLine(hdr)
    ensures HeaderEnd(pre + [hdr] + rest) == |pre| + 1
    decreases |pre|
  {
    var ls := pre + [hdr] + rest;
    if pre == [] {
      assert ls[0] == hdr;
    } else {
      assert ls[0] == pre[0];
      assert ls[1..] == pre[1..] + [hdr] + rest;
      HeaderEndAfter(pre[1..], hdr, rest);
    }
  }

  /** The lines up to and including the first header line have no effect
      on the result. */
  lemma HeaderSkip(pre: seq<string>, hdr: string, rest: seq<string>, opts: VttOptions, w: Wrapping)
    requires opts.enabled ==> opts.maxLinesPerScene != 0
    requires w.split ==> w.maxTokens >= 1
    requires forall j :: 0 <= j < |pre| ==> !IsHeaderLine(pre[j])
    requires IsHeaderLine(hdr)
    ensures Parse(pre + [hdr] + rest, opts, w) == Parse(["WEBVTT"] + rest, opts, w)
    ensures Parse(pre + [hdr] + rest, opts, w) == Finish(Steps(Start, rest, opts, w))
  {
    HeaderEndAfter(pre, hdr, rest);
    HeaderEndAfter([], "WEBVTT", rest);
    assert (pre + [hdr] + rest)[|pre| + 1..] == rest;
    assert ([] + ["WEBVTT"] + rest) == ["WEBVTT"] + rest;
    assert (["WEBVTT"] + rest)[1..] == rest;
  }

  /** Without a header line the caption list is empty. */
  lemma NoHeader(lines: seq<string>, opts: VttOptions, w: Wrapping)
    requires opts.enabled ==> opts.maxLinesPerScene != 0
    requires w.split ==> w.maxTokens >= 1
    requires forall j :: 0 <= j < |lines| ==> !IsHeaderLine(lines[j])
    ensures Parse(lines, opts, w) == []
  {
    assert lines[|lines|..] == [];
  }

  // ---------------------------------------------------------------------
  // Kinds of lines
  // ---------------------------------------------------------------------

  /** A time line is neither blank nor a NOTE line. */
  lemma TimestampNotNote(l: string)
    requires IsTimestampLine(l)
    ensures l != "" && !IsNoteLine(l)
  {
    var a := Span(l, 0, Space);
    SpanFacts(l, a, TimeChar);
    assert InClass(l[a], TimeChar);
    if a + 4 <= |l| {
      assert l[a..a + 4][0] == l[a];
    }
  }

  /** While a cue is open, a line that looks like a time line is still a
      transcript line: the time range stays as it was. */
  lemma CueLineIsText(st: ParserState, line: string, opts: VttOptions, w: Wrapping)
    requires opts.enabled ==> opts.maxLinesPerScene != 0
    requires w.split ==> w.maxTokens >= 1
    requires st.isSubtext && IsTimestampLine(line)
    ensures Step(st, line, opts, w) == st.(scene := st.scene.(transcript := st.scene.transcript + SubtextLines(line, w)))
  {
    TimestampNotNote(line);
  }

  /** A NOTE line inside a cue, and the blank line after it, leave the cue
      open: that blank line only ends the note. */
  lemma NoteInCue(st: ParserState, note: string, opts: VttOptions, w: Wrapping)
    requires opts.enabled ==> opts.maxLinesPerScene != 0
    requires w.split ==> w.maxTokens >= 1
    requires st.isSubtext && !st.isNote && IsNoteLine(note)
    ensures Steps(st, [note, ""], opts, w) == st
  {
    assert note != "";
    assert [note, ""][..1] == [note];
    assert [note][..0] == [];
    assert Steps(st, [note], opts, w) == st.(isNote := true);
  }

  /** After a NOTE line outside a cue, a time line still opens a cue: the
      note's body is not skipped. */
  lemma NoteBodyRead(st: ParserState, line: string, opts: VttOptions, w: Wrapping)
    requires opts.enabled ==> opts.maxLinesPerScene != 0
    requires w.split ==> w.maxTokens >= 1
    requires st.isNote && !st.isSubtext && IsTimestampLine(line)
    ensures Step(st, line, opts, w).isSubtext
    ensures Step(st, line, opts, w).scene.start == GetTimeRange(line).start
    ensures Step(st, line, opts, w).scene.end == GetTimeRange(line).end
  {
    TimestampNotNote(line);
  }

  /** A time line never adds a scene: the mute scene for a gap has no
      lines, so AppendScene refuses it. */
  lemma MuteDropped(st: ParserState, line: string, opts: VttOptions, w: Wrapping)
    requires opts.enabled ==> opts.maxLinesPerScene != 0
    requires w.split ==> w.maxTokens >= 1
    requires !st.isSubtext && IsTimestampLine(line)
    ensures Step(st, line, opts, w).scenes == st.scenes
  {
    TimestampNotNote(line);
    var tr := GetTimeRange(line);
    assert Appended(opts, Scene(st.prevEnd, tr.start, [], NoSceneOptions)) == [];
  }

  /** A blank line closes the open cue: the scene goes to AppendScene, the
      previous end becomes its end even when AppendScene refuses it, and the
      zero scene waits for the next cue. */
  lemma BlankClosesCue(st: ParserState, opts: VttOptions, w: Wrapping)
    requires opts.enabled ==> opts.maxLinesPerScene != 0
    requires w.split ==> w.maxTokens >= 1
    requires st.isSubtext && !st.isNote
    ensures var r := Step(st, "", opts, w);
            !r.isSubtext && !r.isNote && r.scene == EmptyScene && r.prevEnd == st.scene.end
            && r.scenes == st.scenes + Appended(opts, st.scene)
            && (Admissible(st.scene) <==> |r.scenes| > |st.scenes|)
  {
    AppendedScenes(opts, st.scene);
  }

  // ---------------------------------------------------------------------
  // The scenes that are kept
  // ---------------------------------------------------------------------

  /** Every scene that goes through AppendScene has lines. */
  lemma {:induction false} StepsKeepLines(st: ParserState, ls: seq<string>, opts: VttOptions, w: Wrapping)
    requires opts.enabled ==> opts.maxLinesPerScene != 0
    requires w.split ==> w.maxTokens >= 1
    requires AllHaveLines(st.scenes)
    ensures AllHaveLines(Steps(st, ls, opts, w).scenes)
    decreases |ls|
  {
    if ls != [] {
      StepsKeepLines(st, ls[..|ls| - 1], opts, w);
      var p := Steps(st, ls[..|ls| - 1], opts, w);
      var line := ls[|ls| - 1];
      AppendKeepsLines(opts, p.scenes, p.scene);
      AppendKeepsLines(opts, p.scenes, Scene(p.prevEnd, GetTimeRange(line).start, [], NoSceneOptions));
    }
  }

  /** The scene pending when the input ends goes in unchecked: a lone time
      line yields its scene with no lines, even when it has zero length. */
  lemma PendingSceneKept(s: Scene, opts: VttOptions, w: Wrapping)
    requires opts.enabled ==> opts.maxLinesPerScene != 0
    requires w.split ==> w.maxTokens >= 1
    requires FormatOf(s.start) == FormatOf(s.end)
    ensures Parse(["WEBVTT", TimeLine(s)], opts, w) == [Scene(s.start, s.end, [], NoSceneOptions)]
  {
    var tl := TimeLine(s);
    HeaderSkip([], "WEBVTT", [tl], opts, w);
    assert [] + ["WEBVTT"] + [tl] == ["WEBVTT", tl];
    assert Steps(Start, [tl], opts, w) == Step(Start, tl, opts, w);
    TimeLineReadsBack(s);
    OpenCue(Start, tl, opts, w);
  }

  /** Outside a cue, a time line opens one with its range and adds no scene. */
  lemma OpenCue(st: ParserState, line: string, opts: VttOptions, w: Wrapping)
    requires opts.enabled ==> opts.maxLinesPerScene != 0
    requires w.split ==> w.maxTokens >= 1
    requires !st.isSubtext && IsTimestampLine(line)
    ensures var tr := GetTimeRange(line);
            Step(st, line, opts, w) == st.(scene := st.scene.(start := tr.start, end := tr.end), isSubtext := true)
  {
    TimestampNotNote(line);
    MuteDropped(st, line, opts, w);
  }

  /** Every scene of the result but the last has lines; the last may not,
      for the scene pending when the input ends is appended without
      AppendScene's checks. */
  lemma ParsedScenesHaveLines(lines: seq<string>, opts: VttOptions, w: Wrapping)
    requires opts.enabled ==> opts.maxLinesPerScene != 0
    requires w.split ==> w.maxTokens >= 1
    ensures var ss := Parse(lines, opts, w);
            forall j :: 0 <= j < |ss| - 1 ==> |ss[j].transcript| >= 1
  {
    var st := Steps(Start, lines[HeaderEnd(lines)..], opts, w);
    StepsKeepLines(Start, lines[HeaderEnd(lines)..], opts, w);
    var ss := Finish(st);
    forall j | 0 <= j < |ss| - 1
      ensures |ss[j].transcript| >= 1
    {
      assert ss[j] == st.scenes[j];
    }
  }

  // ---------------------------------------------------------------------
  // Time lines as String writes them
  // ---------------------------------------------------------------------

  lemma {:induction false} ComposeTimeChars(fields: seq<string>, seps: seq<char>)
    requires |fields| == |seps| + 1 && Numerals(fields)
    requires forall k :: 0 <= k < |seps| ==> seps[k] == ':' || seps[k] == '.'
    ensures AllIn(Compose(fields, seps), TimeChar)
    decreases |seps|
  {
    assert Numeral(fields[0]);
    if seps != [] {
      assert Numerals(fields[1..]) by {
        forall k | 0 <= k < |fields[1..]| ensures Numeral(fields[1..][k]) {
          assert fields[1..][k] == fields[k + 1];
        }
      }
      ComposeTimeChars(fields[1..], seps[1..]);
      var c := Compose(fields, seps);
      var rest := Compose(fields[1..], seps[1..]);
      assert c == fields[0] + [seps[0]] + rest;
      forall k | 0 <= k < |c| ensures InClass(c[k], TimeChar) {
        if k < |fields[0]| {
          assert c[k] == fields[0][k];
        } else if k > |fields[0]| {
          assert c[k] == rest[k - |fields[0]| - 1];
        }
      }
    }
  }

  /** MillsecToVTTTimeString writes digits, colons and a dot, starting
      with a digit. */
  lemma FormatChars(ms: U64)
    ensures |FormatMillis(ms)| >= 1 && IsDigit(FormatMillis(ms)[0])
    ensures AllIn(FormatMillis(ms), TimeChar)
  {
    FormatIsCompose(ms);
    ComposeStartsWithDigit(Fields(ms), Separators(FormatOf(ms)));
    ComposeTimeChars(Fields(ms), Separators(FormatOf(ms)));
  }

  /** Two runs of digits, colons and dots around ` --> `, each starting
      with a digit, make a time line. */
  lemma ArrowLineKind(c1: string, c2: string)
    requires |c1| >= 1 && IsDigit(c1[0]) && AllIn(c1, TimeChar)
    requires |c2| >= 1 && IsDigit(c2[0]) && AllIn(c2, TimeChar)
    ensures IsTimestampLine(c1 + " --> " + c2)
  {
    var l := c1 + " --> " + c2;
    var o := |c1|;
    assert forall i :: 0 <= i < o ==> l[i] == c1[i];
    assert l[o] == ' ' && l[o + 1] == '-' && l[o + 2] == '-' && l[o + 3] == '>' && l[o + 4] == ' ';
    assert forall i :: 0 <= i < |c2| ==> l[o + 5 + i] == c2[i];
    assert |l| == o + 5 + |c2|;
    SpanIs(l, 0, 0, Space);
    SpanIs(l, 0, o, TimeChar);
    SpanIs(l, o, o + 1, Space);
    SpanIs(l, o + 1, o + 3, Dash);
    SpanIs(l, o + 4, o + 5, Space);
    forall k | o + 5 <= k < |l| ensures InClass(l[k], TimeChar) {
      assert l[k] == c2[k - o - 5];
    }
    SpanIs(l, o + 5, |l|, TimeChar);
  }

  /** A time line is recognised as one, and it is neither blank nor a NOTE
      line. */
  lemma TimeLineKind(s: Scene)
    ensures IsTimestampLine(TimeLine(s)) && !IsNoteLine(TimeLine(s)) && TimeLine(s) != ""
  {
    FormatChars(s.start);
    FormatChars(s.end);
    ArrowLineKind(FormatMillis(s.start), FormatMillis(s.end));
    TimestampNotNote(TimeLine(s));
  }

  // ---------------------------------------------------------------------
  // Reading a rendered caption list
  // ---------------------------------------------------------------------

  /** A scene's lines as String writes them: a blank line, its time line
      (written by `tl`; String uses TimeLine), its transcript. */
  function Block(tl: Scene -> string, s: Scene): seq<string> {
    ["", tl(s)] + s.transcript
  }

  function Blocks(tl: Scene -> string, ss: seq<Scene>): seq<string> {
    if ss == [] then [] else Blocks(tl, ss[..|ss| - 1]) + Block(tl, ss[|ss| - 1])
  }

  /** String's output cut into lines (without their newlines). */
  function RenderLines(ss: seq<Scene>): seq<string> {
    ["WEBVTT"] + Blocks(TimeLine, ss)
  }

  lemma {:induction false} LinesAppend(a: seq<string>, b: seq<string>)
    ensures Lines(a + b) == Lines(a) + Lines(b)
    decreases |b|
  {
    if b == [] {
      assert a + b == a;
    } else {
      assert (a + b)[..|a + b| - 1] == a + b[..|b| - 1];
      LinesAppend(a, b[..|b| - 1]);
    }
  }

  lemma {:induction false} BlocksText(ss: seq<Scene>)
    requires AllHaveLines(ss)
    ensures Lines(Blocks(TimeLine, ss)) == RenderScenes(ss)
    decreases |ss|
  {
    if ss != [] {
      var s := ss[|ss| - 1];
      assert AllHaveLines(ss[..|ss| - 1]);
      BlocksText(ss[..|ss| - 1]);
      LinesAppend(Blocks(TimeLine, ss[..|ss| - 1]), Block(TimeLine, s));
      BlockText(s);
    }
  }

  lemma BlockText(s: Scene)
    requires |s.transcript| >= 1
    ensures Lines(Block(TimeLine, s)) == RenderScene(s)
  {
    LinesBlock(TimeLine(s), s.transcript);
  }

  lemma LinesBlock(tl: string, t: seq<string>)
    ensures Lines(["", tl] + t) == "\n" + tl + "\n" + Lines(t)
  {
    LinesAppend(["", tl], t);
    assert ["", tl][..1] == [""];
    assert [""][..0] == [];
  }

  /** String's output is its lines, each with a newline. */
  lemma RenderIsLines(ss: seq<Scene>)
    requires AllHaveLines(ss)
    ensures Render(ss) == Lines(RenderLines(ss))
  {
    BlocksText(ss);
    LinesAppend(["WEBVTT"], Blocks(TimeLine, ss));
  }

  /** A transcript line the reader takes as text: not blank, not NOTE,
      and one line as the line scanner splits them (no newline inside,
      no carriage return at the end, which the scanner would drop). */
  predicate TextLine(l: string) {
    l != "" && !IsNoteLine(l) && '\n' !in l && l[|l| - 1] != '\r'
  }

  /** A scene the reader gives back as it was written: lines that are
      text, both times in the same form (MillsecToVTTTimeString switches
      to hours at one hour, and getTimeRange reads both ends in one form),
      and the reader's own zero scene options. */
  predicate Readable(s: Scene) {
    |s.transcript| >= 1
    && (forall i :: 0 <= i < |s.transcript| ==> TextLine(s.transcript[i]))
    && FormatOf(s.start) == FormatOf(s.end)
    && s.options == NoSceneOptions
  }

  /** A caption list that reads back as itself: every scene Readable;
      every scene but the last (which is flushed unchecked) accepted by
      AppendScene and not split; no word wrap. */
  predicate RoundTrips(ss: seq<Scene>, opts: VttOptions, w: Wrapping) {
    !w.split
    && (forall j :: 0 <= j < |ss| ==> Readable(ss[j]))
    && (forall j :: 0 <= j < |ss| - 1 ==>
          Admissible(ss[j]) && (!opts.enabled || |ss[j].transcript| <= opts.maxLinesPerScene))
  }

  /** `tl` writes a time line that reads as the scene's own range. */
  predicate ReadsBack(tl: Scene -> string, s: Scene) {
    IsTimestampLine(tl(s)) && GetTimeRange(tl(s)) == TimeRange(s.start, s.end, None)
  }

  /** TimeLine writes such a line for a scene whose ends are in one form. */
  lemma TimeLineReadsBack(s: Scene)
    requires FormatOf(s.start) == FormatOf(s.end)
    ensures ReadsBack(TimeLine, s)
  {
    TimeLineKind(s);
    RangeRoundTrip(s.start, s.end);
  }

  /** Transcript lines while a cue is open are appended one by one. */
  lemma {:induction false} TextSteps(st: ParserState, t: seq<string>, opts: VttOptions, w: Wrapping)
    requires opts.enabled ==> opts.maxLinesPerScene != 0
    requires !w.split && st.isSubtext
    requires forall i :: 0 <= i < |t| ==> TextLine(t[i])
    ensures Steps(st, t, opts, w) == st.(scene := st.scene.(transcript := st.scene.transcript + t))
    decreases |t|
  {
    if t == [] {
      assert st.scene.transcript + t == st.scene.transcript;
    } else {
      var t0 := t[..|t| - 1];
      TextSteps(st, t0, opts, w);
      assert TextLine(t[|t| - 1]);
      assert st.scene.transcript + t0 + [t[|t| - 1]] == st.scene.transcript + t;
    }
  }

  /** The reader's state between cues: no note, and the zero scene when no
      cue is open. */
  predicate Between(st: ParserState) {
    !st.isNote && (!st.isSubtext ==> st.scene == EmptyScene)
  }

  /** Reading a scene's block: the open cue, if any, goes to AppendScene,
      and the block's scene is the new open cue. */
  lemma BlockSteps(st: ParserState, tl: Scene -> string, s: Scene, opts: VttOptions, w: Wrapping)
    requires opts.enabled ==> opts.maxLinesPerScene != 0
    requires !w.split && Between(st) && Readable(s) && ReadsBack(tl, s)
    ensures Steps(st, Block(tl, s), opts, w)
            == ParserState(false, true, s,
                           if st.isSubtext then st.scene.end else st.prevEnd,
                           if st.isSubtext then st.scenes + Appended(opts, st.scene) else st.scenes)
  {
    var line := tl(s);
    StepsConcat(st, ["", line], s.transcript, opts, w);
    var st1 := Step(st, "", opts, w);
    assert Steps(st, ["", line], opts, w) == Step(st1, line, opts, w) by {
      assert ["", line][..1] == [""];
      assert [""][..0] == [];
      assert Steps(st, [""], opts, w) == st1;
    }
    var st2 := Step(st1, line, opts, w);
    assert st2 == ParserState(false, true, Scene(s.start, s.end, [], NoSceneOptions), st1.prevEnd, st1.scenes) by {
      MuteDropped(st1, line, opts, w);
      TimestampNotNote(line);
    }
    TextSteps(st2, s.transcript, opts, w);
    assert [] + s.transcript == s.transcript;
  }

  /** The reader's state after the blocks of a caption list that round
      trips: its last scene is the open cue, the others have been
      appended. */
  function Reading(ss: seq<Scene>): ParserState
    requires ss != []
  {
    ParserState(false, true, ss[|ss| - 1], if |ss| >= 2 then ss[|ss| - 2].end else 0, ss[..|ss| - 1])
  }

  lemma {:induction false} BlocksSteps(tl: Scene -> string, ss: seq<Scene>, opts: VttOptions, w: Wrapping)
    requires opts.enabled ==> opts.maxLinesPerScene != 0
    requires RoundTrips(ss, opts, w) && ss != []
    requires forall s | Readable(s) :: ReadsBack(tl, s)
    ensures Steps(Start, Blocks(tl, ss), opts, w) == Reading(ss)
    decreases |ss|
  {
    if |ss| == 1 {
      FirstBlockSteps(tl, ss, opts, w);
    } else {
      var front := ss[..|ss| - 1];
      assert RoundTrips(front, opts, w) by {
        assert forall j :: 0 <= j < |front| ==> front[j] == ss[j];
      }
      BlocksSteps(tl, front, opts, w);
      NextBlockSteps(tl, ss, opts, w);
    }
  }

  lemma FirstBlockSteps(tl: Scene -> string, ss: seq<Scene>, opts: VttOptions, w: Wrapping)
    requires opts.enabled ==> opts.maxLinesPerScene != 0
    requires RoundTrips(ss, opts, w) && |ss| == 1
    requires forall s | Readable(s) :: ReadsBack(tl, s)
    ensures Steps(Start, Blocks(tl, ss), opts, w) == Reading(ss)
  {
    assert Blocks(tl, ss) == Block(tl, ss[0]) by {
      assert Blocks(tl, ss[..0]) == [];
      assert [] + Block(tl, ss[0]) == Block(tl, ss[0]);
    }
    assert Readable(ss[0]);
    BlockSteps(Start, tl, ss[0], opts, w);
  }

  /** Blocks one scene at a time. */
  lemma BlocksSnoc(tl: Scene -> string, ss: seq<Scene>, opts: VttOptions, w: Wrapping)
    requires opts.enabled ==> opts.maxLinesPerScene != 0
    requires !w.split && ss != []
    ensures Steps(Start, Blocks(tl, ss), opts, w)
            == Steps(Steps(Start, Blocks(tl, ss[..|ss| - 1]), opts, w), Block(tl, ss[|ss| - 1]), opts, w)
  {
    StepsConcat(Start, Blocks(tl, ss[..|ss| - 1]), Block(tl, ss[|ss| - 1]), opts, w);
  }

  /** The step of BlocksSteps: the open cue is appended and the next
      block's scene becomes the open cue. */
  lemma NextBlockSteps(tl: Scene -> string, ss: seq<Scene>, opts: VttOptions, w: Wrapping)
    requires opts.enabled ==> opts.maxLinesPerScene != 0
    requires RoundTrips(ss, opts, w) && |ss| >= 2
    requires forall s | Readable(s) :: ReadsBack(tl, s)
    requires Steps(Start, Blocks(tl, ss[..|ss| - 1]), opts, w) == Reading(ss[..|ss| - 1])
    ensures Steps(Start, Blocks(tl, ss), opts, w) == Reading(ss)
  {
    var n := |ss|;
    var front := ss[..n - 1];
    assert ss == front + [ss[n - 1]] by {
      Unsnoc(ss);
    }
    assert Appended(opts, front[n - 2]) == [front[n - 2]] by {
      assert front[n - 2] == ss[n - 2];
      assert Admissible(ss[n - 2]) && (!opts.enabled || |ss[n - 2].transcript| <= opts.maxLinesPerScene);
    }
    assert Readable(ss[n - 1]);
    BlocksSnoc(tl, ss, opts, w);
    ReadingStep(tl, front, ss[n - 1], opts, w);
  }

  lemma ReadingStep(tl: Scene -> string, front: seq<Scene>, s: Scene, opts: VttOptions, w: Wrapping)
    requires opts.enabled ==> opts.maxLinesPerScene != 0
    requires !w.split && front != [] && Readable(s) && ReadsBack(tl, s)
    requires Appended(opts, front[|front| - 1]) == [front[|front| - 1]]
    ensures Steps(Reading(front), Block(tl, s), opts, w) == Reading(front + [s])
  {
    var n := |front|;
    BlockSteps(Reading(front), tl, s, opts, w);
    assert front[..n - 1] + [front[n - 1]] == front by {
      Snoc(front, n);
    }
    assert (front + [s])[..n] == front;
  }

  lemma Unsnoc<T>(s: seq<T>)
    requires s != []
    ensures s == s[..|s| - 1] + [s[|s| - 1]]
  {
  }

  lemma Snoc<T>(s: seq<T>, i: nat)
    requires 1 <= i <= |s|
    ensures s[..i - 1] + [s[i - 1]] == s[..i]
  {
  }

  /** Reading what String writes gives the caption list back. */
  lemma ParseRender(ss: seq<Scene>, opts: VttOptions, w: Wrapping)
    requires opts.enabled ==> opts.maxLinesPerScene != 0
    requires RoundTrips(ss, opts, w)
    ensures Parse(RenderLines(ss), opts, w) == ss
  {
    RenderedHeader(ss, opts, w);
    if ss != [] {
      TimeLinesReadBack();
      BlocksSteps(TimeLine, ss, opts, w);
      FinishReading(ss);
    }
  }

  lemma RenderedHeader(ss: seq<Scene>, opts: VttOptions, w: Wrapping)
    requires opts.enabled ==> opts.maxLinesPerScene != 0
    requires w.split ==> w.maxTokens >= 1
    ensures Parse(RenderLines(ss), opts, w) == Finish(Steps(Start, Blocks(TimeLine, ss), opts, w))
  {
    HeaderSkip([], "WEBVTT", Blocks(TimeLine, ss), opts, w);
    assert [] + ["WEBVTT"] + Blocks(TimeLine, ss) == RenderLines(ss);
  }

  lemma TimeLinesReadBack()
    ensures forall s | Readable(s) :: ReadsBack(TimeLine, s)
  {
    forall s | Readable(s) ensures ReadsBack(TimeLine, s) {
      TimeLineReadsBack(s);
    }
  }

  lemma FinishReading(ss: seq<Scene>)
    requires ss != []
    ensures Finish(Reading(ss)) == ss
  {
    Unsnoc(ss);
  }
}
