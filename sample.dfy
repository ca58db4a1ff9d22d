/** The caption list of the repository's own parser test
    (gowebvtt_test.go): three cues, the second with two lines. */
module Sample {
  import opened Text
  import opened Timestamp
  import opened WebVtt
  import opened WebVttProofs
  import opened Parser
  import opened ParserProofs

  const Text1 := "This is subtitle at 1sec to 4sec."
  const Text2a := "— These are split subtitles" + " from marker of 5sec."
  const Text2b := "— Upto 9sec, split equally."
  const Text3 := "The text could be as longs"
    + " as you want or as small" + " as you want, file starts" + " with WEBVTT marker."
    + " Can hold comments" + " starting with NOTE."
    + " The lines above with -->" + " are time markers for when" + " subtitles need to be" + " displayed."

  const SampleScenes: seq<Scene> := [
    Scene(1000, 4000, [Text1], NoSceneOptions),
    Scene(5000, 9000, [Text2a, Text2b], NoSceneOptions),
    Scene(10000, 14000, [Text3], NoSceneOptions)
  ]

  /** The sample file, line by line. */
  const SampleLines: seq<string> := [
    "WEBVTT",
    "",
    "00:01.000 --> 00:04.000",
    Text1,
    "",
    "00:05.000 --> 00:09.000",
    Text2a,
    Text2b,
    "",
    "00:10.000 --> 00:14.000",
    Text3
  ]

  /** ParseWebVTT with zero VttOptions, as the test calls it. */
  const ZeroOptions := VttOptions(false, 0, NoSceneOptions)

  lemma PadOne(n: nat)
    requires n < 10
    ensures PadDecimal(n, 2) == ['0', DigitChar(n)]
    ensures PadDecimal(n, 3) == ['0', '0', DigitChar(n)]
  {
    assert Decimal(n) == [DigitChar(n)];
    assert Zeros(1) == "0";
    assert Zeros(2) == "00";
  }

  lemma PadTwo(n: nat)
    requires 10 <= n < 100
    ensures PadDecimal(n, 2) == [DigitChar(n / 10), DigitChar(n % 10)]
  {
    assert Decimal(n / 10) == [DigitChar(n / 10)];
    assert Zeros(0) == "";
  }

  /** MillsecToVTTTimeString on a whole number of seconds under a minute. */
  lemma WholeSeconds(sec: nat)
    requires sec < 60
    ensures FormatMillis(sec * 1000) == ['0', '0', ':', DigitChar(sec / 10), DigitChar(sec % 10), '.', '0', '0', '0']
  {
    var ms := sec * 1000;
    assert ms / 1000 == sec && ms % 1000 == 0;
    assert sec / 60 == 0 && sec % 60 == sec;
    PadOne(0);
    if sec < 10 {
      PadOne(sec);
    } else {
      PadTwo(sec);
    }
  }

  lemma Sec1() ensures FormatMillis(1000) == "00:01.000" { WholeSeconds(1); }
  lemma Sec4() ensures FormatMillis(4000) == "00:04.000" { WholeSeconds(4); }
  lemma Sec5() ensures FormatMillis(5000) == "00:05.000" { WholeSeconds(5); }
  lemma Sec9() ensures FormatMillis(9000) == "00:09.000" { WholeSeconds(9); }
  lemma Sec10() ensures FormatMillis(10000) == "00:10.000" { WholeSeconds(10); }
  lemma Sec14() ensures FormatMillis(14000) == "00:14.000" { WholeSeconds(14); }

  lemma TimeLineIs(s: Scene, x: string, y: string)
    requires FormatMillis(s.start) == x && FormatMillis(s.end) == y
    ensures TimeLine(s) == x + " --> " + y
  {
  }

  lemma BlocksThree(tl: Scene -> string, ss: seq<Scene>)
    requires |ss| == 3
    ensures Blocks(tl, ss) == Block(tl, ss[0]) + Block(tl, ss[1]) + Block(tl, ss[2])
  {
    assert ss[..2][..1] == ss[..1] && ss[..1][..0] == [] && ss[..3] == ss;
    assert ss[..2][1] == ss[1] && ss[..1][0] == ss[0];
    assert Blocks(tl, ss[..1]) == Block(tl, ss[0]);
  }

  lemma BlockIs(s: Scene, line: string)
    requires TimeLine(s) == line
    ensures Block(TimeLine, s) == ["", line] + s.transcript
  {
  }

  lemma Block0(s: Scene)
    requires s == Scene(1000, 4000, [Text1], NoSceneOptions)
    ensures Block(TimeLine, s) == ["", "00:01.000 --> 00:04.000"] + [Text1]
  {
    Sec1(); Sec4();
    TimeLineIs(s, "00:01.000", "00:04.000");
    Arrow0();
    BlockIs(s, "00:01.000 --> 00:04.000");
  }

  lemma Arrow0()
    ensures "00:01.000" + " --> " + "00:04.000" == "00:01.000 --> 00:04.000"
  {
  }

  lemma Block1(s: Scene)
    requires s == Scene(5000, 9000, [Text2a, Text2b], NoSceneOptions)
    ensures Block(TimeLine, s) == ["", "00:05.000 --> 00:09.000"] + [Text2a, Text2b]
  {
    Sec5(); Sec9();
    TimeLineIs(s, "00:05.000", "00:09.000");
    Arrow1();
    BlockIs(s, "00:05.000 --> 00:09.000");
  }

  lemma Arrow1()
    ensures "00:05.000" + " --> " + "00:09.000" == "00:05.000 --> 00:09.000"
  {
  }

  lemma Block2(s: Scene)
    requires s == Scene(10000, 14000, [Text3], NoSceneOptions)
    ensures Block(TimeLine, s) == ["", "00:10.000 --> 00:14.000"] + [Text3]
  {
    Sec10(); Sec14();
    TimeLineIs(s, "00:10.000", "00:14.000");
    Arrow2();
    BlockIs(s, "00:10.000 --> 00:14.000");
  }

  lemma Arrow2()
    ensures "00:10.000" + " --> " + "00:14.000" == "00:10.000 --> 00:14.000"
  {
  }

  lemma RenderThree(ss: seq<Scene>, b0: seq<string>, b1: seq<string>, b2: seq<string>)
    requires |ss| == 3
    requires Block(TimeLine, ss[0]) == b0 && Block(TimeLine, ss[1]) == b1 && Block(TimeLine, ss[2]) == b2
    ensures RenderLines(ss) == ["WEBVTT"] + b0 + b1 + b2
  {
    BlocksThree(TimeLine, ss);
  }

  lemma SampleLinesSplit()
    ensures SampleLines == ["WEBVTT"] + (["", "00:01.000 --> 00:04.000"] + [Text1])
                           + (["", "00:05.000 --> 00:09.000"] + [Text2a, Text2b])
                           + (["", "00:10.000 --> 00:14.000"] + [Text3])
  {
  }

  lemma SampleRenderLines()
    ensures RenderLines(SampleScenes) == SampleLines
  {
    var ss := SampleScenes;
    Block0(ss[0]);
    Block1(ss[1]);
    Block2(ss[2]);
    RenderThree(ss, ["", "00:01.000 --> 00:04.000"] + [Text1],
                ["", "00:05.000 --> 00:09.000"] + [Text2a, Text2b],
                ["", "00:10.000 --> 00:14.000"] + [Text3]);
    SampleLinesSplit();
  }

  /** A single line that starts with neither white space nor `N` is text. */
  lemma PlainText(l: string)
    requires |l| >= 1 && !IsSpace(l[0]) && l[0] != 'N'
    requires '\n' !in l && l[|l| - 1] != '\r'
    ensures TextLine(l)
  {
    assert Span(l, 0, Space) == 0;
    if 4 <= |l| {
      assert l[0..4][0] == l[0];
    }
  }

  /** The sample's transcript texts are single lines ending in a full stop. */
  lemma NoLineBreaks()
    ensures '\n' !in Text1 && '\n' !in Text2a && '\n' !in Text2b && '\n' !in Text3
    ensures Text1[|Text1| - 1] == '.' && Text2a[|Text2a| - 1] == '.'
    ensures Text2b[|Text2b| - 1] == '.' && Text3[|Text3| - 1] == '.'
  {
    ShortTextsOneLine();
    LongTextOneLine();
  }

  lemma ShortTextsOneLine()
    ensures '\n' !in Text1 && '\n' !in Text2a && '\n' !in Text2b
  {
    Text1Chunks();
    Text2Chunks();
  }

  lemma LongTextOneLine()
    ensures '\n' !in Text3
  {
    Text3Head();
    Text3Middle();
    Text3Tail();
  }

  lemma Text1Chunks()
    ensures '\n' !in "This is subtitle at 1sec to 4sec."
  {
    assert '\n' !in "This is subtitle at 1sec to 4sec.";
  }

  lemma Text2Chunks()
    ensures '\n' !in "— These are split subtitles" && '\n' !in " from marker of 5sec." && '\n' !in "— Upto 9sec, split equally."
  {
    assert '\n' !in "— These are split subtitles";
    assert '\n' !in " from marker of 5sec.";
    assert '\n' !in "— Upto 9sec, split equally.";
  }

  lemma Text3Head()
    ensures '\n' !in "The text could be as longs" && '\n' !in " as you want or as small" && '\n' !in " as you want, file starts"
  {
    assert '\n' !in "The text could be as longs";
    assert '\n' !in " as you want or as small";
    assert '\n' !in " as you want, file starts";
  }

  lemma Text3Middle()
    ensures '\n' !in " with WEBVTT marker." && '\n' !in " Can hold comments" && '\n' !in " starting with NOTE."
  {
    assert '\n' !in " with WEBVTT marker.";
    assert '\n' !in " Can hold comments";
    assert '\n' !in " starting with NOTE.";
  }

  lemma Text3Tail()
    ensures '\n' !in " The lines above with -->" && '\n' !in " are time markers for when" && '\n' !in " subtitles need to be" && '\n' !in " displayed."
  {
    assert '\n' !in " The lines above with -->";
    assert '\n' !in " are time markers for when";
    assert '\n' !in " subtitles need to be";
    assert '\n' !in " displayed.";
  }

  lemma SampleReadable()
    ensures Readable(SampleScenes[0]) && Readable(SampleScenes[1]) && Readable(SampleScenes[2])
  {
    NoLineBreaks();
    assert Text1[0] == 'T';
    assert Text2a[0] == '—';
    assert Text2b[0] == '—';
    assert Text3[0] == 'T';
    PlainText(Text1);
    PlainText(Text2a);
    PlainText(Text2b);
    PlainText(Text3);
  }

  lemma SampleRoundTrips()
    ensures RoundTrips(SampleScenes, ZeroOptions, DefaultWrapping)
  {
    SampleReadable();
  }

  /** Reading the sample gives its three cues with their times and lines. */
  lemma SampleParse()
    ensures Parse(SampleLines, ZeroOptions, DefaultWrapping) == SampleScenes
  {
    SampleRenderLines();
    SampleRoundTrips();
    ParseRender(SampleScenes, ZeroOptions, DefaultWrapping);
  }

  /** Writing the parsed sample out again gives the sample. */
  lemma SampleString()
    ensures Render(Parse(SampleLines, ZeroOptions, DefaultWrapping)) == Lines(SampleLines)
  {
    SampleParse();
    SampleRenderLines();
    RenderIsLines(SampleScenes);
  }
}
