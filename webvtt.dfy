/** Scenes and the caption list (webvtt.go): word wrapping of transcript
    lines, appending scenes with the optional split of an over-long scene
    into several shorter ones, and rendering the list as WebVTT text. */
module WebVtt {
  import opened Text
  import opened Timestamp

  datatype SceneOptions = SceneOptions(enabled: bool, maxCharsPerLine: int)

  /** Go's zero value of SceneOptions. */
  const NoSceneOptions := SceneOptions(false, 0)

  datatype VttOptions = VttOptions(enabled: bool, maxLinesPerScene: int, sceneOptions: SceneOptions)

  /** A cue: its time range in milliseconds and its transcript lines. Go
      passes scenes by value, so a scene is a value here too. */
  datatype Scene = Scene(start: U64, end: U64, transcript: seq<string>, options: SceneOptions)

  /** The package-level switches SplitForMaxTokens and MaxTokensOnAFrame. */
  datatype Wrapping = Wrapping(split: bool, maxTokens: int)

  const DefaultWrapping := Wrapping(false, 5)

  /** newScene: a scene with the given range and options and no lines. */
  function NewScene(startMs: U64, endMs: U64, opts: SceneOptions): (r: Scene)
    ensures r.transcript == [] && r.start == startMs && r.end == endMs && r.options == opts
  {
    Scene(startMs, endMs, [], opts)
  }

  /** AppendTranscript: an empty line is refused; any other line is added
      at the end. */
  function AppendTranscript(scene: Scene, line: string): (r: (Scene, bool))
    ensures r.1 <==> line != ""
    ensures r.0.start == scene.start && r.0.end == scene.end && r.0.options == scene.options
    ensures r.0.transcript == scene.transcript + (if r.1 then [line] else [])
  {
    if |line| == 0 then (scene, false)
    else (scene.(transcript := scene.transcript + [line]), true)
  }

  // ---------------------------------------------------------------------
  // Word wrap
  // ---------------------------------------------------------------------

  /** Consecutive runs of `k` words; the last run holds the 1..k words
      that are left. */
  function Chunks(words: seq<string>, k: nat): seq<seq<string>>
    requires k >= 1
    decreases |words|
  {
    if |words| <= k then (if words == [] then [] else [words])
    else [words[..k]] + Chunks(words[k..], k)
  }

  /** The lines the chunks become: each chunk joined with spaces, and the
      empty results refused as AppendTranscript refuses them. */
  function Emitted(cs: seq<seq<string>>): seq<string> {
    if cs == [] then []
    else (if Join(cs[0], ' ') == "" then [] else [Join(cs[0], ' ')]) + Emitted(cs[1..])
  }

  function Flatten<T>(xss: seq<seq<T>>): seq<T> {
    if xss == [] then [] else xss[0] + Flatten(xss[1..])
  }

  /** The words ProcessSubtext cuts a line into. */
  function Words(line: string): seq<string> {
    Split(TrimSpaces(line), ' ')
  }

  /** What ProcessSubtext adds to a transcript for one line. */
  function SubtextLines(line: string, w: Wrapping): seq<string>
    requires w.split ==> w.maxTokens >= 1
  {
    if !w.split then (if line == "" then [] else [line])
    else Emitted(Chunks(Words(line), w.maxTokens))
  }

  lemma EmittedAppend(a: seq<seq<string>>, b: seq<seq<string>>)
    ensures Emitted(a + b) == Emitted(a) + Emitted(b)
  {
    if a != [] {
      assert (a + b)[1..] == a[1..] + b;
      EmittedAppend(a[1..], b);
    } else {
      assert a + b == b;
    }
  }

  /** The chunks from position `idx` on, once a full chunk is taken off. */
  lemma ChunksStep(words: seq<string>, idx: nat, k: nat)
    requires k >= 1 && idx + k < |words|
    ensures Emitted(Chunks(words[idx..], k)) ==
            Emitted([words[idx..idx + k]]) + Emitted(Chunks(words[idx + k..], k))
  {
    var rest := words[idx..];
    assert rest[..k] == words[idx..idx + k];
    assert rest[k..] == words[idx + k..];
    EmittedAppend([rest[..k]], Chunks(rest[k..], k));
  }

  /** ProcessSubtext: without wrapping the line is appended as it is (if
      not empty); with wrapping it is trimmed, split at spaces and appended
      as runs of MaxTokensOnAFrame words. */
  method ProcessSubtext(scene: Scene, line: string, w: Wrapping) returns (r: Scene)
    requires w.split ==> w.maxTokens >= 1
    ensures r == scene.(transcript := scene.transcript + SubtextLines(line, w))
  {
    if !w.split {
      r := AppendTranscript(scene, line).0;
      return;
    }
    var words := Split(TrimSpaces(line), ' ');
    var k := w.maxTokens;
    r := scene;
    var idx := 0;
    while idx + k < |words|
      invariant 0 <= idx <= |words|
      invariant r == scene.(transcript := r.transcript)
      invariant r.transcript + Emitted(Chunks(words[idx..], k)) == scene.transcript + SubtextLines(line, w)
    {
      var tmpTxt := Join(words[idx..idx + k], ' ');
      ghost var prev := r.transcript;
      r := AppendTranscript(r, tmpTxt).0;
      assert r.transcript + Emitted(Chunks(words[idx + k..], k)) == scene.transcript + SubtextLines(line, w) by {
        ChunksStep(words, idx, k);
        EmittedOne(words[idx..idx + k]);
        Assoc(prev, Emitted([words[idx..idx + k]]), Emitted(Chunks(words[idx + k..], k)));
      }
      idx := idx + k;
    }
    if idx < |words| {
      var tmpTxt := Join(words[idx..|words|], ' ');
      ghost var prev := r.transcript;
      r := AppendTranscript(r, tmpTxt).0;
      assert r.transcript == scene.transcript + SubtextLines(line, w) by {
        assert words[idx..|words|] == words[idx..];
        EmittedOne(words[idx..]);
      }
    } else {
      assert words[idx..] == [];
    }
  }

  /** A single chunk becomes its joined line, unless that is empty. */
  lemma EmittedOne(c: seq<string>)
    ensures Emitted([c]) == if Join(c, ' ') == "" then [] else [Join(c, ' ')]
  {
    assert [c][1..] == [];
  }

  // ---------------------------------------------------------------------
  // Appending and splitting scenes
  // ---------------------------------------------------------------------

  /** What AppendScene accepts: some transcript, and an end that differs
      from the start (the unsigned difference is not zero). */
  predicate Admissible(scene: Scene) {
    |scene.transcript| != 0 && Sub64(scene.end, scene.start) != 0
  }

  /** ceil(n / k), the scene count splitAndAppendScene computes. */
  function CeilDiv(n: nat, k: nat): nat
    requires k >= 1
  {
    (n + k - 1) / k
  }

  /** Where the `i`-th sub-scene starts: the original start, then each
      boundary one split duration after the one before, wrapping like
      uint64; the count-th boundary is the original end. */
  function Boundary(scene: Scene, count: nat, i: nat): U64
    requires count >= 1 && i <= count
    decreases i
  {
    if i == count then scene.end
    else if i == 0 then scene.start
    else Wrap(Boundary(scene, count, i - 1) + SplitDuration(scene, count))
  }

  /** splitDurationMs: the unsigned difference of the ends, divided by the
      scene count. */
  function SplitDuration(scene: Scene, count: nat): (d: nat)
    requires count >= 1
    ensures d <= Sub64(scene.end, scene.start)
  {
    DivBounds(Sub64(scene.end, scene.start), count);
    Sub64(scene.end, scene.start) / count
  }

  lemma DivBounds(a: nat, b: nat)
    requires b >= 1
    ensures 0 <= a / b <= a
  {
    var q, r := a / b, a % b;
    assert a == q * b + r;
    if q < 0 {
      MulAtLeast(-q, b);
      assert false;
    } else if q > a {
      MulAtLeastSelf(q, b);
      assert false;
    }
  }

  lemma MulSub(a: int, b: int, k: int)
    ensures (a - b) * k == a * k - b * k
  {
  }

  lemma MulAtLeast(t: int, k: int)
    requires t >= 1 && k >= 1
    ensures t * k >= k
  {
  }

  lemma MulAtLeastSelf(t: int, k: int)
    requires t >= 0 && k >= 1
    ensures t * k >= t
  {
  }


  /** Where the lines of the `i`-th sub-scene begin: `i * k`, and all of
      them once every sub-scene is counted. */
  function Cut(n: nat, k: nat, count: nat, i: nat): (c: nat)
    requires k >= 1 && count == CeilDiv(n, k) && i <= count
    ensures c <= n
  {
    if i == count then n
    else
      PieceBounds(n, k, i);
      i * k
  }

  /** The `i`-th of `count` sub-scenes of `scene`, `k` lines each but the
      last, which takes what is left. */
  function Piece(scene: Scene, k: nat, count: nat, i: nat): Scene
    requires k >= 1 && count == CeilDiv(|scene.transcript|, k) && i < count
  {
    var n := |scene.transcript|;
    assert Cut(n, k, count, i) <= Cut(n, k, count, i + 1) by { PieceBounds(n, k, i); }
    NewScene(Boundary(scene, count, i), Boundary(scene, count, i + 1), scene.options)
      .(transcript := scene.transcript[Cut(n, k, count, i)..Cut(n, k, count, i + 1)])
  }

  /** The first `i` sub-scenes. */
  function Pieces(scene: Scene, k: nat, count: nat, i: nat): (r: seq<Scene>)
    requires k >= 1 && count == CeilDiv(|scene.transcript|, k) && i <= count
    ensures |r| == i
  {
    if i == 0 then [] else Pieces(scene, k, count, i - 1) + [Piece(scene, k, count, i - 1)]
  }

  /** The scenes splitAndAppendScene appends for `scene` and a limit of
      `k` lines. */
  function SplitScenes(scene: Scene, k: int): (r: seq<Scene>)
    requires k != 0
    ensures |r| >= 1
  {
    var n := |scene.transcript|;
    if k < 0 || CeilDiv(n, k) <= 1 then [scene]
    else Pieces(scene, k, CeilDiv(n, k), CeilDiv(n, k))
  }

  /** The scenes AppendScene adds to the list. */
  function Appended(opts: VttOptions, scene: Scene): seq<Scene>
    requires opts.enabled ==> opts.maxLinesPerScene != 0
  {
    if !Admissible(scene) then []
    else if opts.enabled && |scene.transcript| > opts.maxLinesPerScene then SplitScenes(scene, opts.maxLinesPerScene)
    else [scene]
  }

  lemma CeilDivBounds(n: nat, k: nat)
    requires k >= 1
    ensures CeilDiv(n, k) * k >= n
    ensures CeilDiv(n, k) >= 1 ==> (CeilDiv(n, k) - 1) * k < n
    ensures n >= 1 ==> CeilDiv(n, k) >= 1
    ensures CeilDiv(n, k) <= 1 <==> n <= k
  {
    var c := CeilDiv(n, k);
    var r := (n + k - 1) % k;
    assert c * k + r == n + k - 1;
  }

  lemma PieceBounds(n: nat, k: nat, i: nat)
    requires k >= 1 && i < CeilDiv(n, k)
    ensures i * k <= (if i == CeilDiv(n, k) - 1 then n else (i + 1) * k) <= n
    ensures i * k < n
  {
    var c := CeilDiv(n, k);
    CeilDivBounds(n, k);
    if i < c - 1 {
      assert (i + 1) * k <= (c - 1) * k;
    }
    assert i * k <= (c - 1) * k;
  }

  /** One round of splitAndAppendScene's loop: the `i`-th sub-scene is the
      one it builds from the running index and end, and the index and
      end move on to the next boundary. */
  lemma SplitStep(scene: Scene, k: nat, count: nat, i: nat, idx: nat, curr: U64, dur: nat)
    requires k >= 1 && count == CeilDiv(|scene.transcript|, k) && count >= 2
    requires i < count && idx == i * k && curr == Boundary(scene, count, i)
    requires dur == SplitDuration(scene, count)
    ensures var last := count - i == 1;
            var hi := if last then |scene.transcript| else idx + k;
            var next := if last then scene.end else Wrap(curr + dur);
            idx <= hi <= |scene.transcript|
            && Piece(scene, k, count, i) == Scene(curr, next, scene.transcript[idx..hi], scene.options)
            && next == Boundary(scene, count, i + 1)
    ensures idx + k == (i + 1) * k
    ensures i + 1 < count <==> idx + k < |scene.transcript|
  {
    var n := |scene.transcript|;
    PieceBounds(n, k, i);
    CeilDivBounds(n, k);
    assert Cut(n, k, count, i) == idx;
    if i + 1 < count {
      assert Boundary(scene, count, i + 1) == Wrap(curr + dur);
      PieceBounds(n, k, i + 1);
      assert Cut(n, k, count, i + 1) == idx + k;
    }
  }

  // ---------------------------------------------------------------------
  // The caption list
  // ---------------------------------------------------------------------

  /** The first line of every rendering. */
  const Header: string := "WEBVTT\n"

  /** A cue's time line, as String writes it. */
  function TimeLine(scene: Scene): string {
    FormatMillis(scene.start) + " --> " + FormatMillis(scene.end)
  }

  /** Each transcript line followed by a newline. */
  function Lines(t: seq<string>): string {
    if t == [] then "" else Lines(t[..|t| - 1]) + t[|t| - 1] + "\n"
  }

  /** A scene's part of the rendering: nothing at all without a transcript. */
  function RenderScene(scene: Scene): string {
    (if |scene.transcript| > 0 then "\n" + TimeLine(scene) + "\n" else "") + Lines(scene.transcript)
  }

  function RenderScenes(ss: seq<Scene>): string {
    if ss == [] then "" else RenderScenes(ss[..|ss| - 1]) + RenderScene(ss[|ss| - 1])
  }

  /** The whole rendering of a caption list. */
  function Render(ss: seq<Scene>): string {
    Header + RenderScenes(ss)
  }

  lemma Assoc<T>(a: seq<T>, b: seq<T>, c: seq<T>)
    ensures a + b + c == a + (b + c)
  {
  }

  lemma Assoc4<T>(a: seq<T>, b: seq<T>, c: seq<T>, d: seq<T>)
    ensures a + b + c + d == a + (b + c + d)
  {
  }

  /** String's time line, written piece by piece, is the scene's TimeLine. */
  lemma TimeLineAppend(start: string, s: Scene)
    ensures start + "\n" + FormatMillis(s.start) + " --> " + FormatMillis(s.end) + "\n"
            == start + ("\n" + TimeLine(s) + "\n")
  {
    var a, b := FormatMillis(s.start), FormatMillis(s.end);
    assert start + "\n" + a + " --> " + b + "\n" == start + ("\n" + (a + " --> " + b) + "\n");
  }

  lemma LinesStep(t: seq<string>, m: nat)
    requires m < |t|
    ensures Lines(t[..m + 1]) == Lines(t[..m]) + t[m] + "\n"
  {
    assert t[..m + 1][..m] == t[..m];
  }

  lemma RenderScenesStep(ss: seq<Scene>, n: nat)
    requires n < |ss|
    ensures RenderScenes(ss[..n + 1]) == RenderScenes(ss[..n]) + RenderScene(ss[n])
  {
    assert ss[..n + 1][..n] == ss[..n];
  }

  /** VTT: the scenes collected so far and the options that govern
      splitting. */
  class Vtt {
    var scenes: seq<Scene>
    var options: VttOptions

    constructor (opts: VttOptions)
      ensures scenes == [] && options == opts
    {
      scenes := [];
      options := opts;
    }

    /** AppendScene: refuses a scene without transcript or with a zero
        duration; otherwise appends it, split first when splitting is on
        and the scene has more lines than allowed. */
    method AppendScene(scene: Scene) returns (ok: bool)
      requires options.enabled ==> options.maxLinesPerScene != 0
      modifies this
      ensures ok <==> Admissible(scene)
      ensures options == old(options)
      ensures scenes == old(scenes) + Appended(old(options), scene)
    {
      if |scene.transcript| == 0 || Sub64(scene.end, scene.start) == 0 {
        return false;
      }
      if options.enabled && |scene.transcript| > options.maxLinesPerScene {
        var err := SplitAndAppendScene(scene);
        if !err {
          return true;
        }
      }
      scenes := scenes + [scene];
      return true;
    }

    /** splitAndAppendScene: cuts the scene into ceil(n/k) scenes of `k`
        lines (the last one takes the rest) whose time ranges follow one
        another, each `(end - start) / count` long but the last, which ends
        at the original end. The error it reports never occurs. */
    method SplitAndAppendScene(scene: Scene) returns (err: bool)
      requires options.maxLinesPerScene != 0
      modifies this
      ensures !err
      ensures options == old(options)
      ensures scenes == old(scenes) + SplitScenes(scene, old(options).maxLinesPerScene)
    {
      var transcriptLen := |scene.transcript|;
      var k := options.maxLinesPerScene;
      var startMs := scene.start;
      var currEndMs := startMs;
      var endMs := scene.end;
      if k < 0 || CeilDiv(transcriptLen, k) <= 1 {
        scenes := scenes + [scene];
        return false;
      }
      var sceneCount := CeilDiv(transcriptLen, k);
      var count := sceneCount;
      var splitDurationMs := Sub64(endMs, startMs) / sceneCount;
      assert splitDurationMs == SplitDuration(scene, count);
      CeilDivBounds(transcriptLen, k);
      var idx := 0;
      ghost var i := 0;
      while idx < transcriptLen
        invariant 0 <= i <= count && idx == i * k && sceneCount == count - i
        invariant idx < transcriptLen <==> i < count
        invariant currEndMs == Boundary(scene, count, i)
        invariant options == old(options)
        invariant scenes == old(scenes) + Pieces(scene, k, count, i)
      {
        SplitStep(scene, k, count, i, idx, currEndMs, splitDurationMs);
        var idxUpto := idx + k;
        startMs := currEndMs;
        currEndMs := Wrap(currEndMs + splitDurationMs);
        if sceneCount == 1 {
          currEndMs := endMs;
          idxUpto := transcriptLen;
        }
        var sceneX := NewScene(startMs, currEndMs, scene.options);
        sceneX := sceneX.(transcript := scene.transcript[idx..idxUpto]);
        ghost var prev := scenes;
        scenes := scenes + [sceneX];
        assert scenes == old(scenes) + Pieces(scene, k, count, i + 1) by {
          Assoc(old(scenes), Pieces(scene, k, count, i), [sceneX]);
        }
        idx := idx + k;
        sceneCount := sceneCount - 1;
        i := i + 1;
      }
      err := currEndMs != endMs;
    }

    /** String: the header, then for each scene with a transcript a blank
        line, its time line and its lines. */
    method String() returns (result: string)
      ensures result == Render(scenes)
    {
      result := "WEBVTT\n";
      var n := 0;
      while n < |scenes|
        invariant 0 <= n <= |scenes|
        invariant result == Header + RenderScenes(scenes[..n])
      {
        var s := scenes[n];
        ghost var start := result;
        ghost var head := if |s.transcript| > 0 then "\n" + TimeLine(s) + "\n" else "";
        if |s.transcript| > 0 {
          result := result + "\n" + FormatMillis(s.start) + " --> " + FormatMillis(s.end) + "\n";
          assert result == start + head by { TimeLineAppend(start, s); }
        }
        ghost var before := result;
        var m := 0;
        while m < |s.transcript|
          invariant 0 <= m <= |s.transcript|
          invariant result == before + Lines(s.transcript[..m])
        {
          ghost var prev := result;
          result := result + s.transcript[m] + "\n";
          assert result == before + Lines(s.transcript[..m + 1]) by {
            LinesStep(s.transcript, m);
            Assoc4(before, Lines(s.transcript[..m]), s.transcript[m], "\n");
          }
          m := m + 1;
        }
        assert s.transcript[..m] == s.transcript;
        assert result == start + RenderScene(s) by { Assoc(start, head, Lines(s.transcript)); }
        assert result == Header + RenderScenes(scenes[..n + 1]) by {
          RenderScenesStep(scenes, n);
          Assoc(Header, RenderScenes(scenes[..n]), RenderScene(s));
        }
        n := n + 1;
      }
      assert scenes[..n] == scenes;
    }
  }
}
