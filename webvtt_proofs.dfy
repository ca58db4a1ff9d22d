/** What the scene splitter and the word wrap promise: the sub-scenes of a
    split tile the original time range and share out its lines in order,
    and a wrapped line keeps its words, in order, at most MaxTokensOnAFrame
    to an emitted line. */
module WebVttProofs {
  import opened Text
  import opened Timestamp
  import opened WebVtt

  /** Every transcript line of a list of scenes, in order. */
  function AllLines(ss: seq<Scene>): seq<string> {
    if ss == [] then [] else AllLines(ss[..|ss| - 1]) + ss[|ss| - 1].transcript
  }

  // ---------------------------------------------------------------------
  // splitAndAppendScene
  // ---------------------------------------------------------------------

  lemma {:induction false} PiecesIndex(scene: Scene, k: nat, count: nat, i: nat)
    requires k >= 1 && count == CeilDiv(|scene.transcript|, k) && i <= count
    ensures |Pieces(scene, k, count, i)| == i
    ensures forall j :: 0 <= j < i ==> Pieces(scene, k, count, i)[j] == Piece(scene, k, count, j)
  {
    if i > 0 {
      PiecesIndex(scene, k, count, i - 1);
    }
  }

  /** A scene that fits is appended as it is; otherwise it becomes
      ceil(n/k) sub-scenes, each the corresponding Piece. */
  lemma SplitShape(scene: Scene, k: int)
    requires k >= 1
    ensures var ss := SplitScenes(scene, k);
            var n := |scene.transcript|;
            (n <= k ==> ss == [scene])
            && (n > k ==> |ss| == CeilDiv(n, k) >= 2
                          && forall j :: 0 <= j < |ss| ==> ss[j] == Piece(scene, k, |ss|, j))
  {
    var n := |scene.transcript|;
    CeilDivBounds(n, k);
    if n > k {
      PiecesIndex(scene, k, CeilDiv(n, k), CeilDiv(n, k));
    }
  }

  /** The sub-scenes tile the original range: the first starts at the
      original start, each later one where the one before ended, the last
      ends at the original end, and every one but the last is the
      quotient `(end - start) / count` long in uint64 arithmetic. */
  lemma SplitTiles(scene: Scene, k: int)
    requires k >= 1 && |scene.transcript| > k
    ensures var ss := SplitScenes(scene, k);
            var d := SplitDuration(scene, |ss|);
            ss[0].start == scene.start
            && ss[|ss| - 1].end == scene.end
            && (forall j :: 0 <= j < |ss| - 1 ==> ss[j].end == ss[j + 1].start)
            && (forall j :: 0 <= j < |ss| - 1 ==> ss[j].end == Wrap(ss[j].start + d))
  {
    var ss := SplitScenes(scene, k);
    SplitShape(scene, k);
    var count := |ss|;
    var d := SplitDuration(scene, count);
    assert ss[0].start == scene.start by {
      PieceFields(scene, k, count, 0);
      assert 0 * d == 0;
    }
    assert ss[count - 1].end == scene.end by {
      PieceFields(scene, k, count, count - 1);
    }
    forall j | 0 <= j < count - 1
      ensures ss[j].end == ss[j + 1].start
      ensures ss[j].end == Wrap(ss[j].start + d)
    {
      PieceFields(scene, k, count, j);
      PieceFields(scene, k, count, j + 1);
      assert Boundary(scene, count, j + 1) == Wrap(Boundary(scene, count, j) + d);
    }
  }

  /** A piece runs from its boundary to the next and keeps the options. */
  lemma PieceFields(scene: Scene, k: nat, count: nat, j: nat)
    requires k >= 1 && count == CeilDiv(|scene.transcript|, k) && j < count
    ensures Piece(scene, k, count, j).start == Boundary(scene, count, j)
    ensures Piece(scene, k, count, j).end == Boundary(scene, count, j + 1)
    ensures Piece(scene, k, count, j).options == scene.options
  {
  }

  /** Without wrap-around (`start <= end`) the durations are exact: every
      sub-scene but the last lasts the quotient, and the last absorbs the
      remainder of the integer division. */
  lemma SplitDurations(scene: Scene, k: int)
    requires k >= 1 && |scene.transcript| > k && scene.start <= scene.end
    ensures var ss := SplitScenes(scene, k);
            var d := (scene.end - scene.start) / |ss|;
            (forall j :: 0 <= j < |ss| ==> ss[j].start <= ss[j].end)
            && (forall j :: 0 <= j < |ss| - 1 ==> ss[j].end - ss[j].start == d)
            && ss[|ss| - 1].end - ss[|ss| - 1].start == (scene.end - scene.start) - (|ss| - 1) * d
  {
    var ss := SplitScenes(scene, k);
    SplitShape(scene, k);
    var count := |ss|;
    var d := SplitDuration(scene, count);
    assert d == (scene.end - scene.start) / count;
    forall j | 0 <= j < count
      ensures ss[j].start == scene.start + j * d
      ensures j < count - 1 ==> ss[j].end == scene.start + (j + 1) * d
    {
      BoundaryNoWrap(scene, count, j, d);
      if j < count - 1 {
        BoundaryNoWrap(scene, count, j + 1, d);
      }
    }
    assert ss[count - 1].end == scene.end;
    assert (count - 1) * d <= scene.end - scene.start by {
      BoundaryNoWrap(scene, count, count - 1, d);
    }
    forall j | 0 <= j < count - 1
      ensures ss[j].end - ss[j].start == d
    {
      assert (j + 1) * d == j * d + d;
    }
  }

  /** Below the end, a boundary is the plain sum `start + i * d`. */
  lemma {:induction false} BoundaryNoWrap(scene: Scene, count: nat, i: nat, d: nat)
    requires count >= 1 && i < count && scene.start <= scene.end
    requires d == SplitDuration(scene, count)
    ensures scene.start + i * d <= scene.end
    ensures Boundary(scene, count, i) == scene.start + i * d
    decreases i
  {
    BoundaryFits(scene, count, i, d);
    if i > 0 {
      BoundaryNoWrap(scene, count, i - 1, d);
      ScaleSucc(i, d);
      StaysBelow(Boundary(scene, count, i - 1), d, scene.end);
    }
  }

  lemma ScaleSucc(i: nat, d: nat)
    requires i >= 1
    ensures i * d == (i - 1) * d + d
  {
  }

  /** A sum that does not pass a uint64 bound is not wrapped. */
  lemma StaysBelow(a: nat, d: nat, bound: U64)
    requires a + d <= bound
    ensures Wrap(a + d) == a + d
  {
  }

  /** None of the first count boundaries passes the end. */
  lemma BoundaryFits(scene: Scene, count: nat, i: nat, d: nat)
    requires count >= 1 && i < count && scene.start <= scene.end
    requires d == SplitDuration(scene, count)
    ensures scene.start + i * d <= scene.end
  {
    var diff := scene.end - scene.start;
    assert d == diff / count;
    ScaleLe(i, count, d);
    assert count * d <= diff;
  }

  /** Scaling by the same factor keeps the order. */
  lemma {:induction false} ScaleLe(a: nat, b: nat, d: nat)
    requires a <= b
    ensures a * d <= b * d
    decreases b - a
  {
    if a < b {
      ScaleLe(a + 1, b, d);
      assert (a + 1) * d == a * d + d;
    }
  }

  /** The lines of the first `i` pieces are the first lines of the scene. */
  lemma {:induction false} PiecesLines(scene: Scene, k: nat, count: nat, i: nat)
    requires k >= 1 && count == CeilDiv(|scene.transcript|, k) && i <= count
    ensures AllLines(Pieces(scene, k, count, i)) == scene.transcript[..Cut(|scene.transcript|, k, count, i)]
  {
    var n := |scene.transcript|;
    if i == 0 {
      assert Cut(n, k, count, 0) == 0 by {
        if count == 0 {
          CeilDivBounds(n, k);
        } else {
          assert 0 * k == 0;
        }
      }
    } else {
      PiecesLines(scene, k, count, i - 1);
      var lo, hi := Cut(n, k, count, i - 1), Cut(n, k, count, i);
      assert lo <= hi by { PieceBounds(n, k, i - 1); }
      var ps := Pieces(scene, k, count, i);
      assert ps[..|ps| - 1] == Pieces(scene, k, count, i - 1);
      assert scene.transcript[..lo] + scene.transcript[lo..hi] == scene.transcript[..hi];
    }
  }

  /** The sub-scenes share out the lines in order: together they hold the
      original transcript, every one but the last exactly `k` lines, the
      last between 1 and `k`; every one keeps the scene's options. */
  lemma SplitLines(scene: Scene, k: int)
    requires k >= 1 && |scene.transcript| > k
    ensures var ss := SplitScenes(scene, k);
            AllLines(ss) == scene.transcript
            && (forall j :: 0 <= j < |ss| - 1 ==> |ss[j].transcript| == k)
            && 1 <= |ss[|ss| - 1].transcript| <= k
            && (forall j :: 0 <= j < |ss| ==> ss[j].options == scene.options)
  {
    var n := |scene.transcript|;
    var ss := SplitScenes(scene, k);
    SplitShape(scene, k);
    var count := |ss|;
    PiecesLines(scene, k, count, count);
    assert scene.transcript[..n] == scene.transcript;
    forall j | 0 <= j < count
      ensures j < count - 1 ==> |ss[j].transcript| == k
      ensures j == count - 1 ==> 1 <= |ss[j].transcript| <= k
      ensures ss[j].options == scene.options
    {
      PieceSize(scene, k, count, j);
      PieceFields(scene, k, count, j);
    }
  }

  /** Every piece but the last holds k lines; the last holds 1 to k. */
  lemma PieceSize(scene: Scene, k: nat, count: nat, j: nat)
    requires k >= 1 && count == CeilDiv(|scene.transcript|, k) && j < count
    ensures j < count - 1 ==> |Piece(scene, k, count, j).transcript| == k
    ensures j == count - 1 ==> 1 <= |Piece(scene, k, count, j).transcript| <= k
  {
    var n := |scene.transcript|;
    PieceBounds(n, k, j);
    CeilDivBounds(n, k);
    if j < count - 1 {
      assert (j + 1) * k - j * k == k;
    } else {
      assert (count - 1) * k + k == count * k;
    }
  }

  // ---------------------------------------------------------------------
  // AppendScene
  // ---------------------------------------------------------------------

  /** AppendScene adds the scene's lines, all of them and in order, if it
      accepts the scene, and nothing otherwise. */
  lemma AppendedLines(opts: VttOptions, scene: Scene)
    requires opts.enabled ==> opts.maxLinesPerScene != 0
    ensures AllLines(Appended(opts, scene)) == if Admissible(scene) then scene.transcript else []
  {
    var k := opts.maxLinesPerScene;
    if Admissible(scene) && opts.enabled && |scene.transcript| > k && k >= 1 {
      SplitLines(scene, k);
    } else {
      assert AllLines([scene]) == AllLines([]) + scene.transcript;
    }
  }

  /** Every scene AppendScene adds has at least one line and the scene's
      options, and at most ceil(n/k) scenes are added. */
  lemma AppendedScenes(opts: VttOptions, scene: Scene)
    requires opts.enabled ==> opts.maxLinesPerScene != 0
    ensures forall s :: s in Appended(opts, scene) ==> |s.transcript| >= 1 && s.options == scene.options
    ensures Admissible(scene) <==> Appended(opts, scene) != []
  {
    var k := opts.maxLinesPerScene;
    if Admissible(scene) && opts.enabled && |scene.transcript| > k && k >= 1 {
      var ss := SplitScenes(scene, k);
      SplitLines(scene, k);
      forall s | s in ss
        ensures |s.transcript| >= 1
      {
        var j :| 0 <= j < |ss| && ss[j] == s;
        if j < |ss| - 1 {
          assert |ss[j].transcript| == k;
        }
      }
    }
  }

  /** The scenes of a caption list that AppendScene built all have lines. */
  predicate AllHaveLines(ss: seq<Scene>) {
    forall j :: 0 <= j < |ss| ==> |ss[j].transcript| >= 1
  }

  /** AppendScene keeps that invariant; a mute scene (no lines) in
      particular never enters the list. */
  lemma AppendKeepsLines(opts: VttOptions, ss: seq<Scene>, scene: Scene)
    requires opts.enabled ==> opts.maxLinesPerScene != 0
    requires AllHaveLines(ss)
    ensures AllHaveLines(ss + Appended(opts, scene))
    ensures scene.transcript == [] ==> ss + Appended(opts, scene) == ss
  {
    AppendedScenes(opts, scene);
    var r := ss + Appended(opts, scene);
    forall j | 0 <= j < |r|
      ensures |r[j].transcript| >= 1
    {
      if j >= |ss| {
        assert r[j] in Appended(opts, scene);
      }
    }
  }

  // ---------------------------------------------------------------------
  // ProcessSubtext
  // ---------------------------------------------------------------------

  lemma {:induction false} FlattenAppend<T>(a: seq<seq<T>>, b: seq<seq<T>>)
    ensures Flatten(a + b) == Flatten(a) + Flatten(b)
  {
    if a == [] {
      assert a + b == b;
    } else {
      assert (a + b)[1..] == a[1..] + b;
      FlattenAppend(a[1..], b);
    }
  }

  /** The chunks hold the words, in order. */
  lemma {:induction false} ChunksFlatten(ws: seq<string>, k: nat)
    requires k >= 1
    ensures Flatten(Chunks(ws, k)) == ws
    decreases |ws|
  {
    if |ws| > k {
      ChunksFlatten(ws[k..], k);
      var cs := Chunks(ws, k);
      assert cs[1..] == Chunks(ws[k..], k);
      assert ws[..k] + ws[k..] == ws;
    } else if ws != [] {
      assert Flatten([ws]) == ws + Flatten([]);
    }
  }

  /** There are ceil(n/k) chunks; every one but the last holds exactly `k`
      words and the last one 1..k. */
  lemma {:induction false} ChunksSizes(ws: seq<string>, k: nat)
    requires k >= 1
    ensures var cs := Chunks(ws, k);
            |cs| == CeilDiv(|ws|, k)
            && (forall j :: 0 <= j < |cs| - 1 ==> |cs[j]| == k)
            && (forall j :: 0 <= j < |cs| ==> 1 <= |cs[j]| <= k)
    decreases |ws|
  {
    CeilDivBounds(|ws|, k);
    if |ws| > k {
      var rest := Chunks(ws[k..], k);
      ChunksSizes(ws[k..], k);
      var cs := Chunks(ws, k);
      assert cs == [ws[..k]] + rest;
      assert CeilDiv(|ws|, k) == CeilDiv(|ws| - k, k) + 1 by {
        CeilDivStep(|ws| - k, k);
      }
      forall j | 1 <= j < |cs|
        ensures cs[j] == rest[j - 1]
      {
      }
    }
  }

  lemma CeilDivStep(n: nat, k: nat)
    requires k >= 1
    ensures CeilDiv(n + k, k) == CeilDiv(n, k) + 1
  {
    var a := n + k - 1;
    var q, r := a / k, a % k;
    DivUnique(a + k, k, q + 1, r);
  }

  /** Quotient and remainder are unique. */
  lemma DivUnique(a: nat, k: nat, q: int, r: int)
    requires k >= 1 && a == q * k + r && 0 <= r < k
    ensures a / k == q
  {
    var q2, r2 := a / k, a % k;
    var t := q2 - q;
    assert t * k == r - r2 by { MulSub(q2, q, k); }
    if t >= 1 {
      MulAtLeast(t, k);
      assert false;
    } else if t <= -1 {
      MulAtLeast(-t, k);
      assert false;
    }
  }

  /** Every chunk's words are words of the input. */
  lemma {:induction false} ChunkWords(ws: seq<string>, k: nat)
    requires k >= 1
    ensures forall c, x :: c in Chunks(ws, k) && x in c ==> x in ws
    decreases |ws|
  {
    if |ws| > k {
      ChunkWords(ws[k..], k);
      assert forall x :: x in ws[..k] ==> x in ws;
      assert forall x :: x in ws[k..] ==> x in ws;
    }
  }

  /** An emitted line is the non-empty join of one of the chunks. */
  lemma {:induction false} EmittedFrom(cs: seq<seq<string>>, l: string)
    requires l in Emitted(cs)
    ensures exists c :: c in cs && l == Join(c, ' ') && l != ""
  {
    if cs != [] {
      if Join(cs[0], ' ') != "" && l == Join(cs[0], ' ') {
        assert cs[0] in cs;
      } else {
        EmittedFrom(cs[1..], l);
        var c :| c in cs[1..] && l == Join(c, ' ') && l != "";
        assert c in cs;
      }
    }
  }

  /** With wrapping on, every line ProcessSubtext adds is non-empty and
      splits at spaces into 1..MaxTokensOnAFrame tokens. */
  lemma WrapTokens(line: string, w: Wrapping)
    requires w.split && w.maxTokens >= 1
    ensures forall l :: l in SubtextLines(line, w) ==> l != "" && 1 <= |Split(l, ' ')| <= w.maxTokens
  {
    var ws := Words(line);
    var k := w.maxTokens;
    var cs := Chunks(ws, k);
    ChunksSizes(ws, k);
    ChunkWords(ws, k);
    forall l | l in Emitted(cs)
      ensures l != "" && 1 <= |Split(l, ' ')| <= k
    {
      EmittedFrom(cs, l);
      var c :| c in cs && l == Join(c, ' ') && l != "";
      var j :| 0 <= j < |cs| && cs[j] == c;
      assert forall x :: x in c ==> ' ' !in x;
      SplitJoin(c, ' ');
    }
  }

  /** Joining two non-empty runs of words is joining each and then the two
      results. */
  lemma {:induction false} JoinAppend(a: seq<string>, b: seq<string>, sep: char)
    requires a != [] && b != []
    ensures Join(a + b, sep) == Join(a, sep) + [sep] + Join(b, sep)
    decreases |a|
  {
    if |a| == 1 {
      assert (a + b)[1..] == b;
    } else {
      assert (a + b)[1..] == a[1..] + b;
      JoinAppend(a[1..], b, sep);
    }
  }

  /** The last piece of a split that does not end in the separator is not
      empty. */
  lemma {:induction false} SplitLastNonEmpty(s: string, sep: char)
    requires s != [] && s[|s| - 1] != sep
    ensures var r := Split(s, sep); r[|r| - 1] != ""
    decreases |s|
  {
    if |s| >= 2 {
      SplitLastNonEmpty(s[1..], sep);
    }
  }

  /** No chunk is a lone empty word when the last word is not empty and
      either two or more words go to a line or no word is empty. */
  lemma {:induction false} NoBlankChunk(ws: seq<string>, k: nat)
    requires k >= 1 && ws != [] && ws[|ws| - 1] != ""
    requires k >= 2 || "" !in ws
    ensures forall c :: c in Chunks(ws, k) ==> c != [""]
    decreases |ws|
  {
    if |ws| > k {
      assert "" !in ws ==> "" !in ws[k..];
      NoBlankChunk(ws[k..], k);
      assert Chunks(ws, k) == [ws[..k]] + Chunks(ws[k..], k);
      if k == 1 {
        assert ws[..k] == [ws[0]];
      }
    }
  }

  /** The emitted lines of chunks none of which is a lone empty word,
      joined with spaces, are the words joined with spaces. */
  lemma {:induction false} EmittedJoin(ws: seq<string>, k: nat)
    requires k >= 1 && ws != []
    requires forall c :: c in Chunks(ws, k) ==> c != [""]
    ensures Emitted(Chunks(ws, k)) != []
    ensures Join(Emitted(Chunks(ws, k)), ' ') == Join(ws, ' ')
    decreases |ws|
  {
    var cs := Chunks(ws, k);
    assert cs[0] in cs;
    JoinEmpty(cs[0], ' ');
    if |ws| <= k {
      assert cs == [ws];
      EmittedOne(ws);
    } else {
      var rest := Chunks(ws[k..], k);
      assert cs == [ws[..k]] + rest;
      assert cs[1..] == rest;
      assert forall c :: c in rest ==> c in cs;
      EmittedJoin(ws[k..], k);
      var e := Emitted(rest);
      assert Emitted(cs) == [Join(ws[..k], ' ')] + e;
      assert Join([Join(ws[..k], ' ')] + e, ' ') == Join(ws[..k], ' ') + [' '] + Join(e, ' ') by {
        assert ([Join(ws[..k], ' ')] + e)[1..] == e;
      }
      JoinAppend(ws[..k], ws[k..], ' ');
      assert ws[..k] + ws[k..] == ws;
    }
  }

  /** With wrapping on, the added lines joined with spaces give the trimmed
      line back: no word is lost and the order is kept. With one word to a
      line this needs single spaces between words, for AppendTranscript
      drops the empty words that doubled spaces produce. */
  lemma WrapRejoin(line: string, w: Wrapping)
    requires w.split && w.maxTokens >= 1
    requires w.maxTokens >= 2 || "" !in Words(line)
    ensures Join(SubtextLines(line, w), ' ') == TrimSpaces(line)
  {
    var t := TrimSpaces(line);
    var ws := Words(line);
    JoinSplit(t, ' ');
    if t == "" {
      assert ws == [""];
      assert Chunks(ws, w.maxTokens) == [[""]];
      assert Emitted([[""]]) == [] + Emitted([]);
    } else {
      SplitLastNonEmpty(t, ' ');
      NoBlankChunk(ws, w.maxTokens);
      EmittedJoin(ws, w.maxTokens);
    }
  }

  /** Without wrapping, the line is kept exactly as it is, unless empty. */
  lemma NoWrapKeepsLine(line: string, w: Wrapping)
    requires !w.split
    ensures SubtextLines(line, w) == if line == "" then [] else [line]
    ensures Join(SubtextLines(line, w), ' ') == line
  {
  }

  // ---------------------------------------------------------------------
  // webvtt_test.go: a 5-line scene from 0 to 5000 ms
  // ---------------------------------------------------------------------

  /** With two lines to a scene, the three sub-scenes are 0-1666, 1666-3332
      and 3332-5000 with 2, 2 and 1 lines. */
  lemma SplitExampleTwo()
    ensures var t := ["this is", "a test", "of multiple", "lines in", "a scene"];
            var ss := SplitScenes(Scene(0, 5000, t, NoSceneOptions), 2);
            ss == [Scene(0, 1666, t[0..2], NoSceneOptions),
                   Scene(1666, 3332, t[2..4], NoSceneOptions),
                   Scene(3332, 5000, t[4..5], NoSceneOptions)]
  {
    var t := ["this is", "a test", "of multiple", "lines in", "a scene"];
    var sc := Scene(0, 5000, t, NoSceneOptions);
    assert CeilDiv(5, 2) == 3;
    assert Sub64(5000, 0) / 3 == 1666;
    assert Boundary(sc, 3, 1) == 1666;
    assert Boundary(sc, 3, 2) == 3332;
    SplitShape(sc, 2);
  }
}
