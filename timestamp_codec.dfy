/** The arithmetic of the timestamp codec: what the three conversions
    compute, how MillsecToVTTTimeString lays out its fields, and the round
    trips between the two directions. */
module TimestampCodec {
  import opened Text
  import opened Timestamp
  import opened TimestampProofs

  /** The milliseconds an `H:M:S.ms` time denotes, before any wrap-around. */
  function Millis(h: nat, m: nat, s: nat, ms: nat): nat {
    h * 3600000 + m * 60000 + s * 1000 + ms
  }

  lemma WrapAdd(a: nat, b: nat)
    ensures Wrap(a + Wrap(b)) == Wrap(a + b)
  {
    var q := b / TWO_64;
    assert b == q * TWO_64 + Wrap(b);
    assert a + b == (a + Wrap(b)) + q * TWO_64;
  }

  lemma WrapMinutes(m: nat, sec: nat, x: nat)
    ensures Wrap(m * 60000 + Wrap(sec * 1000 + x)) == Wrap(Millis(0, m, sec, x))
  {
    WrapAdd(m * 60000, sec * 1000 + x);
  }

  lemma WrapHours(h: nat, m: nat, sec: nat, x: nat)
    ensures Wrap(h * 3600000 + Wrap(m * 60000 + sec * 1000 + x)) == Wrap(Millis(h, m, sec, x))
  {
    WrapAdd(h * 3600000, m * 60000 + sec * 1000 + x);
  }

  // ---------------------------------------------------------------------
  // The conversions
  // ---------------------------------------------------------------------

  /** parseSMsToMillisec succeeds exactly when both fields are 64-bit
      decimals, computes `S*1000 + ms` modulo 2^64, and otherwise reports
      the first failing field's error. */
  lemma ParseSMsFormula(g: seq<string>)
    requires |g| >= 3
    ensures ParseSMs(g).Ok? <==> ParseUint(g[1]).Ok? && ParseUint(g[2]).Ok?
    ensures ParseSMs(g).Ok? ==> ParseSMs(g).value == Wrap(Millis(0, 0, DecimalValue(g[1]), DecimalValue(g[2])))
    ensures ParseUint(g[1]).Err? ==> ParseSMs(g) == Err(ParseUint(g[1]).error)
    ensures ParseUint(g[1]).Ok? && ParseUint(g[2]).Err? ==> ParseSMs(g) == Err(ParseUint(g[2]).error)
  {
  }

  /** parseMSMsToMillisec: `M*60000 + S*1000 + ms` modulo 2^64. */
  lemma ParseMSMsFormula(g: seq<string>)
    requires |g| >= 4
    ensures ParseMSMs(g).Ok? <==> forall i :: 1 <= i <= 3 ==> ParseUint(g[i]).Ok?
    ensures ParseMSMs(g).Ok? ==>
              ParseMSMs(g).value == Wrap(Millis(0, DecimalValue(g[1]), DecimalValue(g[2]), DecimalValue(g[3])))
    ensures forall i :: 1 <= i <= 3 && ParseUint(g[i]).Err? && (forall j :: 1 <= j < i ==> ParseUint(g[j]).Ok?)
              ==> ParseMSMs(g) == Err(ParseUint(g[i]).error)
  {
    var t := g[1..];
    assert t[1] == g[2] && t[2] == g[3];
    ParseSMsFormula(t);
    if ParseMSMs(g).Ok? {
      var m, sec, x := DecimalValue(g[1]), DecimalValue(g[2]), DecimalValue(g[3]);
      assert ParseSMs(t) == Ok(Wrap(sec * 1000 + x));
      assert ParseMSMs(g) == Ok(Wrap(m * 60000 + Wrap(sec * 1000 + x)));
      WrapMinutes(m, sec, x);
    }
  }

  /** parseHMSMsToMillisec: `H*3600000 + M*60000 + S*1000 + ms` modulo
      2^64. */
  lemma ParseHMSMsFormula(g: seq<string>)
    requires |g| >= 5
    ensures ParseHMSMs(g).Ok? <==> forall i :: 1 <= i <= 4 ==> ParseUint(g[i]).Ok?
    ensures ParseHMSMs(g).Ok? ==>
              ParseHMSMs(g).value ==
              Wrap(Millis(DecimalValue(g[1]), DecimalValue(g[2]), DecimalValue(g[3]), DecimalValue(g[4])))
    ensures forall i :: 1 <= i <= 4 && ParseUint(g[i]).Err? && (forall j :: 1 <= j < i ==> ParseUint(g[j]).Ok?)
              ==> ParseHMSMs(g) == Err(ParseUint(g[i]).error)
  {
    var t := g[1..];
    assert t[1] == g[2] && t[2] == g[3] && t[3] == g[4];
    ParseMSMsFormula(t);
    if ParseHMSMs(g).Ok? {
      var h, m, sec, x := DecimalValue(g[1]), DecimalValue(g[2]), DecimalValue(g[3]), DecimalValue(g[4]);
      assert ParseMSMs(t) == Ok(Wrap(m * 60000 + sec * 1000 + x));
      assert ParseHMSMs(g) == Ok(Wrap(h * 3600000 + Wrap(m * 60000 + sec * 1000 + x)));
      WrapHours(h, m, sec, x);
    }
  }

  // ---------------------------------------------------------------------
  // The formatter's fields
  // ---------------------------------------------------------------------

  /** The numbers MillsecToVTTTimeString prints, hours first when it prints
      them. */
  function FieldValues(ms: U64): seq<nat> {
    var seconds := ms / 1000;
    var minutes := seconds / 60;
    if FormatOf(ms) == MSMs then [minutes % 60, seconds % 60, ms % 1000]
    else [minutes / 60, minutes % 60, seconds % 60, ms % 1000]
  }

  /** The digit groups MillsecToVTTTimeString writes. */
  function Fields(ms: U64): (fs: seq<string>)
    ensures |fs| == |FieldValues(ms)|
  {
    var v := FieldValues(ms);
    if FormatOf(ms) == MSMs then [PadDecimal(v[0], 2), PadDecimal(v[1], 2), PadDecimal(v[2], 3)]
    else [PadDecimal(v[0], 2), PadDecimal(v[1], 2), PadDecimal(v[2], 2), PadDecimal(v[3], 3)]
  }

  /** The hour test of MillsecToVTTTimeString is the one-hour bound. */
  lemma HoursBound(ms: U64)
    ensures ((ms / 1000) / 60) / 60 < 1 <==> ms < 3600000
  {
  }

  /** The fields recombine to the milliseconds they came from. */
  lemma FieldValuesSum(ms: U64)
    ensures var v := FieldValues(ms);
            if FormatOf(ms) == MSMs then Millis(0, v[0], v[1], v[2]) == ms
            else Millis(v[0], v[1], v[2], v[3]) == ms
  {
    var seconds := ms / 1000;
    var minutes := seconds / 60;
    var hours := minutes / 60;
    assert ms == seconds * 1000 + ms % 1000;
    assert seconds == minutes * 60 + seconds % 60;
    assert minutes == hours * 60 + minutes % 60;
    HoursBound(ms);
  }

  lemma ComposeMSMs(a: string, b: string, c: string)
    ensures a + ":" + b + "." + c == Compose([a, b, c], Separators(MSMs))
  {
    var f := [a, b, c];
    var seps := Separators(MSMs);
    assert f[1..] == [b, c] && seps[1..] == ['.'];
    assert f[1..][1..] == [c] && seps[1..][1..] == [];
  }

  lemma ComposeHMSMs(a: string, b: string, c: string, d: string)
    ensures a + ":" + b + ":" + c + "." + d == Compose([a, b, c, d], Separators(HMSMs))
  {
    var f := [a, b, c, d];
    var seps := Separators(HMSMs);
    assert f[1..] == [b, c, d] && seps[1..] == Separators(MSMs);
    ComposeMSMs(b, c, d);
  }

  /** MillsecToVTTTimeString writes its fields with the separators of the
      form FormatOf names. */
  lemma FormatIsCompose(ms: U64)
    ensures |Fields(ms)| == |Separators(FormatOf(ms))| + 1 && Numerals(Fields(ms))
    ensures FormatMillis(ms) == Compose(Fields(ms), Separators(FormatOf(ms)))
  {
    HoursBound(ms);
    var f := Fields(ms);
    assert Numeral(f[0]) && Numeral(f[1]) && Numeral(f[2]);
    if FormatOf(ms) == HMSMs {
      assert Numeral(f[3]);
      ComposeHMSMs(f[0], f[1], f[2], f[3]);
    } else {
      ComposeMSMs(f[0], f[1], f[2]);
    }
  }

  /** Each field the formatter writes reads back as the number it holds. */
  lemma ParseField(v: nat, w: nat)
    requires v < TWO_64
    ensures ParseUint(PadDecimal(v, w)) == Ok(v)
  {
    PadDecimalValue(v, w);
  }

  /** Fields that fit together in 64 bits convert without wrapping. */
  lemma ParseSMsOk(g: seq<string>, sec: nat, x: nat)
    requires |g| >= 3 && ParseUint(g[1]) == Ok(sec) && ParseUint(g[2]) == Ok(x)
    requires Millis(0, 0, sec, x) < TWO_64
    ensures ParseSMs(g) == Ok(Millis(0, 0, sec, x))
  {
    WrapSmall(sec * 1000 + x);
  }

  lemma WrapSmall(x: nat)
    requires x < TWO_64
    ensures Wrap(x) == x
  {
  }

  lemma ParseMSMsOk(g: seq<string>, m: nat, sec: nat, x: nat)
    requires |g| >= 4 && ParseUint(g[1]) == Ok(m) && ParseUint(g[2]) == Ok(sec) && ParseUint(g[3]) == Ok(x)
    requires Millis(0, m, sec, x) < TWO_64
    ensures ParseMSMs(g) == Ok(Millis(0, m, sec, x))
  {
    var t := g[1..];
    var rest := Millis(0, 0, sec, x);
    assert ParseSMs(t) == Ok(rest) by {
      assert t[1] == g[2] && t[2] == g[3];
      ParseSMsOk(t, sec, x);
    }
    assert Wrap(m * 60000 + rest) == Millis(0, m, sec, x) by {
      WrapSmall(m * 60000 + rest);
    }
  }

  lemma ParseHMSMsOk(g: seq<string>, h: nat, m: nat, sec: nat, x: nat)
    requires |g| >= 5 && ParseUint(g[1]) == Ok(h) && ParseUint(g[2]) == Ok(m)
    requires ParseUint(g[3]) == Ok(sec) && ParseUint(g[4]) == Ok(x)
    requires Millis(h, m, sec, x) < TWO_64
    ensures ParseHMSMs(g) == Ok(Millis(h, m, sec, x))
  {
    var t := g[1..];
    var rest := Millis(0, m, sec, x);
    assert ParseMSMs(t) == Ok(rest) by {
      assert t[1] == g[2] && t[2] == g[3] && t[3] == g[4];
      ParseMSMsOk(t, m, sec, x);
    }
    assert Wrap(h * 3600000 + rest) == Millis(h, m, sec, x) by {
      WrapSmall(h * 3600000 + rest);
    }
  }

  /** Parsed under their own form, the fields give `ms` back, whatever the
      whole-match text in front of them. */
  lemma ParseFields(ms: U64, w: string)
    ensures ParseAs(FormatOf(ms), [w] + Fields(ms)) == Ok(ms)
  {
    var v := FieldValues(ms);
    FieldValuesSum(ms);
    if FormatOf(ms) == MSMs {
      var g := [w] + Fields(ms);
      ParseField(v[0], 2);
      ParseField(v[1], 2);
      ParseField(v[2], 3);
      ParseMSMsOk(g, v[0], v[1], v[2]);
    } else {
      var g := [w] + Fields(ms);
      ParseField(v[0], 2);
      ParseField(v[1], 2);
      ParseField(v[2], 2);
      ParseField(v[3], 3);
      ParseHMSMsOk(g, v[0], v[1], v[2], v[3]);
    }
  }

  // ---------------------------------------------------------------------
  // Round trips
  // ---------------------------------------------------------------------

  /** A text that is one composed time, and nothing more, is one match. */
  lemma WholeMatch(s: string, f: seq<string>, seps: seq<char>)
    requires |f| == |seps| + 1 && Numerals(f)
    requires forall k :: 0 <= k < |seps| ==> !IsDigit(seps[k])
    requires s == Compose(f, seps)
    ensures FindAll(s, seps) == [[s] + f]
  {
    MatchAtCompose(s, 0, 0, f, seps);
    assert Span(s, |s|, Space) == |s|;
    assert s[0..|s|] == s;
    FindFromHit(s, 0, seps, Match(|s|, [s] + f));
  }

  /** A single rendered time is classified under the form it was written in
      and reads back as the same milliseconds. */
  lemma SingleRoundTrip(ms: U64)
    ensures var s := FormatMillis(ms);
            GetTimeRangeTokens(s) == (FormatOf(ms), [[s] + Fields(ms)]) &&
            ParseAs(FormatOf(ms), [s] + Fields(ms)) == Ok(ms)
  {
    var s := FormatMillis(ms);
    var seps := Separators(FormatOf(ms));
    FormatIsCompose(ms);
    WholeMatch(s, Fields(ms), seps);
    if FormatOf(ms) == MSMs {
      MinutesBlockNoMatch(s, 0, 0, Fields(ms));
      FindFromSkip(s, 0, |s|, Separators(HMSMs));
    }
    ParseFields(ms, s);
  }

  /** The arrow String writes between the two ends of a cue. */
  lemma ArrowText(c1: string, c2: string)
    ensures c1 + " --> " + c2 == RangeText(c1, 2, c2)
  {
    assert Dashes(2) == "--";
  }

  /** A cue time line String writes reads back as the same range, provided
      both ends are written in the same form. */
  lemma RangeRoundTrip(a: U64, b: U64)
    requires FormatOf(a) == FormatOf(b)
    ensures GetTimeRange(FormatMillis(a) + " --> " + FormatMillis(b)) == TimeRange(a, b, None)
  {
    var c1 := FormatMillis(a);
    var c2 := FormatMillis(b);
    RangeTokens(a, b);
    assert ParseAs(FormatOf(a), [c1 + " "] + Fields(a)) == Ok(a) by { ParseFields(a, c1 + " "); }
    assert ParseAs(FormatOf(a), [" " + c2] + Fields(b)) == Ok(b) by { ParseFields(b, " " + c2); }
  }

  /** A time line String writes is classified under the form of its ends,
      with one match per end. */
  lemma RangeTokens(a: U64, b: U64)
    requires FormatOf(a) == FormatOf(b)
    ensures var c1 := FormatMillis(a);
            var c2 := FormatMillis(b);
            GetTimeRangeTokens(c1 + " --> " + c2) == (FormatOf(a), [[c1 + " "] + Fields(a), [" " + c2] + Fields(b)])
  {
    RangeFound(a, b);
    if FormatOf(a) == MSMs {
      RangeNoHours(a, b);
    }
    Classified(FormatMillis(a) + " --> " + FormatMillis(b), FormatOf(a),
               [[FormatMillis(a) + " "] + Fields(a), [" " + FormatMillis(b)] + Fields(b)]);
  }

  lemma RangeFound(a: U64, b: U64)
    requires FormatOf(a) == FormatOf(b)
    ensures var c1 := FormatMillis(a);
            var c2 := FormatMillis(b);
            FindAll(c1 + " --> " + c2, Separators(FormatOf(a))) == [[c1 + " "] + Fields(a), [" " + c2] + Fields(b)]
  {
    var c1 := FormatMillis(a);
    var c2 := FormatMillis(b);
    ArrowText(c1, c2);
    FormatIsCompose(a);
    FormatIsCompose(b);
    RangeMatches(Fields(a), 2, Fields(b), Separators(FormatOf(a)));
  }

  lemma RangeNoHours(a: U64, b: U64)
    requires FormatOf(a) == MSMs && FormatOf(b) == MSMs
    ensures FindAll(FormatMillis(a) + " --> " + FormatMillis(b), Separators(HMSMs)) == []
  {
    var c1 := FormatMillis(a);
    var c2 := FormatMillis(b);
    ArrowText(c1, c2);
    FormatIsCompose(a);
    FormatIsCompose(b);
    MinutesRangeNoHours(Fields(a), 2, Fields(b));
  }

  /** The form whose pattern matches, when every form tried before it
      does not. */
  lemma Classified(s: string, t: TsType, ms: seq<seq<string>>)
    requires t != TsErr
    requires FindAll(s, Separators(t)) == ms && ms != []
    requires t != HMSMs ==> FindAll(s, Separators(HMSMs)) == []
    requires t == SMs ==> FindAll(s, Separators(MSMs)) == []
    ensures GetTimeRangeTokens(s) == (t, ms)
  {
  }

  /** An `M:S.ms` end, an arrow and an `H:M:S.ms` end that closes the text:
      the `H:M:S.ms` pattern matches the second end only. */
  lemma MixedEnds(s: string, f1: seq<string>, c1: string, d: nat, f2: seq<string>, c2: string)
    requires |f1| == 3 && Numerals(f1) && c1 == Compose(f1, Separators(MSMs))
    requires |f2| == 4 && Numerals(f2) && c2 == Compose(f2, Separators(HMSMs))
    requires At(s, 0, c1) && ArrowAt(s, |c1|, d) && At(s, |c1| + d + 3, c2)
    requires |s| == |c1| + d + 3 + |c2|
    ensures FindFrom(s, 0, Separators(HMSMs)) == [[" " + c2] + f2]
  {
    var q := |c1| + d + 2;
    assert FindFrom(s, q, Separators(HMSMs)) == [[" " + c2] + f2] by {
      FindLastEnd(s, q, f2, c2, Separators(HMSMs));
    }
    assert FindFrom(s, 0, Separators(HMSMs)) == FindFrom(s, q, Separators(HMSMs)) by {
      MinutesHeadNoMatch(s, f1, c1, d);
      SkipToArrowEnd(s, |c1|, d, Separators(HMSMs));
    }
  }

  /** A cue that crosses the one-hour mark is written in two forms, and its
      time line cannot be read back: only the second end matches the
      `H:M:S.ms` pattern, so getTimeRange reports that it found no range. */
  lemma MixedRangeFails(a: U64, b: U64)
    requires a < 3600000 <= b
    ensures var s := FormatMillis(a) + " --> " + FormatMillis(b);
            GetTimeRange(s) == TimeRange(0, 0, Some(RangeNotFound(s)))
  {
    var c1 := FormatMillis(a);
    var c2 := FormatMillis(b);
    MixedTokens(a, b);
  }

  lemma MixedTokens(a: U64, b: U64)
    requires a < 3600000 <= b
    ensures var c2 := FormatMillis(b);
            FindAll(FormatMillis(a) + " --> " + c2, Separators(HMSMs)) == [[" " + c2] + Fields(b)]
  {
    var c1 := FormatMillis(a);
    var c2 := FormatMillis(b);
    ArrowText(c1, c2);
    FormatIsCompose(a);
    FormatIsCompose(b);
    RangeLayout(c1, 2, c2);
    MixedEnds(RangeText(c1, 2, c2), Fields(a), c1, 2, Fields(b), c2);
  }
}
