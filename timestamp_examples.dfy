/** The timestamp codec on the texts of the repository's own tests
    (timestamp_test.go), and one range whose start overflows. */
module TimestampExamples {
  import opened Text
  import opened Timestamp
  import opened TimestampProofs
  import opened TimestampCodec

  /** A range line whose two ends are composed under the form `t` is
      classified under `t` with the two ends as its matches, once the forms
      tried before `t` are known not to occur. */
  lemma RangeClassified(t: TsType, f1: seq<string>, d: nat, f2: seq<string>)
    requires t != TsErr && |f1| == |Separators(t)| + 1 && |f2| == |Separators(t)| + 1
    requires Numerals(f1) && Numerals(f2)
    requires t == SMs ==> ':' !in RangeText(Compose(f1, Separators(t)), d, Compose(f2, Separators(t)))
    ensures var c1 := Compose(f1, Separators(t));
            var c2 := Compose(f2, Separators(t));
            GetTimeRangeTokens(RangeText(c1, d, c2)) == (t, [[c1 + " "] + f1, [" " + c2] + f2])
  {
    var seps := Separators(t);
    var c1 := Compose(f1, seps);
    var c2 := Compose(f2, seps);
    var s := RangeText(c1, d, c2);
    assert forall k :: 0 <= k < |seps| ==> !IsDigit(seps[k]);
    RangeMatches(f1, d, f2, seps);
    if t == MSMs {
      MinutesRangeNoHours(f1, d, f2);
    } else if t == SMs {
      NoFirstSeparator(s, Separators(HMSMs));
      NoFirstSeparator(s, Separators(MSMs));
    }
    Classified(s, t, [[c1 + " "] + f1, [" " + c2] + f2]);
  }

  /** Such a range line reads as what its ends convert to; a start that
      fails to convert leaves 0 behind and no error. */
  lemma RangeValue(t: TsType, f1: seq<string>, d: nat, f2: seq<string>, ra: Result<U64>, b: U64)
    requires t != TsErr && |f1| == |Separators(t)| + 1 && |f2| == |Separators(t)| + 1
    requires Numerals(f1) && Numerals(f2)
    requires t == SMs ==> ':' !in RangeText(Compose(f1, Separators(t)), d, Compose(f2, Separators(t)))
    requires ParseAs(t, [Compose(f1, Separators(t)) + " "] + f1) == ra
    requires ParseAs(t, [" " + Compose(f2, Separators(t))] + f2) == Ok(b)
    ensures GetTimeRange(RangeText(Compose(f1, Separators(t)), d, Compose(f2, Separators(t))))
            == TimeRange(ra.ValueOr(0), b, None)
  {
    RangeClassified(t, f1, d, f2);
  }

  /** The digit groups of the examples. */
  lemma Numbers()
    ensures ParseUint("00") == Ok(0) && ParseUint("000") == Ok(0) && ParseUint("01") == Ok(1)
    ensures ParseUint("10") == Ok(10) && ParseUint("100") == Ok(100) && ParseUint("500") == Ok(500)
  {
    TwoDigits('0', '0');
    TwoDigits('0', '1');
    TwoDigits('1', '0');
    ThreeDigits('0', '0', '0');
    ThreeDigits('1', '0', '0');
    ThreeDigits('5', '0', '0');
  }

  lemma TwoDigits(a: char, b: char)
    requires IsDigit(a) && IsDigit(b)
    ensures AllIn([a, b], Digit) && DecimalValue([a, b]) == 10 * DigitValue(a) + DigitValue(b)
  {
    assert [a][..0] == [];
    assert DecimalValue([a]) == DigitValue(a);
    assert [a, b][..1] == [a];
  }

  lemma ThreeDigits(a: char, b: char, c: char)
    requires IsDigit(a) && IsDigit(b) && IsDigit(c)
    ensures AllIn([a, b, c], Digit) && DecimalValue([a, b, c]) == 100 * DigitValue(a) + 10 * DigitValue(b) + DigitValue(c)
  {
    assert [a, b, c][..2] == [a, b];
    TwoDigits(a, b);
  }

  /** A decimal that does not start with 0 is at least 10^(digits - 1). */
  lemma {:induction false} DecimalAtLeast(s: string)
    requires |s| >= 1 && AllIn(s, Digit) && s[0] != '0'
    ensures DecimalValue(s) >= Pow10(|s| - 1)
    decreases |s|
  {
    var n := |s|;
    if n == 1 {
      assert s[..0] == [];
    } else {
      var front := s[..n - 1];
      assert front[0] == s[0];
      DecimalAtLeast(front);
    }
  }

  lemma {:induction false} Pow10Add(a: nat, b: nat)
    ensures Pow10(a + b) == Pow10(a) * Pow10(b)
    decreases a
  {
    if a > 0 {
      Pow10Add(a - 1, b);
    }
  }

  /** 10^20 is beyond 64 bits. */
  lemma Pow10Twenty()
    ensures Pow10(20) == 100_000_000_000_000_000_000 > TWO_64
  {
    assert Pow10(2) == 100;
    Pow10Add(2, 2);
    Pow10Add(4, 4);
    Pow10Add(8, 8);
    Pow10Add(16, 4);
  }

  /** The `H:M:S.ms` example, with a three-dash arrow. */
  lemma HoursRange(s: string)
    requires s == "00:00:00.100 ---> 01:10:01.100"
    ensures GetTimeRange(s) == TimeRange(100, 4201100, None)
  {
    var f1, f2 := ["00", "00", "00", "100"], ["01", "10", "01", "100"];
    HoursLine(s, f1, f2);
    Numbers();
    HoursFields(Compose(f1, Separators(HMSMs)) + " ", f1, 0, 0, 0, 100);
    HoursFields(" " + Compose(f2, Separators(HMSMs)), f2, 1, 10, 1, 100);
    RangeValue(HMSMs, f1, 3, f2, Ok(100), 4201100);
  }

  lemma HoursLine(s: string, f1: seq<string>, f2: seq<string>)
    requires s == "00:00:00.100 ---> 01:10:01.100"
    requires f1 == ["00", "00", "00", "100"] && f2 == ["01", "10", "01", "100"]
    ensures s == RangeText(Compose(f1, Separators(HMSMs)), 3, Compose(f2, Separators(HMSMs)))
  {
  }

  lemma HoursFields(w: string, f: seq<string>, h: nat, m: nat, sec: nat, x: nat)
    requires |f| == 4 && ParseUint(f[0]) == Ok(h) && ParseUint(f[1]) == Ok(m)
    requires ParseUint(f[2]) == Ok(sec) && ParseUint(f[3]) == Ok(x)
    requires Millis(h, m, sec, x) < TWO_64
    ensures ParseAs(HMSMs, [w] + f) == Ok(Millis(h, m, sec, x))
  {
    ParseHMSMsOk([w] + f, h, m, sec, x);
  }

  lemma MinutesLine(s: string, f1: seq<string>, f2: seq<string>)
    requires s == "00:10.100 --> 01:10.500"
    requires f1 == ["00", "10", "100"] && f2 == ["01", "10", "500"]
    ensures s == RangeText(Compose(f1, Separators(MSMs)), 2, Compose(f2, Separators(MSMs)))
  {
  }

  /** The `M:S.ms` example. */
  lemma MinutesRange(s: string)
    requires s == "00:10.100 --> 01:10.500"
    ensures GetTimeRange(s) == TimeRange(10100, 70500, None)
  {
    var f1, f2 := ["00", "10", "100"], ["01", "10", "500"];
    MinutesLine(s, f1, f2);
    Numbers();
    MinutesFields(Compose(f1, Separators(MSMs)) + " ", f1, 0, 10, 100);
    MinutesFields(" " + Compose(f2, Separators(MSMs)), f2, 1, 10, 500);
    RangeValue(MSMs, f1, 2, f2, Ok(10100), 70500);
  }

  lemma MinutesFields(w: string, f: seq<string>, m: nat, sec: nat, x: nat)
    requires |f| == 3 && ParseUint(f[0]) == Ok(m) && ParseUint(f[1]) == Ok(sec) && ParseUint(f[2]) == Ok(x)
    requires Millis(0, m, sec, x) < TWO_64
    ensures ParseAs(MSMs, [w] + f) == Ok(Millis(0, m, sec, x))
  {
    ParseMSMsOk([w] + f, m, sec, x);
  }

  lemma SecondsLine(s: string, f1: seq<string>, f2: seq<string>)
    requires s == "00.500 -> 10.100"
    requires f1 == ["00", "500"] && f2 == ["10", "100"]
    ensures s == RangeText(Compose(f1, Separators(SMs)), 1, Compose(f2, Separators(SMs)))
  {
  }

  /** The `S.ms` example, with a one-dash arrow. */
  lemma SecondsRange(s: string)
    requires s == "00.500 -> 10.100"
    ensures GetTimeRange(s) == TimeRange(500, 10100, None)
  {
    var f1, f2 := ["00", "500"], ["10", "100"];
    SecondsLine(s, f1, f2);
    Numbers();
    SecondsFields(Compose(f1, Separators(SMs)) + " ", f1, 0, 500);
    SecondsFields(" " + Compose(f2, Separators(SMs)), f2, 10, 100);
    RangeValue(SMs, f1, 1, f2, Ok(500), 10100);
  }

  lemma SecondsFields(w: string, f: seq<string>, sec: nat, x: nat)
    requires |f| == 2 && ParseUint(f[0]) == Ok(sec) && ParseUint(f[1]) == Ok(x)
    requires Millis(0, 0, sec, x) < TWO_64
    ensures ParseAs(SMs, [w] + f) == Ok(Millis(0, 0, sec, x))
  {
    ParseSMsOk([w] + f, sec, x);
  }

  /** A start too large for 64 bits is read as 0 and its error is lost:
      only the end's conversion decides the error getTimeRange returns. */
  lemma StartOverflowLost(s: string)
    requires s == "100000000000000000000.000 --> 01.000"
    ensures GetTimeRange(s) == TimeRange(0, 1000, None)
  {
    var f1, f2 := ["100000000000000000000", "000"], ["01", "000"];
    OverflowLine(s, f1, f2);
    StartOverflows(Compose(f1, Separators(SMs)) + " ", f1);
    Numbers();
    SecondsFields(" " + Compose(f2, Separators(SMs)), f2, 1, 0);
    RangeValue(SMs, f1, 2, f2, Err(NumRange), 1000);
  }

  lemma OverflowLine(s: string, f1: seq<string>, f2: seq<string>)
    requires s == "100000000000000000000.000 --> 01.000"
    requires f1 == ["100000000000000000000", "000"] && f2 == ["01", "000"]
    ensures s == RangeText(Compose(f1, Separators(SMs)), 2, Compose(f2, Separators(SMs)))
  {
  }

  lemma StartOverflows(w: string, f: seq<string>)
    requires f == ["100000000000000000000", "000"]
    ensures ParseAs(SMs, [w] + f) == Err(NumRange)
  {
    assert ParseUint(f[0]) == Err(NumRange) by {
      DecimalAtLeast(f[0]);
      Pow10Twenty();
    }
  }

  /** Texts classified alike whose second match is the same get the same
      end and the same error, whatever their first match: the error
      getTimeRange returns comes from the end alone. */
  lemma ErrorFromEnd(x: string, y: string)
    requires GetTimeRangeTokens(x).0 == GetTimeRangeTokens(y).0 != TsErr
    requires |GetTimeRangeTokens(x).1| == |GetTimeRangeTokens(y).1| == 2
    requires GetTimeRangeTokens(x).1[1] == GetTimeRangeTokens(y).1[1]
    ensures GetTimeRange(x).end == GetTimeRange(y).end && GetTimeRange(x).err == GetTimeRange(y).err
  {
  }

  /** The empty text matches no form. */
  lemma EmptyText(s: string)
    requires s == ""
    ensures GetTimeRangeTokens(s) == (TsErr, [])
    ensures GetTimeRange(s) == TimeRange(0, 0, Some(RangeNotFound(s)))
  {
  }

  /** A single time is one match of its own form, whose groups are the
      whole text and one per field. */
  lemma HoursTokens(s: string)
    requires s == "00:00:00.100"
    ensures GetTimeRangeTokens(s) == (HMSMs, [[s] + ["00", "00", "00", "100"]])
  {
    var f := ["00", "00", "00", "100"];
    assert s == Compose(f, Separators(HMSMs));
    WholeMatch(s, f, Separators(HMSMs));
    Classified(s, HMSMs, [[s] + f]);
  }

  lemma MinutesTokens(s: string)
    requires s == "00:00.100"
    ensures GetTimeRangeTokens(s) == (MSMs, [[s] + ["00", "00", "100"]])
  {
    var f := ["00", "00", "100"];
    assert s == Compose(f, Separators(MSMs));
    WholeMatch(s, f, Separators(MSMs));
    MinutesBlockNoMatch(s, 0, 0, f);
    FindFromSkip(s, 0, |s|, Separators(HMSMs));
    Classified(s, MSMs, [[s] + f]);
  }

  lemma SecondsTokens(s: string)
    requires s == "00.100"
    ensures GetTimeRangeTokens(s) == (SMs, [[s] + ["00", "100"]])
  {
    var f := ["00", "100"];
    assert s == Compose(f, Separators(SMs));
    WholeMatch(s, f, Separators(SMs));
    NoFirstSeparator(s, Separators(HMSMs));
    NoFirstSeparator(s, Separators(MSMs));
    Classified(s, SMs, [[s] + f]);
  }

  /** Fields that must end in `.ms` do not match where no `.` follows. */
  lemma {:induction false} FieldsNeedDot(s: string, i: nat, seps: seq<char>)
    requires i <= |s| && seps != [] && seps[|seps| - 1] == '.'
    requires '.' !in s[i..]
    ensures MatchFields(s, i, seps) == None
    decreases |seps|
  {
    var j := Span(s, i, Digit);
    if j != i && j < |s| && s[j] == seps[0] {
      assert s[j] == s[i..][j - i];
      assert |seps| != 1;
      assert s[j + 1..] == s[i..][j + 1 - i..];
      FieldsNeedDot(s, j + 1, seps[1..]);
    }
  }

  /** No form matches after the last `.`. */
  lemma NoDotNoMatch(s: string, p: nat, seps: seq<char>)
    requires p <= |s| && seps != [] && seps[|seps| - 1] == '.'
    requires '.' !in s[p..]
    ensures FindFrom(s, p, seps) == []
  {
    forall i | p <= i < |s| ensures MatchAt(s, i, seps) == None {
      var a := Span(s, i, Space);
      assert s[a..] == s[p..][a - p..];
      FieldsNeedDot(s, a, seps);
    }
    FindFromSkip(s, p, |s|, seps);
  }

  /** Composed groups, a space, and a rest that holds no `.` and does not
      start with white space: the only match is the groups and the space. */
  lemma SingleMatch(s: string, f: seq<string>, seps: seq<char>, c: string, rest: string)
    requires |f| == |seps| + 1 && Numerals(f) && seps != [] && seps[|seps| - 1] == '.'
    requires forall k :: 0 <= k < |seps| ==> !IsDigit(seps[k])
    requires c == Compose(f, seps) && s == c + " " + rest
    requires rest != [] && !IsSpace(rest[0]) && '.' !in rest
    ensures FindAll(s, seps) == [[c + " "] + f]
  {
    var e := |c| + 1;
    assert s[e..] == rest;
    assert At(s, 0, c) && s[|c|] == ' ' && s[e] == rest[0];
    assert s[0..e] == c + " ";
    MatchAtCompose(s, 0, 0, f, seps);
    SpanIs(s, |c|, e, Space);
    FindFromHit(s, 0, seps, Match(e, [c + " "] + f));
    NoDotNoMatch(s, e, seps);
  }

  lemma NoRangeLine(s: string, f: seq<string>)
    requires s == "0:00:00.000 1:01:01:10" && f == ["0", "00", "00", "000"]
    ensures s == Compose(f, Separators(HMSMs)) + " " + "1:01:01:10"
  {
  }

  /** A text with one `H:M:S.ms` time and something that is none has a
      single match, so getTimeRange reports that it found no range. */
  lemma OneMatch(s: string)
    requires s == "0:00:00.000 1:01:01:10"
    ensures |GetTimeRangeTokens(s).1| == 1
    ensures GetTimeRange(s) == TimeRange(0, 0, Some(RangeNotFound(s)))
  {
    var f := ["0", "00", "00", "000"];
    var seps := Separators(HMSMs);
    NoRangeLine(s, f);
    SingleMatch(s, f, seps, Compose(f, seps), "1:01:01:10");
    Classified(s, HMSMs, [[Compose(f, seps) + " "] + f]);
  }
}
