/** What the timestamp codec guarantees: how its patterns meet texts built
    from digit groups, the conversion formula, and the round trip between
    MillsecToVTTTimeString and getTimeRange. */
module TimestampProofs {
  import opened Text
  import opened Timestamp

  predicate Numeral(f: string) {
    f != [] && AllIn(f, Digit)
  }

  predicate Numerals(fields: seq<string>) {
    forall k :: 0 <= k < |fields| ==> Numeral(fields[k])
  }

  /** Digit groups written one after another with `seps` between them. */
  function Compose(fields: seq<string>, seps: seq<char>): string
    requires |fields| == |seps| + 1
    decreases |seps|
  {
    if seps == [] then fields[0]
    else fields[0] + [seps[0]] + Compose(fields[1..], seps[1..])
  }

  /** `s` holds `c` at offset `o`. */
  predicate At(s: string, o: nat, c: string) {
    o + |c| <= |s| && s[o..o + |c|] == c
  }

  /** A range line: two texts around a `-->`-style arrow of `d` dashes. */
  function RangeText(c1: string, d: nat, c2: string): string {
    c1 + [' '] + Dashes(d) + ['>', ' '] + c2
  }

  function Dashes(d: nat): (s: string)
    ensures |s| == d && forall k :: 0 <= k < d ==> s[k] == '-'
  {
    if d == 0 then "" else "-" + Dashes(d - 1)
  }

  // ---------------------------------------------------------------------
  // Matching composed digit groups
  // ---------------------------------------------------------------------

  lemma AtSplit(s: string, o: nat, a: string, b: string)
    requires At(s, o, a + b)
    ensures At(s, o, a) && At(s, o + |a|, b)
  {
    assert s[o..o + |a|] == (a + b)[..|a|] == a;
    assert s[o + |a|..o + |a| + |b|] == (a + b)[|a|..] == b;
  }

  lemma AtDigits(s: string, o: nat, f: string)
    requires At(s, o, f) && AllIn(f, Digit)
    ensures forall k :: o <= k < o + |f| ==> IsDigit(s[k])
  {
    forall k | o <= k < o + |f| ensures IsDigit(s[k]) {
      assert s[k] == s[o..o + |f|][k - o];
    }
  }

  lemma AtChar(s: string, o: nat, c: char)
    requires At(s, o, [c])
    ensures o < |s| && s[o] == c
  {
    assert s[o] == s[o..o + 1][0];
  }

  lemma NumeralsTail(fields: seq<string>)
    requires fields != [] && Numerals(fields)
    ensures Numeral(fields[0]) && Numerals(fields[1..])
  {
    forall k | 0 <= k < |fields[1..]| ensures Numeral(fields[1..][k]) {
      assert fields[1..][k] == fields[k + 1];
    }
  }

  /** The field scanner reads composed digit groups back exactly. */
  lemma {:induction false} MatchFieldsCompose(s: string, i: nat, fields: seq<string>, seps: seq<char>)
    requires |fields| == |seps| + 1 && Numerals(fields)
    requires forall k :: 0 <= k < |seps| ==> !IsDigit(seps[k])
    requires At(s, i, Compose(fields, seps))
    requires i + |Compose(fields, seps)| < |s| ==> !IsDigit(s[i + |Compose(fields, seps)|])
    ensures MatchFields(s, i, seps) == Some(Match(i + |Compose(fields, seps)|, fields))
    decreases |seps|
  {
    NumeralsTail(fields);
    if seps == [] {
      assert Compose(fields, seps) == fields[0];
      FieldOne(s, i, fields[0]);
      assert [fields[0]] == fields;
    } else {
      ComposeAt(s, i, fields, seps);
      var j := i + |fields[0]| + 1;
      MatchFieldsCompose(s, j, fields[1..], seps[1..]);
      FieldThen(s, i, fields[0], seps, i + |Compose(fields, seps)|, fields[1..], fields);
    }
  }

  /** Where the pieces of a composed text sit. */
  lemma ComposeAt(s: string, i: nat, fields: seq<string>, seps: seq<char>)
    requires |fields| == |seps| + 1 && seps != []
    requires forall k :: 0 <= k < |seps| ==> !IsDigit(seps[k])
    requires At(s, i, Compose(fields, seps))
    ensures var rest := Compose(fields[1..], seps[1..]);
            At(s, i, fields[0]) && At(s, i + |fields[0]|, [seps[0]]) &&
            At(s, i + |fields[0]| + 1, rest) &&
            |Compose(fields, seps)| == |fields[0]| + 1 + |rest|
    ensures forall k :: 0 <= k < |seps[1..]| ==> !IsDigit(seps[1..][k])
    ensures [fields[0]] + fields[1..] == fields
  {
    var f := fields[0];
    var rest := Compose(fields[1..], seps[1..]);
    assert Compose(fields, seps) == (f + [seps[0]]) + rest;
    AtSplit(s, i, f + [seps[0]], rest);
    AtSplit(s, i, f, [seps[0]]);
    assert forall k :: 0 <= k < |seps[1..]| ==> seps[1..][k] == seps[k + 1];
  }

  lemma FieldOne(s: string, i: nat, f: string)
    requires Numeral(f) && At(s, i, f)
    requires i + |f| < |s| ==> !IsDigit(s[i + |f|])
    ensures MatchFields(s, i, []) == Some(Match(i + |f|, [f]))
  {
    AtDigits(s, i, f);
    SpanIs(s, i, i + |f|, Digit);
  }

  lemma FieldThen(s: string, i: nat, f: string, seps: seq<char>, e: nat, gs: seq<string>, all: seq<string>)
    requires Numeral(f) && At(s, i, f) && seps != [] && !IsDigit(seps[0])
    requires At(s, i + |f|, [seps[0]])
    requires MatchFields(s, i + |f| + 1, seps[1..]) == Some(Match(e, gs))
    requires all == [f] + gs
    ensures MatchFields(s, i, seps) == Some(Match(e, all))
  {
    AtChar(s, i + |f|, seps[0]);
    AtDigits(s, i, f);
    SpanIs(s, i, i + |f|, Digit);
  }

  /** The whole pattern matches leading spaces, composed groups and trailing
      spaces. */
  lemma MatchAtCompose(s: string, p: nat, a: nat, fields: seq<string>, seps: seq<char>)
    requires |fields| == |seps| + 1 && Numerals(fields)
    requires forall k :: 0 <= k < |seps| ==> !IsDigit(seps[k])
    requires At(s, a, Compose(fields, seps))
    requires p <= a && forall k :: p <= k < a ==> IsSpace(s[k])
    requires a + |Compose(fields, seps)| < |s| ==> !IsDigit(s[a + |Compose(fields, seps)|])
    ensures var e := Span(s, a + |Compose(fields, seps)|, Space);
            MatchAt(s, p, seps) == Some(Match(e, [s[p..e]] + fields))
  {
    assert Numeral(fields[0]);
    ComposeStartsWithDigit(fields, seps);
    assert s[a] == Compose(fields, seps)[0];
    SpanIs(s, p, a, Space);
    MatchFieldsCompose(s, a, fields, seps);
  }

  lemma ComposeStartsWithDigit(fields: seq<string>, seps: seq<char>)
    requires |fields| == |seps| + 1 && Numerals(fields)
    ensures |Compose(fields, seps)| >= 1 && IsDigit(Compose(fields, seps)[0])
  {
    assert Numeral(fields[0]);
    if seps != [] {
      assert Compose(fields, seps)[0] == fields[0][0];
    }
  }

  /** No match starts at a character that is neither white space nor a
      digit. */
  lemma NoMatchAtOther(s: string, p: nat, seps: seq<char>)
    requires p < |s| && !IsSpace(s[p]) && !IsDigit(s[p])
    ensures MatchAt(s, p, seps) == None
  {
    assert Span(s, p, Space) == p;
    assert Span(s, p, Digit) == p;
  }

  /** Positions where no match starts are passed over. */
  lemma {:induction false} FindFromSkip(s: string, p: nat, q: nat, seps: seq<char>)
    requires p <= q <= |s|
    requires forall i :: p <= i < q ==> MatchAt(s, i, seps) == None
    ensures FindFrom(s, p, seps) == FindFrom(s, q, seps)
    decreases q - p
  {
    if p < q {
      FindFromSkip(s, p + 1, q, seps);
    }
  }

  /** A pattern whose first separator never occurs matches nowhere. */
  lemma NoFirstSeparator(s: string, seps: seq<char>)
    requires seps != [] && !IsDigit(seps[0]) && seps[0] !in s
    ensures FindAll(s, seps) == []
  {
    forall i | 0 <= i < |s| ensures MatchAt(s, i, seps) == None {
      var a := Span(s, i, Space);
      var j := Span(s, a, Digit);
      assert j < |s| ==> s[j] != seps[0];
    }
    FindFromSkip(s, 0, |s|, seps);
  }

  /** In a `M:S.ms` block the `H:M:S.ms` field scanner finds nothing at any
      position: every digit run inside it ends at `.` or at the block's
      end, never at a second `:`. */
  lemma MinutesBlockNoHours(s: string, o: nat, f: seq<string>, i: nat)
    requires |f| == 3 && Numerals(f)
    requires At(s, o, Compose(f, [':', '.']))
    requires o + |Compose(f, [':', '.'])| < |s| ==>
               !IsDigit(s[o + |Compose(f, [':', '.'])|]) && s[o + |Compose(f, [':', '.'])|] != ':'
    requires o <= i < o + |Compose(f, [':', '.'])|
    ensures MatchFields(s, i, Separators(HMSMs)) == None
  {
    var b1 := o + |f[0]|;
    var b2 := b1 + 1 + |f[1]|;
    MinutesLayout(s, o, f);
    NoHoursIn(s, o, b1, b2, o + |Compose(f, [':', '.'])|, i);
  }

  /** Where the digits and separators of a `M:S.ms` block sit. */
  lemma MinutesLayout(s: string, o: nat, f: seq<string>)
    requires |f| == 3 && Numerals(f)
    requires At(s, o, Compose(f, [':', '.']))
    ensures var b1 := o + |f[0]|;
            var b2 := b1 + 1 + |f[1]|;
            var e := b2 + 1 + |f[2]|;
            o < b1 && b1 + 1 < b2 && b2 + 1 < e && e == o + |Compose(f, [':', '.'])| && e <= |s| &&
            s[b1] == ':' && s[b2] == '.' &&
            (forall k :: o <= k < b1 ==> IsDigit(s[k])) &&
            (forall k :: b1 < k < b2 ==> IsDigit(s[k])) &&
            (forall k :: b2 < k < e ==> IsDigit(s[k]))
  {
    var c := Compose(f, [':', '.']);
    assert Numeral(f[0]) && Numeral(f[1]) && Numeral(f[2]);
    assert Compose(f[1..], ['.']) == f[1] + ['.'] + f[2];
    assert c == f[0] + [':'] + f[1] + ['.'] + f[2];
    var b1 := o + |f[0]|;
    var b2 := b1 + 1 + |f[1]|;
    var e := b2 + 1 + |f[2]|;
    assert forall k :: o <= k < e ==> s[k] == c[k - o];
    forall k | o <= k < b1 ensures IsDigit(s[k]) { assert s[k] == f[0][k - o]; }
    forall k | b1 < k < b2 ensures IsDigit(s[k]) { assert s[k] == f[1][k - b1 - 1]; }
    forall k | b2 < k < e ensures IsDigit(s[k]) { assert s[k] == f[2][k - b2 - 1]; }
  }

  /** The case analysis behind MinutesBlockNoHours, on positions alone. */
  lemma NoHoursIn(s: string, o: nat, b1: nat, b2: nat, e: nat, i: nat)
    requires o < b1 && b1 + 1 < b2 && b2 + 1 < e <= |s| && s[b1] == ':' && s[b2] == '.'
    requires forall k :: o <= k < b1 ==> IsDigit(s[k])
    requires forall k :: b1 < k < b2 ==> IsDigit(s[k])
    requires forall k :: b2 < k < e ==> IsDigit(s[k])
    requires e < |s| ==> !IsDigit(s[e]) && s[e] != ':'
    requires o <= i < e
    ensures MatchFields(s, i, Separators(HMSMs)) == None
  {
    if i < b1 {
      SpanIs(s, i, b1, Digit);
      SpanIs(s, b1 + 1, b2, Digit);
    } else if i == b1 || i == b2 {
    } else if i < b2 {
      SpanIs(s, i, b2, Digit);
    } else {
      SpanIs(s, i, e, Digit);
    }
  }

  // ---------------------------------------------------------------------
  // Range lines
  // ---------------------------------------------------------------------

  /** An arrow of `d` dashes at offset `o`: a space, the dashes, `>` and a
      space. */
  predicate ArrowAt(s: string, o: nat, d: nat) {
    o + d + 3 <= |s| && s[o] == ' ' && (forall k :: o < k <= o + d ==> s[k] == '-') &&
    s[o + d + 1] == '>' && s[o + d + 2] == ' '
  }

  /** Where everything sits in a range line. */
  lemma RangeLayout(c1: string, d: nat, c2: string)
    ensures var s := RangeText(c1, d, c2);
            |s| == |c1| + d + 3 + |c2| && ArrowAt(s, |c1|, d) &&
            At(s, 0, c1) && At(s, |c1| + d + 3, c2)
  {
    var s := RangeText(c1, d, c2);
    var dd := Dashes(d);
    assert s == c1 + ([' '] + dd + ['>', ' '] + c2);
    assert forall k :: |c1| < k <= |c1| + d ==> s[k] == dd[k - |c1| - 1];
    assert s[|c1| + d + 3..] == c2;
  }

  /** A match found is reported, and the search resumes where it ended. */
  lemma FindFromHit(s: string, p: nat, seps: seq<char>, m: Match)
    requires p < |s| && MatchAt(s, p, seps) == Some(m)
    ensures FindFrom(s, p, seps) == [m.groups] + FindFrom(s, m.end, seps)
  {
  }

  /** No character of an arrow starts a match. */
  lemma ArrowNoMatch(s: string, o: nat, d: nat, seps: seq<char>, i: nat)
    requires ArrowAt(s, o, d) && o <= i < o + d + 2
    ensures MatchAt(s, i, seps) == None
  {
    if i == o {
      SpanIs(s, i, i + 1, Space);
      assert Span(s, i + 1, Digit) == i + 1;
    } else {
      NoMatchAtOther(s, i, seps);
    }
  }

  /** The search passes over an arrow, up to the space that ends it. */
  lemma ArrowSkip(s: string, o: nat, d: nat, seps: seq<char>, from: nat)
    requires ArrowAt(s, o, d) && o <= from <= o + d + 2
    ensures FindFrom(s, from, seps) == FindFrom(s, o + d + 2, seps)
  {
    forall i | from <= i < o + d + 2 ensures MatchAt(s, i, seps) == None {
      ArrowNoMatch(s, o, d, seps, i);
    }
    FindFromSkip(s, from, o + d + 2, seps);
  }

  /** Composed groups at the start, followed by one space and something
      that is not white space, match as the groups plus that space. */
  lemma FirstEnd(s: string, f1: seq<string>, seps: seq<char>, o: nat)
    requires |f1| == |seps| + 1 && Numerals(f1)
    requires forall k :: 0 <= k < |seps| ==> !IsDigit(seps[k])
    requires At(s, 0, Compose(f1, seps)) && o == |Compose(f1, seps)|
    requires o + 1 < |s| && s[o] == ' ' && !IsSpace(s[o + 1])
    ensures MatchAt(s, 0, seps) == Some(Match(o + 1, [Compose(f1, seps) + " "] + f1))
  {
    MatchAtCompose(s, 0, 0, f1, seps);
    SpanIs(s, o, o + 1, Space);
    assert s[0..o + 1] == s[0..o] + [s[o]];
  }

  /** One space, then composed groups up to the end of the text, match as
      that space plus the groups. */
  lemma LastEnd(s: string, p: nat, f2: seq<string>, seps: seq<char>)
    requires |f2| == |seps| + 1 && Numerals(f2)
    requires forall k :: 0 <= k < |seps| ==> !IsDigit(seps[k])
    requires p + 1 + |Compose(f2, seps)| == |s| && s[p] == ' ' && At(s, p + 1, Compose(f2, seps))
    ensures MatchAt(s, p, seps) == Some(Match(|s|, [" " + Compose(f2, seps)] + f2))
  {
    MatchAtCompose(s, p, p + 1, f2, seps);
    assert Span(s, |s|, Space) == |s|;
    assert s[p..|s|] == [s[p]] + s[p + 1..|s|];
  }

  /** After the space that opens an arrow, the search resumes after it. */
  lemma ArrowTail(s: string, o: nat, d: nat, seps: seq<char>)
    requires ArrowAt(s, o, d)
    ensures FindFrom(s, o + 1, seps) == FindFrom(s, o + d + 2, seps)
  {
    ArrowSkip(s, o, d, seps, o + 1);
  }

  /** Composed groups at the start and an arrow after them: the search
      reports the groups and resumes at the space that ends the arrow. */
  lemma FindFirstEnd(s: string, f1: seq<string>, c1: string, d: nat, seps: seq<char>)
    requires |f1| == |seps| + 1 && Numerals(f1) && c1 == Compose(f1, seps)
    requires forall k :: 0 <= k < |seps| ==> !IsDigit(seps[k])
    requires At(s, 0, c1) && ArrowAt(s, |c1|, d)
    ensures FindFrom(s, 0, seps) == [[c1 + " "] + f1] + FindFrom(s, |c1| + d + 2, seps)
  {
    FirstHit(s, f1, c1, d, seps);
    ArrowTail(s, |c1|, d, seps);
  }

  lemma FirstHit(s: string, f1: seq<string>, c1: string, d: nat, seps: seq<char>)
    requires |f1| == |seps| + 1 && Numerals(f1) && c1 == Compose(f1, seps)
    requires forall k :: 0 <= k < |seps| ==> !IsDigit(seps[k])
    requires At(s, 0, c1) && ArrowAt(s, |c1|, d)
    ensures FindFrom(s, 0, seps) == [[c1 + " "] + f1] + FindFrom(s, |c1| + 1, seps)
  {
    var m := Match(|c1| + 1, [c1 + " "] + f1);
    assert MatchAt(s, 0, seps) == Some(m) by {
      assert s[|c1| + 1] == if d == 0 then '>' else '-';
      FirstEnd(s, f1, seps, |c1|);
    }
    FindFromHit(s, 0, seps, m);
  }

  /** A space and composed groups that end the text: the search reports
      them and nothing more. */
  lemma FindLastEnd(s: string, p: nat, f2: seq<string>, c2: string, seps: seq<char>)
    requires |f2| == |seps| + 1 && Numerals(f2) && c2 == Compose(f2, seps)
    requires forall k :: 0 <= k < |seps| ==> !IsDigit(seps[k])
    requires p + 1 + |c2| == |s| && s[p] == ' ' && At(s, p + 1, c2)
    ensures FindFrom(s, p, seps) == [[" " + c2] + f2]
  {
    LastEnd(s, p, f2, seps);
    FindFromHit(s, p, seps, Match(|s|, [" " + c2] + f2));
  }

  /** Two composed ends around an arrow: the pattern matches exactly the
      two ends, the first with the space after it, the second with the
      space before it. */
  lemma TwoEnds(s: string, f1: seq<string>, c1: string, d: nat, f2: seq<string>, c2: string, seps: seq<char>)
    requires |f1| == |seps| + 1 && Numerals(f1) && c1 == Compose(f1, seps)
    requires |f2| == |seps| + 1 && Numerals(f2) && c2 == Compose(f2, seps)
    requires forall k :: 0 <= k < |seps| ==> !IsDigit(seps[k])
    requires At(s, 0, c1) && ArrowAt(s, |c1|, d) && At(s, |c1| + d + 3, c2)
    requires |s| == |c1| + d + 3 + |c2|
    ensures FindFrom(s, 0, seps) == [[c1 + " "] + f1, [" " + c2] + f2]
  {
    FindFirstEnd(s, f1, c1, d, seps);
    var rest := FindFrom(s, |c1| + d + 2, seps);
    FindLastEnd(s, |c1| + d + 2, f2, c2, seps);
    assert rest == [[" " + c2] + f2];
  }

  /** A range line whose two ends are composed under the same separators
      gives that pattern exactly two matches: the two ends' groups. */
  lemma RangeMatches(f1: seq<string>, d: nat, f2: seq<string>, seps: seq<char>)
    requires |f1| == |seps| + 1 && Numerals(f1) && |f2| == |seps| + 1 && Numerals(f2)
    requires forall k :: 0 <= k < |seps| ==> !IsDigit(seps[k])
    ensures var c1 := Compose(f1, seps);
            var c2 := Compose(f2, seps);
            FindAll(RangeText(c1, d, c2), seps) == [[c1 + " "] + f1, [" " + c2] + f2]
  {
    var c1 := Compose(f1, seps);
    var c2 := Compose(f2, seps);
    RangeLayout(c1, d, c2);
    TwoEnds(RangeText(c1, d, c2), f1, c1, d, f2, c2, seps);
  }

  /** A `M:S.ms` block, and the white space before it, start no match of
      the `H:M:S.ms` pattern. */
  lemma MinutesBlockNoMatch(s: string, p: nat, o: nat, f: seq<string>)
    requires |f| == 3 && Numerals(f)
    requires At(s, o, Compose(f, [':', '.']))
    requires o + |Compose(f, [':', '.'])| < |s| ==>
               !IsDigit(s[o + |Compose(f, [':', '.'])|]) && s[o + |Compose(f, [':', '.'])|] != ':'
    requires p <= o && forall k :: p <= k < o ==> IsSpace(s[k])
    ensures forall i :: p <= i < o + |Compose(f, [':', '.'])| ==> MatchAt(s, i, Separators(HMSMs)) == None
  {
    var c := Compose(f, [':', '.']);
    ComposeHasNoSpace(f, [':', '.']);
    ComposeStartsWithDigit(f, [':', '.']);
    forall i | p <= i < o + |c| ensures MatchAt(s, i, Separators(HMSMs)) == None {
      if i < o {
        assert s[o] == c[0];
        SpanIs(s, i, o, Space);
        MinutesBlockNoHours(s, o, f, o);
      } else {
        assert s[i] == c[i - o];
        assert Span(s, i, Space) == i;
        MinutesBlockNoHours(s, o, f, i);
      }
    }
  }

  /** No match before an arrow, nor in it: the search resumes after it. */
  lemma SkipToArrowEnd(s: string, o: nat, d: nat, seps: seq<char>)
    requires ArrowAt(s, o, d) && NoMatchBefore(s, o, seps)
    ensures FindFrom(s, 0, seps) == FindFrom(s, o + d + 2, seps)
  {
    FindFromSkip(s, 0, o, seps);
    ArrowSkip(s, o, d, seps, o);
  }

  /** An `M:S.ms` block at the start, before an arrow, starts no match of
      the `H:M:S.ms` pattern. */
  lemma MinutesHeadNoMatch(s: string, f1: seq<string>, c1: string, d: nat)
    requires |f1| == 3 && Numerals(f1) && c1 == Compose(f1, [':', '.'])
    requires At(s, 0, c1) && ArrowAt(s, |c1|, d)
    ensures NoMatchBefore(s, |c1|, Separators(HMSMs))
  {
    assert s[|c1|] == ' ';
    MinutesBlockNoMatch(s, 0, 0, f1);
  }

  /** The pattern matches at no position before `o`. */
  predicate NoMatchBefore(s: string, o: nat, seps: seq<char>) {
    o <= |s| && forall i :: 0 <= i < o ==> MatchAt(s, i, seps) == None
  }

  /** A space and an `M:S.ms` block that ends the text: the `H:M:S.ms`
      search finds nothing. */
  lemma MinutesLastSkip(s: string, p: nat, f2: seq<string>, c2: string)
    requires |f2| == 3 && Numerals(f2) && c2 == Compose(f2, [':', '.'])
    requires p + 1 + |c2| == |s| && s[p] == ' ' && At(s, p + 1, c2)
    ensures FindFrom(s, p, Separators(HMSMs)) == []
  {
    MinutesBlockNoMatch(s, p, p + 1, f2);
    FindFromSkip(s, p, |s|, Separators(HMSMs));
  }

  /** Two `M:S.ms` ends around an arrow: the `H:M:S.ms` pattern, which has
      one more group, matches nowhere. */
  lemma MinutesEndsNoHours(s: string, f1: seq<string>, c1: string, d: nat, f2: seq<string>, c2: string)
    requires |f1| == 3 && Numerals(f1) && c1 == Compose(f1, [':', '.'])
    requires |f2| == 3 && Numerals(f2) && c2 == Compose(f2, [':', '.'])
    requires At(s, 0, c1) && ArrowAt(s, |c1|, d) && At(s, |c1| + d + 3, c2)
    requires |s| == |c1| + d + 3 + |c2|
    ensures FindFrom(s, 0, Separators(HMSMs)) == []
  {
    MinutesHeadNoMatch(s, f1, c1, d);
    SkipToArrowEnd(s, |c1|, d, Separators(HMSMs));
    MinutesLastSkip(s, |c1| + d + 2, f2, c2);
  }

  /** Under a pattern with one more group than both ends have, a line of
      two `M:S.ms` ends matches nowhere. */
  lemma MinutesRangeNoHours(f1: seq<string>, d: nat, f2: seq<string>)
    requires |f1| == 3 && Numerals(f1) && |f2| == 3 && Numerals(f2)
    ensures FindAll(RangeText(Compose(f1, [':', '.']), d, Compose(f2, [':', '.'])), Separators(HMSMs)) == []
  {
    var c1 := Compose(f1, [':', '.']);
    var c2 := Compose(f2, [':', '.']);
    RangeLayout(c1, d, c2);
    MinutesEndsNoHours(RangeText(c1, d, c2), f1, c1, d, f2, c2);
  }

  lemma {:induction false} ComposeHasNoSpace(fields: seq<string>, seps: seq<char>)
    requires |fields| == |seps| + 1 && Numerals(fields)
    requires forall k :: 0 <= k < |seps| ==> !IsDigit(seps[k]) && !IsSpace(seps[k])
    ensures forall k :: 0 <= k < |Compose(fields, seps)| ==> !IsSpace(Compose(fields, seps)[k])
    decreases |seps|
  {
    assert Numeral(fields[0]);
    if seps != [] {
      assert Numerals(fields[1..]) by {
        forall k | 0 <= k < |fields[1..]| ensures Numeral(fields[1..][k]) {
          assert fields[1..][k] == fields[k + 1];
        }
      }
      ComposeHasNoSpace(fields[1..], seps[1..]);
      var rest := Compose(fields[1..], seps[1..]);
      var c := Compose(fields, seps);
      assert c == fields[0] + [seps[0]] + rest;
      forall k | 0 <= k < |c| ensures !IsSpace(c[k]) {
        if k < |fields[0]| {
          assert c[k] == fields[0][k];
        } else if k > |fields[0]| {
          assert c[k] == rest[k - |fields[0]| - 1];
        }
      }
    }
  }
}
