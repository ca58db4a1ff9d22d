/** Character classes, spans, trimming, splitting and joining, and decimal
    digits: the small pieces of Go's `strings`, `strconv` and `fmt` that the
    caption code relies on, written out over `seq<char>`. */
module Text {

  /** RE2's `\s`: tab, newline, form feed, carriage return and space. */
  predicate IsSpace(c: char) {
    c == '\t' || c == '\n' || c == '\U{000C}' || c == '\r' || c == ' '
  }

  predicate IsDigit(c: char) {
    '0' <= c <= '9'
  }

  /** The character classes the line patterns are built from. */
  datatype CharClass = Space | Digit | TimeChar | Dash

  predicate InClass(c: char, cls: CharClass) {
    match cls
    case Space => IsSpace(c)
    case Digit => IsDigit(c)
    case TimeChar => IsDigit(c) || c == ':' || c == '.'
    case Dash => c == '-'
  }

  /** The end of the longest run of `cls` characters that starts at `i`. */
  function Span(s: string, i: nat, cls: CharClass): (j: nat)
    requires i <= |s|
    ensures i <= j <= |s|
    decreases |s| - i
  {
    if i < |s| && InClass(s[i], cls) then Span(s, i + 1, cls) else i
  }

  /** A run is determined by where it starts: any `j` with the two
      properties above is the span. */
  lemma SpanIs(s: string, i: nat, j: nat, cls: CharClass)
    requires i <= j <= |s|
    requires forall k :: i <= k < j ==> InClass(s[k], cls)
    requires j < |s| ==> !InClass(s[j], cls)
    ensures Span(s, i, cls) == j
    decreases j - i
  {
    if i < j {
      SpanIs(s, i + 1, j, cls);
    }
  }

  /** What a span guarantees: a run of `cls` characters that cannot be
      extended. */
  lemma {:induction false} SpanFacts(s: string, i: nat, cls: CharClass)
    requires i <= |s|
    ensures forall k :: i <= k < Span(s, i, cls) ==> InClass(s[k], cls)
    ensures Span(s, i, cls) < |s| ==> !InClass(s[Span(s, i, cls)], cls)
    decreases |s| - i
  {
    if i < |s| && InClass(s[i], cls) {
      SpanFacts(s, i + 1, cls);
    }
  }

  predicate AllIn(s: string, cls: CharClass) {
    forall k :: 0 <= k < |s| ==> InClass(s[k], cls)
  }

  // ---------------------------------------------------------------------
  // strings.Trim(s, " "), strings.Split(s, " "), strings.Join(ws, " ")
  // ---------------------------------------------------------------------

  /** `r` is `s` with some leading and some trailing spaces cut off. */
  predicate SpacesCut(s: string, r: string) {
    exists i, j :: 0 <= i <= j <= |s| && r == s[i..j]
                   && (forall k :: 0 <= k < i ==> s[k] == ' ')
                   && (forall k :: j <= k < |s| ==> s[k] == ' ')
  }

  /** Go's `strings.Trim(s, " ")`: drop every leading and trailing space
      (only the space character, not other white space). */
  function TrimSpaces(s: string): (r: string)
    ensures SpacesCut(s, r) && |r| <= |s|
    ensures r != [] ==> r[0] != ' ' && r[|r| - 1] != ' '
    decreases |s|
  {
    if s == [] then
      assert s == s[0..0];
      s
    else if s[0] == ' ' then
      var r := TrimSpaces(s[1..]);
      CutFirst(s, r);
      r
    else if s[|s| - 1] == ' ' then
      var r := TrimSpaces(s[..|s| - 1]);
      CutLast(s, r);
      r
    else
      assert s == s[0..|s|];
      s
  }

  lemma CutFirst(s: string, r: string)
    requires s != [] && s[0] == ' ' && SpacesCut(s[1..], r)
    ensures SpacesCut(s, r)
  {
    var t := s[1..];
    var i, j :| 0 <= i <= j <= |t| && r == t[i..j]
                && (forall k :: 0 <= k < i ==> t[k] == ' ')
                && (forall k :: j <= k < |t| ==> t[k] == ' ');
    assert r == s[i + 1..j + 1];
    forall k | 0 <= k < i + 1 ensures s[k] == ' ' {
      if k > 0 { assert s[k] == t[k - 1]; }
    }
    forall k | j + 1 <= k < |s| ensures s[k] == ' ' {
      assert s[k] == t[k - 1];
    }
  }

  lemma CutLast(s: string, r: string)
    requires s != [] && s[|s| - 1] == ' ' && SpacesCut(s[..|s| - 1], r)
    ensures SpacesCut(s, r)
  {
    var t := s[..|s| - 1];
    var i, j :| 0 <= i <= j <= |t| && r == t[i..j]
                && (forall k :: 0 <= k < i ==> t[k] == ' ')
                && (forall k :: j <= k < |t| ==> t[k] == ' ');
    assert r == s[i..j];
    forall k | 0 <= k < i ensures s[k] == ' ' {
      assert s[k] == t[k];
    }
    forall k | j <= k < |s| ensures s[k] == ' ' {
      if k < |t| { assert s[k] == t[k]; }
    }
  }

  /** Go's `strings.Split(s, string(sep))`: the pieces between the
      occurrences of `sep`; a string without `sep` (the empty one too) is a
      single piece. */
  function Split(s: string, sep: char): (r: seq<string>)
    ensures |r| >= 1
    ensures forall w :: w in r ==> sep !in w
    decreases |s|
  {
    if s == [] then [""]
    else
      var rest := Split(s[1..], sep);
      if s[0] == sep then [""] + rest
      else [[s[0]] + rest[0]] + rest[1..]
  }

  /** Go's `strings.Join(ws, string(sep))`. */
  function Join(ws: seq<string>, sep: char): string
  {
    if ws == [] then ""
    else if |ws| == 1 then ws[0]
    else ws[0] + [sep] + Join(ws[1..], sep)
  }

  /** Joining the pieces of a split gives the string back. */
  lemma {:induction false} JoinSplit(s: string, sep: char)
    ensures Join(Split(s, sep), sep) == s
    decreases |s|
  {
    if s != [] {
      var rest := Split(s[1..], sep);
      JoinSplit(s[1..], sep);
      if s[0] == sep {
        assert Split(s, sep) == [""] + rest;
        assert ([""] + rest)[1..] == rest;
      } else {
        var r := [[s[0]] + rest[0]] + rest[1..];
        assert Split(s, sep) == r;
        if |rest| == 1 {
          assert r == [[s[0]] + rest[0]];
        } else {
          assert r[1..] == rest[1..];
          assert Join(rest, sep) == rest[0] + [sep] + Join(rest[1..], sep);
        }
      }
    }
  }

  /** Splitting a join gives the pieces back, provided no piece holds the
      separator. */
  lemma {:induction false} SplitJoin(ws: seq<string>, sep: char)
    requires ws != []
    requires forall w :: w in ws ==> sep !in w
    ensures Split(Join(ws, sep), sep) == ws
  {
    if |ws| == 1 {
      SplitNoSep(ws[0], sep);
    } else {
      assert ws[0] in ws;
      assert forall w :: w in ws[1..] ==> w in ws;
      SplitJoin(ws[1..], sep);
      SplitAfterPiece(ws[0], sep, Join(ws[1..], sep));
      assert [ws[0]] + ws[1..] == ws;
    }
  }

  /** A separator ends the first piece. */
  lemma {:induction false} SplitAfterPiece(a: string, sep: char, b: string)
    requires sep !in a
    ensures Split(a + [sep] + b, sep) == [a] + Split(b, sep)
    decreases |a|
  {
    var s := a + [sep] + b;
    if a == [] {
      assert s == [sep] + b;
      assert s[1..] == b;
    } else {
      assert sep !in a[1..] by {
        assert forall k :: 0 <= k < |a| - 1 ==> a[1..][k] == a[k + 1];
      }
      SplitAfterPiece(a[1..], sep, b);
      assert s[1..] == a[1..] + [sep] + b;
      assert s[0] == a[0];
      assert [a[0]] + a[1..] == a;
    }
  }

  lemma {:induction false} SplitNoSep(w: string, sep: char)
    requires sep !in w
    ensures Split(w, sep) == [w]
    decreases |w|
  {
    if w != [] {
      assert sep !in w[1..] by {
        assert forall k :: 0 <= k < |w| - 1 ==> w[1..][k] == w[k + 1];
      }
      SplitNoSep(w[1..], sep);
      assert [w[0]] + w[1..] == w;
    }
  }

  /** The join of a non-empty sequence is empty exactly when it is one
      empty piece. */
  lemma {:induction false} JoinEmpty(ws: seq<string>, sep: char)
    requires ws != []
    ensures Join(ws, sep) == "" <==> ws == [""]
  {
    if |ws| > 1 {
      assert |Join(ws, sep)| >= 1;
    }
  }

  // ---------------------------------------------------------------------
  // Decimal digits: strconv.ParseUint's arithmetic and fmt's %0Nd
  // ---------------------------------------------------------------------

  function DigitValue(c: char): (v: nat)
    requires IsDigit(c)
    ensures v < 10
  {
    (c as int - '0' as int) as nat
  }

  function DigitChar(d: nat): (c: char)
    requires d < 10
    ensures IsDigit(c) && DigitValue(c) == d
  {
    ('0' as int + d) as char
  }

  /** The number a string of decimal digits denotes (most significant
      digit first; leading zeros allowed). */
  function DecimalValue(s: string): nat
    requires AllIn(s, Digit)
  {
    if s == [] then 0
    else DecimalValue(s[..|s| - 1]) * 10 + DigitValue(s[|s| - 1])
  }

  /** The shortest decimal rendering of `n`, as `%d` prints it. */
  function Decimal(n: nat): (s: string)
    ensures |s| >= 1 && AllIn(s, Digit)
    ensures n < 10 <==> |s| == 1
  {
    if n < 10 then [DigitChar(n)]
    else Decimal(n / 10) + [DigitChar(n % 10)]
  }

  /** `fmt`'s `%0<w>d`: zero-padded on the left to at least `w` digits,
      never cut. */
  function PadDecimal(n: nat, w: nat): (s: string)
    ensures AllIn(s, Digit) && |s| >= w && |s| >= 1
  {
    var d := Decimal(n);
    Zeros(w - |d|) + d
  }

  function Zeros(k: int): (s: string)
    ensures |s| == if k < 0 then 0 else k
    ensures forall i :: 0 <= i < |s| ==> s[i] == '0'
    decreases k
  {
    if k <= 0 then "" else "0" + Zeros(k - 1)
  }

  lemma {:induction false} DecimalRoundTrip(n: nat)
    ensures DecimalValue(Decimal(n)) == n
  {
    if n >= 10 {
      DecimalRoundTrip(n / 10);
      var s := Decimal(n);
      assert s[..|s| - 1] == Decimal(n / 10);
    }
  }

  /** Leading zeros do not change the value a digit string denotes. */
  lemma {:induction false} LeadingZeros(k: int, s: string)
    requires AllIn(s, Digit)
    ensures AllIn(Zeros(k) + s, Digit)
    ensures DecimalValue(Zeros(k) + s) == DecimalValue(s)
    decreases |s|
  {
    var z := Zeros(k);
    if s == [] {
      assert z + s == z;
      ZerosValue(z);
    } else {
      var t := z + s;
      assert t[..|t| - 1] == z + s[..|s| - 1];
      LeadingZeros(k, s[..|s| - 1]);
    }
  }

  lemma {:induction false} ZerosValue(z: string)
    requires forall i :: 0 <= i < |z| ==> z[i] == '0'
    ensures AllIn(z, Digit) && DecimalValue(z) == 0
  {
    if z != [] {
      ZerosValue(z[..|z| - 1]);
    }
  }

  /** The value of a padded rendering is the number itself. */
  lemma PadDecimalValue(n: nat, w: nat)
    ensures DecimalValue(PadDecimal(n, w)) == n
  {
    LeadingZeros(w - |Decimal(n)|, Decimal(n));
    DecimalRoundTrip(n);
  }

  /** A number below 10^w pads to exactly `w` digits. */
  lemma PadDecimalWidth(n: nat, w: nat)
    requires 1 <= w && n < Pow10(w)
    ensures |PadDecimal(n, w)| == w
  {
    DecimalLength(n, w);
  }

  function Pow10(w: nat): (p: nat)
    ensures p >= 1
  {
    if w == 0 then 1 else 10 * Pow10(w - 1)
  }

  lemma {:induction false} DecimalLength(n: nat, w: nat)
    requires 1 <= w && n < Pow10(w)
    ensures |Decimal(n)| <= w
  {
    if n >= 10 {
      DecimalLength(n / 10, w - 1);
    }
  }
}
