/** The timestamp codec: recognising a cue's time range in one of three
    textual forms and converting it to milliseconds (timestamp.go), and
    rendering milliseconds back as text (MillsecToVTTTimeString in
    gowebvtt.go). All arithmetic is on 64-bit unsigned integers, whose
    wrap-around is written out. */
module Timestamp {
  import opened Text

  const TWO_64: nat := 0x1_0000_0000_0000_0000

  /** Go's `uint64`. */
  type U64 = x: int | 0 <= x < TWO_64

  /** The value an unsigned 64-bit `+` or `*` leaves behind. */
  function Wrap(x: nat): U64 {
    x % TWO_64
  }

  /** Unsigned 64-bit subtraction: wraps around when `b > a`. */
  function Sub64(a: U64, b: U64): (r: U64)
    ensures b <= a ==> r == a - b
    ensures b > a ==> r == TWO_64 - (b - a)
  {
    (a - b) % TWO_64
  }

  datatype Option<T> = None | Some(value: T)

  /** The three recognised forms, tried in this order, and the failure
      (TS_HMSMs, TS_MSMs, TS_SMs, TS_Err). */
  datatype TsType = HMSMs | MSMs | SMs | TsErr

  /** The literal characters between the numeric groups of a form:
      `H:M:S.ms`, `M:S.ms` and `S.ms`. */
  function Separators(t: TsType): (seps: seq<char>)
    requires t != TsErr
    ensures 1 <= |seps| <= 3 && seps[|seps| - 1] == '.'
  {
    match t
    case HMSMs => [':', ':', '.']
    case MSMs => [':', '.']
    case SMs => ['.']
  }

  // ---------------------------------------------------------------------
  // The patterns `\s*([0-9]+)<sep>([0-9]+)...\s*` under leftmost-first
  // matching. Each `[0-9]+` is followed by a literal that is not a digit and
  // each `\s*` by a digit or the end, so the preferred match starting at a
  // given position is the greedy one; the scanners below compute it.
  // ---------------------------------------------------------------------

  /** A match: where it ends, and its groups. */
  datatype Match = Match(end: nat, groups: seq<string>)

  /** Digit groups separated by `seps`, starting exactly at `i`. */
  function MatchFields(s: string, i: nat, seps: seq<char>): (r: Option<Match>)
    requires i <= |s|
    ensures r.Some? ==> i < r.value.end <= |s| && |r.value.groups| == |seps| + 1
    decreases |seps|
  {
    var j := Span(s, i, Digit);
    if j == i then None
    else if seps == [] then Some(Match(j, [s[i..j]]))
    else if j < |s| && s[j] == seps[0] then
      match MatchFields(s, j + 1, seps[1..])
      case None => None
      case Some(m) => Some(Match(m.end, [s[i..j]] + m.groups))
    else None
  }

  /** The match of the whole pattern that starts at `p`, if any; its first
      group is the matched text, as in Go's submatch slices. */
  function MatchAt(s: string, p: nat, seps: seq<char>): (r: Option<Match>)
    requires p <= |s|
    ensures r.Some? ==> p < r.value.end <= |s| && |r.value.groups| == |seps| + 2
    ensures r.Some? ==> r.value.groups[0] == s[p..r.value.end]
  {
    var a := Span(s, p, Space);
    match MatchFields(s, a, seps)
    case None => None
    case Some(m) =>
      var e := Span(s, m.end, Space);
      Some(Match(e, [s[p..e]] + m.groups))
  }

  /** `FindAllStringSubmatch(s, -1)` from position `p` on: the leftmost
      match, then the leftmost one after it, and so on. */
  function FindFrom(s: string, p: nat, seps: seq<char>): (r: seq<seq<string>>)
    requires p <= |s|
    decreases |s| - p
  {
    if p == |s| then []
    else
      match MatchAt(s, p, seps)
      case Some(m) => [m.groups] + FindFrom(s, m.end, seps)
      case None => FindFrom(s, p + 1, seps)
  }

  function FindAll(s: string, seps: seq<char>): seq<seq<string>> {
    FindFrom(s, 0, seps)
  }

  /** Every match carries the whole text plus one group per field. */
  lemma {:induction false} FindFromGroups(s: string, p: nat, seps: seq<char>)
    requires p <= |s|
    ensures forall g :: g in FindFrom(s, p, seps) ==> |g| == |seps| + 2
    decreases |s| - p
  {
    if p < |s| {
      match MatchAt(s, p, seps)
      case Some(m) => FindFromGroups(s, m.end, seps);
      case None => FindFromGroups(s, p + 1, seps);
    }
  }

  /** getTimeRangeTokens: the first form whose pattern occurs anywhere in
      `txt`, with all of that pattern's matches. */
  function GetTimeRangeTokens(txt: string): (r: (TsType, seq<seq<string>>))
    ensures r.0 == TsErr <==> r.1 == []
    ensures r.0 != TsErr ==> forall g :: g in r.1 ==> |g| == |Separators(r.0)| + 2
    ensures r.0 == HMSMs <==> FindAll(txt, Separators(HMSMs)) != []
    ensures r.0 == MSMs <==> FindAll(txt, Separators(HMSMs)) == [] && FindAll(txt, Separators(MSMs)) != []
    ensures r.0 == SMs <==> FindAll(txt, Separators(HMSMs)) == [] && FindAll(txt, Separators(MSMs)) == []
                            && FindAll(txt, Separators(SMs)) != []
  {
    FindFromGroups(txt, 0, Separators(HMSMs));
    FindFromGroups(txt, 0, Separators(MSMs));
    FindFromGroups(txt, 0, Separators(SMs));
    var h := FindAll(txt, Separators(HMSMs));
    if h != [] then (HMSMs, h)
    else
      var m := FindAll(txt, Separators(MSMs));
      if m != [] then (MSMs, m)
      else
        var s := FindAll(txt, Separators(SMs));
        if s != [] then (SMs, s) else (TsErr, [])
  }

  // ---------------------------------------------------------------------
  // Numbers
  // ---------------------------------------------------------------------

  datatype TimeError =
    | NumSyntax                 // strconv.ErrSyntax
    | NumRange                  // strconv.ErrRange: the value needs more than 64 bits
    | RangeNotFound(txt: string) // "Failed to get time range for: ..."

  datatype Result<T> = Ok(value: T) | Err(error: TimeError) {
    /** What Go's `(uint64, error)` pair carries in its first half. */
    function ValueOr(zero: T): T {
      if Ok? then value else zero
    }
  }

  /** `strconv.ParseUint(s, 10, 64)`. */
  function ParseUint(s: string): (r: Result<U64>)
    ensures r.Ok? <==> s != [] && AllIn(s, Digit) && DecimalValue(s) < TWO_64
    ensures r.Ok? ==> r.value == DecimalValue(s)
  {
    if s == [] || !AllIn(s, Digit) then Err(NumSyntax)
    else if DecimalValue(s) >= TWO_64 then Err(NumRange)
    else Ok(DecimalValue(s))
  }

  /** parseSMsToMillisec: groups `[whole, S, ms, ...]`. */
  function ParseSMs(g: seq<string>): Result<U64>
    requires |g| >= 3
  {
    match ParseUint(g[1])
    case Err(e) => Err(e)
    case Ok(sec) =>
      match ParseUint(g[2])
      case Err(e) => Err(e)
      case Ok(msec) => Ok(Wrap(sec * 1000 + msec))
  }

  /** parseMSMsToMillisec: groups `[whole, M, S, ms, ...]`; the tail from
      the minutes on is handed on, so that its index 1 is the seconds. */
  function ParseMSMs(g: seq<string>): Result<U64>
    requires |g| >= 4
  {
    match ParseUint(g[1])
    case Err(e) => Err(e)
    case Ok(min) =>
      match ParseSMs(g[1..])
      case Err(e) => Err(e)
      case Ok(rest) => Ok(Wrap(min * 60000 + rest))
  }

  /** parseHMSMsToMillisec: groups `[whole, H, M, S, ms]`. */
  function ParseHMSMs(g: seq<string>): Result<U64>
    requires |g| >= 5
  {
    match ParseUint(g[1])
    case Err(e) => Err(e)
    case Ok(hr) =>
      match ParseMSMs(g[1..])
      case Err(e) => Err(e)
      case Ok(rest) => Ok(Wrap(hr * 3600000 + rest))
  }

  /** The conversion getTimeRange picks for a form. */
  function ParseAs(t: TsType, g: seq<string>): Result<U64>
    requires t != TsErr && |g| == |Separators(t)| + 2
  {
    match t
    case HMSMs => ParseHMSMs(g)
    case MSMs => ParseMSMs(g)
    case SMs => ParseSMs(g)
  }

  /** getTimeRange's three results. */
  datatype TimeRange = TimeRange(start: U64, end: U64, err: Option<TimeError>)

  /** getTimeRange: both ends are read under the one form classification
      chose for the whole text. A failed start leaves 0 behind but its error
      is overwritten by the end's. */
  function GetTimeRange(txt: string): (r: TimeRange)
    ensures (GetTimeRangeTokens(txt).0 == TsErr || |GetTimeRangeTokens(txt).1| != 2)
            ==> r == TimeRange(0, 0, Some(RangeNotFound(txt)))
  {
    var (t, subs) := GetTimeRangeTokens(txt);
    if t == TsErr || |subs| != 2 then TimeRange(0, 0, Some(RangeNotFound(txt)))
    else
      var start := ParseAs(t, subs[0]);
      var end := ParseAs(t, subs[1]);
      TimeRange(start.ValueOr(0), end.ValueOr(0), if end.Err? then Some(end.error) else None)
  }

  // ---------------------------------------------------------------------
  // Formatting
  // ---------------------------------------------------------------------

  /** The form MillsecToVTTTimeString writes `ms` in. */
  function FormatOf(ms: U64): TsType {
    if ms < 3600000 then MSMs else HMSMs
  }

  /** MillsecToVTTTimeString: `MM:SS.mmm` below one hour, `HH:MM:SS.mmm`
      (hours never cut) from one hour on. */
  function FormatMillis(ms: U64): string {
    var seconds := ms / 1000;
    var minutes := seconds / 60;
    var hours := minutes / 60;
    if hours < 1 then
      PadDecimal(minutes % 60, 2) + ":" + PadDecimal(seconds % 60, 2) + "." + PadDecimal(ms % 1000, 3)
    else
      PadDecimal(hours, 2) + ":" + PadDecimal(minutes % 60, 2) + ":" + PadDecimal(seconds % 60, 2)
        + "." + PadDecimal(ms % 1000, 3)
  }
}
