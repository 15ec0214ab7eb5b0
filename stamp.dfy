/**
 * The timestamp that opens every line of a WhatsApp export ("02/03/2025, 9:30 am - "):
 * the scanner that finds it in a transcript, the way `re.findall` and `re.split` apply
 * the pattern of preprocessor.py:8, and the `strptime`-style parse that
 * `pd.to_datetime(..., format=...)` performs on each stamp found.
 */
module Stamp {
  import opened Wrappers
  import opened Text
  import opened Calendar

  // ================================================================ the scanner

  /** Length of the run of digits that starts at i. */
  function DigitRun(s: string, i: nat): (n: nat)
    requires i <= |s|
    ensures i + n <= |s|
    ensures forall k :: i <= k < i + n ==> IsDigit(s[k])
    ensures i + n < |s| ==> !IsDigit(s[i + n])
    decreases |s| - i
  {
    if i < |s| && IsDigit(s[i]) then 1 + DigitRun(s, i + 1) else 0
  }

  /**
   * The pieces of the timestamp pattern: `\d{lo,hi}`, a literal character, one `\s`
   * (which takes in the narrow no-break space U+202F, so `(?:\s|\u202f)` is a single `Space`),
   * and `(?:am|pm)`.
   *
   * Every `Digits` piece of the pattern is followed by a piece that cannot begin with a
   * digit, so the engine's backtracking over `\d{lo,hi}` succeeds exactly when the run of
   * digits at that point has between lo and hi digits, and then takes all of them.
   */
  datatype Token = Digits(lo: nat, hi: nat) | Lit(c: char) | Space | Meridiem

  /** The pattern `\d{1,2}/\d{1,2}/\d{2,4},\s\d{1,2}:\d{2}(?:\s|\u202f)(?:am|pm)\s-\s`. */
  const PatternTokens: seq<Token> :=
    [Digits(1, 2), Lit('/'), Digits(1, 2), Lit('/'), Digits(2, 4), Lit(','), Space,
     Digits(1, 2), Lit(':'), Digits(2, 2), Space, Meridiem, Space, Lit('-'), Space]

  /** The same pattern, built element by element so that the verifier unfolds a match
      against it one token at a time. */
  function Pattern(): (p: seq<Token>)
    ensures |p| == |PatternTokens| && forall k :: 0 <= k < |p| ==> p[k] == PatternTokens[k]
  {
    seq(|PatternTokens|, k requires 0 <= k < |PatternTokens| => PatternTokens[k])
  }

  /** Where token t, tried at position i, stops matching; None when it fails there. */
  function MatchToken(t: Token, s: string, i: nat): (r: Option<nat>)
    requires i <= |s|
    ensures r.Some? ==> i < r.value <= |s|
  {
    match t
    case Digits(lo, hi) =>
      var n := DigitRun(s, i);
      if 1 <= n && lo <= n <= hi then Some(i + n) else None
    case Lit(c) => if i < |s| && s[i] == c then Some(i + 1) else None
    case Space => if i < |s| && IsSpace(s[i]) then Some(i + 1) else None
    case Meridiem =>
      if i + 2 <= |s| && (s[i] == 'a' || s[i] == 'p') && s[i + 1] == 'm' then Some(i + 2) else None
  }

  /** Where the token sequence ts, tried at i, stops matching. */
  function MatchTokens(ts: seq<Token>, s: string, i: nat): (r: Option<nat>)
    requires i <= |s|
    ensures r.Some? ==> i + |ts| <= r.value <= |s|
    decreases |ts|
  {
    if ts == [] then Some(i)
    else
      match MatchToken(ts[0], s, i)
      case None => None
      case Some(j) => MatchTokens(ts[1..], s, j)
  }

  /** t is exactly one timestamp. */
  predicate IsStamp(t: string) {
    WholeMatch(Pattern(), t)
  }

  /** pat matches the whole of t. */
  predicate WholeMatch(pat: seq<Token>, t: string) {
    MatchTokens(pat, t, 0) == Some(|t|)
  }

  /** The half-open range of positions a match occupies. */
  datatype Span = Span(start: nat, end: nat)

  /** No match of pat starts at any position in [a, b). */
  predicate NoMatchIn(pat: seq<Token>, s: string, a: nat, b: nat) {
    b <= |s| && forall p: nat :: a <= p < b ==> MatchTokens(pat, s, p).None?
  }

  /** Where the gap after match k ends: at the next match, or at the end of the text. */
  function NextStart(s: string, ms: seq<Span>, k: nat): nat
    requires k < |ms|
  {
    if k + 1 < |ms| then ms[k + 1].start else |s|
  }

  /**
   * ms is what the leftmost-first, non-overlapping scan of `re.finditer` finds from
   * position i: each span is a match, the spans come in order without overlapping, and no
   * match starts in any of the gaps (before the first span, between the end of one span and
   * the start of the next, or after the last).
   */
  predicate Scanned(pat: seq<Token>, s: string, i: nat, ms: seq<Span>) {
    (forall k :: 0 <= k < |ms| ==>
      i <= ms[k].start < ms[k].end <= |s| && MatchTokens(pat, s, ms[k].start) == Some(ms[k].end))
    && (forall k :: 0 <= k < |ms| - 1 ==> ms[k].end <= ms[k + 1].start)
    && NoMatchIn(pat, s, i, if ms == [] then |s| else ms[0].start)
    && (forall k :: 0 <= k < |ms| ==> NoMatchIn(pat, s, ms[k].end, NextStart(s, ms, k)))
  }

  /** The scan `re.finditer` performs from position i, for a pattern that never matches the
      empty string. */
  function ScanFrom(pat: seq<Token>, s: string, i: nat): (ms: seq<Span>)
    requires pat != [] && i <= |s|
    ensures Scanned(pat, s, i, ms)
    decreases |s| - i
  {
    if i == |s| then
      // a non-empty pattern matches nothing at the very end
      []
    else
      match MatchTokens(pat, s, i)
      case Some(e) =>
        var rest := ScanFrom(pat, s, e);
        ScanStep(pat, s, i, e, rest);
        [Span(i, e)] + rest
      case None =>
        var rest := ScanFrom(pat, s, i + 1);
        NoMatchExtend(pat, s, i, rest);
        rest
  }

  lemma NoMatchExtend(pat: seq<Token>, s: string, i: nat, ms: seq<Span>)
    requires i < |s| && MatchTokens(pat, s, i).None? && Scanned(pat, s, i + 1, ms)
    ensures Scanned(pat, s, i, ms)
  {
  }

  lemma ScanStep(pat: seq<Token>, s: string, i: nat, e: nat, rest: seq<Span>)
    requires i < e <= |s| && MatchTokens(pat, s, i) == Some(e) && Scanned(pat, s, e, rest)
    ensures Scanned(pat, s, i, [Span(i, e)] + rest)
  {
    ScanStepMatches(pat, s, i, e, rest);
    ScanStepGaps(pat, s, i, e, rest);
  }

  lemma ScanStepMatches(pat: seq<Token>, s: string, i: nat, e: nat, rest: seq<Span>)
    requires i < e <= |s| && MatchTokens(pat, s, i) == Some(e) && Scanned(pat, s, e, rest)
    ensures var ms := [Span(i, e)] + rest;
      forall k :: 0 <= k < |ms| ==>
        i <= ms[k].start < ms[k].end <= |s| && MatchTokens(pat, s, ms[k].start) == Some(ms[k].end)
    ensures var ms := [Span(i, e)] + rest;
      forall k :: 0 <= k < |ms| - 1 ==> ms[k].end <= ms[k + 1].start
  {
    var ms := [Span(i, e)] + rest;
    forall k | 0 <= k < |ms| - 1 ensures ms[k].end <= ms[k + 1].start {
      if k > 0 {
        assert ms[k] == rest[k - 1] && ms[k + 1] == rest[k];
      }
    }
    forall k | 0 <= k < |ms| ensures
      i <= ms[k].start < ms[k].end <= |s| && MatchTokens(pat, s, ms[k].start) == Some(ms[k].end)
    {
      if k > 0 {
        assert ms[k] == rest[k - 1];
      }
    }
  }

  lemma ScanStepGaps(pat: seq<Token>, s: string, i: nat, e: nat, rest: seq<Span>)
    requires i < e <= |s| && Scanned(pat, s, e, rest)
    ensures var ms := [Span(i, e)] + rest;
      forall k :: 0 <= k < |ms| ==> NoMatchIn(pat, s, ms[k].end, NextStart(s, ms, k))
  {
    var ms := [Span(i, e)] + rest;
    forall k | 0 <= k < |ms| ensures NoMatchIn(pat, s, ms[k].end, NextStart(s, ms, k)) {
      if k > 0 {
        assert ms[k] == rest[k - 1];
        assert NextStart(s, ms, k) == NextStart(s, rest, k - 1);
      }
    }
  }

  /** All timestamps in the transcript, in order. */
  function Spans(s: string): seq<Span> {
    ScanFrom(Pattern(), s, 0)
  }

  /** The spans lie in order inside the text. */
  predicate Chained(s: string, ms: seq<Span>) {
    (forall k :: 0 <= k < |ms| ==> ms[k].start <= ms[k].end <= |s|)
    && (forall k :: 0 <= k < |ms| - 1 ==> ms[k].end <= ms[k + 1].start)
  }

  /** The text of each span. */
  function Texts(s: string, ms: seq<Span>): (ts: seq<string>)
    requires Chained(s, ms)
    ensures |ts| == |ms|
  {
    seq(|ms|, k requires 0 <= k < |ms| => s[ms[k].start..ms[k].end])
  }

  /** The text after each span, up to the next span or the end. */
  function Gaps(s: string, ms: seq<Span>): (gs: seq<string>)
    requires Chained(s, ms)
    ensures |gs| == |ms|
  {
    seq(|ms|, k requires 0 <= k < |ms| => s[ms[k].end..NextStart(s, ms, k)])
  }

  /** Each element of ts followed by the element of es at the same place. */
  function Interleave(ts: seq<string>, es: seq<string>): seq<string>
    requires |ts| == |es|
  {
    seq(|ts|, k requires 0 <= k < |ts| => ts[k] + es[k])
  }

  /** `re.findall(pattern, data)`: the text of every timestamp. */
  function Stamps(s: string): (ts: seq<string>)
    ensures |ts| == |Spans(s)|
  {
    Texts(s, Spans(s))
  }

  /** `re.split(pattern, data)[1:]`: the text after each timestamp, up to the next one. */
  function Entries(s: string): (es: seq<string>)
    ensures |es| == |Spans(s)|
  {
    Gaps(s, Spans(s))
  }

  /** `re.split(pattern, data)[0]`: the text before the first timestamp. */
  function Leading(s: string): (t: string)
    ensures NoMatchIn(Pattern(), s, 0, |t|)
  {
    var ms := Spans(s);
    if ms == [] then s else s[..ms[0].start]
  }

  // ---------------------------------------------------------------- scanner lemmas

  lemma {:induction false} DigitRunLocal(s: string, i: nat, a: nat, e: nat)
    requires a <= i <= |s| && i + DigitRun(s, i) <= e <= |s|
    ensures DigitRun(s[a..e], i - a) == DigitRun(s, i)
    decreases |s| - i
  {
    if i < |s| && IsDigit(s[i]) {
      DigitRunLocal(s, i + 1, a, e);
    }
  }

  /** A token matches the same way in any slice of the text that holds its match. */
  lemma TokenLocal(t: Token, s: string, i: nat, j: nat, a: nat, e: nat)
    requires a <= i <= |s| && MatchToken(t, s, i) == Some(j) && j <= e <= |s|
    ensures MatchToken(t, s[a..e], i - a) == Some(j - a)
  {
    if t.Digits? {
      DigitRunLocal(s, i, a, e);
    }
  }

  lemma {:induction false} TokensLocal(ts: seq<Token>, s: string, i: nat, a: nat, e: nat)
    requires a <= i <= |s| && MatchTokens(ts, s, i) == Some(e)
    ensures MatchTokens(ts, s[a..e], i - a) == Some(e - a)
    decreases |ts|
  {
    if ts != [] {
      var j := MatchToken(ts[0], s, i).value;
      assert MatchTokens(ts[1..], s, j) == Some(e);
      TokenLocal(ts[0], s, i, j, a, e);
      TokensLocal(ts[1..], s, j, a, e);
    }
  }

  /** The text of a match, taken on its own, is one timestamp. */
  lemma StampOfMatch(s: string, a: nat, b: nat)
    requires a <= b <= |s| && MatchTokens(Pattern(), s, a) == Some(b)
    ensures IsStamp(s[a..b])
  {
    MatchOnItsOwn(Pattern(), s, a, b);
  }

  lemma MatchOnItsOwn(pat: seq<Token>, s: string, a: nat, b: nat)
    requires a <= b <= |s| && MatchTokens(pat, s, a) == Some(b)
    ensures WholeMatch(pat, s[a..b])
  {
    TokensLocal(pat, s, a, a, b);
  }

  /** Every string `re.findall` returns is one whole timestamp. */
  lemma StampsAreStamps(s: string)
    ensures forall k :: 0 <= k < |Stamps(s)| ==> IsStamp(Stamps(s)[k])
  {
    var ms := Spans(s);
    forall k | 0 <= k < |ms| ensures IsStamp(Stamps(s)[k]) {
      StampOfMatch(s, ms[k].start, ms[k].end);
    }
  }

  /** Each span's text followed by the gap after it. */
  function Pieces(s: string, ms: seq<Span>): seq<string>
    requires Chained(s, ms)
  {
    seq(|ms|, k requires 0 <= k < |ms| => s[ms[k].start..NextStart(s, ms, k)])
  }

  lemma {:induction false} PiecesCover(s: string, ms: seq<Span>)
    requires Chained(s, ms) && ms != []
    ensures Flatten(Pieces(s, ms)) == s[ms[0].start..]
    decreases |ms|
  {
    var ps := Pieces(s, ms);
    if |ms| == 1 {
      assert ps == [s[ms[0].start..NextStart(s, ms, 0)]];
      assert Flatten(ps[1..]) == [];
    } else {
      var tail := ms[1..];
      assert Chained(s, tail);
      assert ps[1..] == Pieces(s, tail) by {
        forall k | 0 <= k < |tail| ensures NextStart(s, tail, k) == NextStart(s, ms, k + 1) { }
      }
      PiecesCover(s, tail);
      assert s[ms[0].start..] == s[ms[0].start..ms[1].start] + s[ms[1].start..];
    }
  }

  lemma SliceSplit(s: string, a: nat, b: nat, c: nat)
    requires a <= b <= c <= |s|
    ensures s[a..c] == s[a..b] + s[b..c]
  {
  }

  /** Each piece is its span's text followed by the gap after it. */
  lemma PiecesSplit(s: string, ms: seq<Span>)
    requires Chained(s, ms)
    ensures Pieces(s, ms) == Interleave(Texts(s, ms), Gaps(s, ms))
  {
    forall k | 0 <= k < |ms|
      ensures Pieces(s, ms)[k] == Texts(s, ms)[k] + Gaps(s, ms)[k]
    {
      assert ms[k].end <= NextStart(s, ms, k);
      SliceSplit(s, ms[k].start, ms[k].end, NextStart(s, ms, k));
    }
  }

  /** The text before the first span, then each span's text and the gap after it. */
  lemma PiecesJoin(s: string, ms: seq<Span>)
    requires Chained(s, ms)
    ensures s == (if ms == [] then s else s[..ms[0].start]) + Flatten(Interleave(Texts(s, ms), Gaps(s, ms)))
  {
    if ms == [] {
      assert Interleave(Texts(s, ms), Gaps(s, ms)) == [];
    } else {
      PiecesSplit(s, ms);
      PiecesCover(s, ms);
      SliceSplit(s, 0, ms[0].start, |s|);
      assert s[0..|s|] == s && s[0..ms[0].start] == s[..ms[0].start];
    }
  }

  /**
   * Splitting loses nothing: the text before the first timestamp, followed by every
   * timestamp and the entry after it, is the whole transcript.
   */
  lemma SplitRoundTrip(s: string)
    ensures s == Leading(s) + Flatten(Interleave(Stamps(s), Entries(s)))
  {
    PiecesJoin(s, Spans(s));
  }

  // ================================================================ the date parse

  /**
   * A format string as `strptime` compiles it: every run of whitespace in the format becomes
   * `\s+`, each directive becomes its regular expression, and any other character stands
   * for itself; the whole expression is matched ignoring case.
   */
  datatype Directive =
    | DayOfMonth    // %d: `3[01]|[12]\d|0[1-9]|[1-9]| [1-9]`
    | MonthNumber   // %m: `1[0-2]|0[1-9]|[1-9]`
    | Year4         // %Y: `\d\d\d\d`
    | Hour12        // %I: `1[0-2]|0[1-9]|[1-9]`
    | Hour24        // %H: `2[0-3]|[0-1]\d|\d`
    | MinuteOfHour  // %M: `[0-5]\d|\d`
    | AmPm          // %p: `am|pm`
    | Whitespace    // a run of whitespace in the format: `\s+`
    | Char(c: char) // any other character, and `%%` for a literal percent sign

  /** The directive a `%` followed by c stands for; None for one this model does not cover. */
  function DirectiveOf(c: char): Option<Directive> {
    if c == 'd' then Some(DayOfMonth)
    else if c == 'm' then Some(MonthNumber)
    else if c == 'Y' then Some(Year4)
    else if c == 'I' then Some(Hour12)
    else if c == 'H' then Some(Hour24)
    else if c == 'M' then Some(MinuteOfHour)
    else if c == 'p' then Some(AmPm)
    else if c == '%' then Some(Char('%'))
    else None
  }

  function Prepend(d: Directive, rest: Option<seq<Directive>>): Option<seq<Directive>> {
    if rest.None? then None else Some([d] + rest.value)
  }

  /** Compiles fmt[i..]; None when a `%` ends the format or introduces no known directive
      (`strptime` raises ValueError for both). */
  function CompileFrom(fmt: string, i: nat): Option<seq<Directive>>
    requires i <= |fmt|
    decreases |fmt| - i
  {
    if i == |fmt| then Some([])
    else if fmt[i] == '%' then
      if i + 1 == |fmt| then None
      else
        match DirectiveOf(fmt[i + 1])
        case None => None
        case Some(d) => Prepend(d, CompileFrom(fmt, i + 2))
    else if IsSpace(fmt[i]) then
      // a run of whitespace becomes one `\s+`, emitted at its last character
      if i + 1 < |fmt| && IsSpace(fmt[i + 1]) then CompileFrom(fmt, i + 1)
      else Prepend(Whitespace, CompileFrom(fmt, i + 1))
    else
      Prepend(Char(fmt[i]), CompileFrom(fmt, i + 1))
  }

  function Compile(fmt: string): Option<seq<Directive>> {
    CompileFrom(fmt, 0)
  }

  /** What the directives have read so far; a field no directive sets keeps its default. */
  datatype Fields = Fields(
    day: Option<nat>, month: Option<nat>, year: Option<nat>,
    hour12: Option<nat>, hour24: Option<nat>, minute: Option<nat>, pm: Option<bool>)

  const NoFields: Fields := Fields(None, None, None, None, None, None, None)

  /** Fields as the directives can set them: a 12-hour clock reading lies in 1..12. */
  predicate Ranged(f: Fields) {
    f.hour12.Some? ==> 1 <= f.hour12.value <= 12
  }

  /**
   * Where the text a directive takes, tried at i, ends: the greedy extent of its regular
   * expression. The value is checked afterwards by Read. In the three formats used, a
   * numeric directive is always followed by one that cannot start with a digit, and a
   * whitespace run by one that cannot start with whitespace, so the engine's backtracking
   * never has to give any of this text back.
   */
  function Extent(d: Directive, s: string, i: nat): (r: Option<nat>)
    requires i <= |s|
    ensures r.Some? ==> i < r.value <= |s|
  {
    match d
    case Whitespace =>
      var n := LeadingSpaces(s[i..]);
      if n == 0 then None else Some(i + n)
    case Char(_) => if i < |s| then Some(i + 1) else None
    case AmPm => if i + 2 <= |s| then Some(i + 2) else None
    case DayOfMonth =>
      if i < |s| && s[i] == ' ' then
        var n := DigitRun(s, i + 1);
        if n == 0 then None else Some(i + 1 + n)
      else
        var n := DigitRun(s, i);
        if n == 0 then None else Some(i + n)
    case _ =>
      var n := DigitRun(s, i);
      if n == 0 then None else Some(i + n)
  }

  /** The value of seg when it has lo..hi digits and that value lies in min..max. */
  function Numeral(seg: string, lo: nat, hi: nat, min: nat, max: nat): (r: Option<nat>)
    ensures r.Some? ==> min <= r.value <= max
  {
    if lo <= |seg| <= hi && AllDigits(seg) && min <= DigitsValue(seg) <= max then Some(DigitsValue(seg))
    else None
  }

  /** Directive d reads the text seg: it accepts it or not, and records its value. */
  function Read(d: Directive, seg: string, f: Fields): (r: Option<Fields>)
    requires Ranged(f)
    ensures r.Some? ==> Ranged(r.value)
  {
    match d
    case DayOfMonth =>
      if |seg| == 2 && seg[0] == ' ' && IsDigit(seg[1]) && DigitValue(seg[1]) >= 1 then
        Some(f.(day := Some(DigitValue(seg[1]))))
      else
        var v := Numeral(seg, 1, 2, 1, 31);
        if v.None? then None else Some(f.(day := v))
    case MonthNumber =>
      var v := Numeral(seg, 1, 2, 1, 12);
      if v.None? then None else Some(f.(month := v))
    case Year4 =>
      var v := Numeral(seg, 4, 4, 0, 9999);
      if v.None? then None else Some(f.(year := v))
    case Hour12 =>
      var v := Numeral(seg, 1, 2, 1, 12);
      if v.None? then None else Some(f.(hour12 := v))
    case Hour24 =>
      var v := Numeral(seg, 1, 2, 0, 23);
      if v.None? then None else Some(f.(hour24 := v))
    case MinuteOfHour =>
      var v := Numeral(seg, 1, 2, 0, 59);
      if v.None? then None else Some(f.(minute := v))
    case AmPm =>
      if |seg| == 2 && (LowerChar(seg[0]) == 'a' || LowerChar(seg[0]) == 'p') && LowerChar(seg[1]) == 'm' then
        Some(f.(pm := Some(LowerChar(seg[0]) == 'p')))
      else None
    case Whitespace => Some(f)
    case Char(c) => if |seg| == 1 && LowerChar(seg[0]) == LowerChar(c) then Some(f) else None
  }

  /** Matches the directives ds against s from i: the fields read and where the match ends. */
  function MatchDirectives(ds: seq<Directive>, s: string, i: nat, f: Fields): (r: Option<(Fields, nat)>)
    requires i <= |s| && Ranged(f)
    ensures r.Some? ==> i <= r.value.1 <= |s| && Ranged(r.value.0)
    decreases |ds|
  {
    if ds == [] then Some((f, i))
    else
      match Extent(ds[0], s, i)
      case None => None
      case Some(j) =>
        match Read(ds[0], s[i..j], f)
        case None => None
        case Some(g) => MatchDirectives(ds[1..], s, j, g)
  }

  /** The 12-hour clock on the 24-hour clock: 12 am is hour 0 and 12 pm is hour 12. */
  function Clock24(h12: nat, pm: bool): (h: nat)
    requires 1 <= h12 <= 12
    ensures h < 24
    ensures h >= 12 <==> pm
    ensures h % 12 == h12 % 12
  {
    if pm then (if h12 == 12 then 12 else h12 + 12)
    else (if h12 == 12 then 0 else h12)
  }

  /** The 24-hour clock on the 12-hour clock. */
  function Clock12(h: nat): (nat, bool)
    requires h < 24
  {
    (if h % 12 == 0 then 12 else h % 12, h >= 12)
  }

  /** The two clocks name the same hours: each conversion undoes the other. */
  lemma ClockRoundTrip(h12: nat, pm: bool, h: nat)
    requires 1 <= h12 <= 12 && h < 24
    ensures Clock12(Clock24(h12, pm)) == (h12, pm)
    ensures Clock24(Clock12(h).0, Clock12(h).1) == h
  {
  }

  /** Strictly earlier, to the minute. */
  predicate Before(a: DateTime, b: DateTime) {
    DateLt(a.date, b.date)
    || (a.date == b.date && (a.hour < b.hour || (a.hour == b.hour && a.minute < b.minute)))
  }

  /** The first and last minutes a nanosecond `pandas.Timestamp` can hold
      (its range is 1677-09-21 00:12:43.145224193 to 2262-04-11 23:47:16.854775807). */
  const Earliest: DateTime := DateTime(Date(1677, 9, 21), 0, 13)
  const Latest: DateTime := DateTime(Date(2262, 4, 11), 23, 47)

  predicate InTimestampRange(t: DateTime) {
    !Before(t, Earliest) && !Before(Latest, t)
  }

  function OrElse(v: Option<nat>, default: nat): nat {
    if v.Some? then v.value else default
  }

  /**
   * The timestamp the fields name: year 1900, January and the 1st where they are missing,
   * a 12-hour reading with no am/pm taken as am; None when the date does not exist or lies
   * outside what a pandas Timestamp holds (both raise ValueError).
   */
  function Assemble(f: Fields): (r: Option<DateTime>)
    requires Ranged(f)
    ensures r.Some? ==> ValidDateTime(r.value) && InTimestampRange(r.value)
  {
    var date := Date(OrElse(f.year, 1900), OrElse(f.month, 1), OrElse(f.day, 1));
    var hour := if f.hour12.Some? then Clock24(f.hour12.value, f.pm == Some(true)) else OrElse(f.hour24, 0);
    var t := DateTime(date, hour, OrElse(f.minute, 0));
    if ValidDateTime(t) && InTimestampRange(t) then Some(t) else None
  }

  /**
   * `pd.to_datetime(s, format=fmt)` for one string: None where it raises ValueError (a bad
   * format, no match, "unconverted data remains", or no such timestamp).
   */
  function ParseWith(fmt: string, s: string): (r: Option<DateTime>)
    ensures r.Some? ==> ValidDateTime(r.value) && InTimestampRange(r.value)
  {
    match Compile(fmt)
    case None => None
    case Some(ds) =>
      match MatchDirectives(ds, s, 0, NoFields)
      case None => None
      case Some(m) => if m.1 == |s| then Assemble(m.0) else None
  }

  /** The three formats preprocess tries, in order (preprocessor.py:32, 36 and 40). */
  const FormatNarrow: string := "%d/%m/%Y, %I:%M\U{202F}%p - "
  const FormatSpace: string := "%d/%m/%Y, %I:%M %p - "
  const Format24: string := "%d/%m/%Y, %H:%M - "

  const Rules12: seq<Directive> :=
    [DayOfMonth, Char('/'), MonthNumber, Char('/'), Year4, Char(','), Whitespace,
     Hour12, Char(':'), MinuteOfHour, Whitespace, AmPm, Whitespace, Char('-'), Whitespace]

  const Rules24: seq<Directive> :=
    [DayOfMonth, Char('/'), MonthNumber, Char('/'), Year4, Char(','), Whitespace,
     Hour24, Char(':'), MinuteOfHour, Whitespace, Char('-'), Whitespace]

  lemma CompileEnd(fmt: string)
    ensures CompileFrom(fmt, |fmt|) == Some([])
  {
  }

  lemma CharStep(fmt: string, i: nat)
    requires i < |fmt| && fmt[i] != '%' && !IsSpace(fmt[i])
    ensures CompileFrom(fmt, i) == Prepend(Char(fmt[i]), CompileFrom(fmt, i + 1))
  {
  }

  lemma DirectiveStep(fmt: string, i: nat)
    requires i + 1 < |fmt| && fmt[i] == '%' && DirectiveOf(fmt[i + 1]).Some?
    ensures CompileFrom(fmt, i) == Prepend(DirectiveOf(fmt[i + 1]).value, CompileFrom(fmt, i + 2))
  {
  }

  /** A single whitespace character of the format compiles to one `\s+`. */
  lemma SpaceStep(fmt: string, i: nat)
    requires i < |fmt| && IsSpace(fmt[i]) && (i + 1 == |fmt| || !IsSpace(fmt[i + 1]))
    ensures CompileFrom(fmt, i) == Prepend(Whitespace, CompileFrom(fmt, i + 1))
  {
  }

  lemma PrependSlice(c: Option<seq<Directive>>, rules: seq<Directive>, k: nat)
    requires k < |rules| && c == Some(rules[k + 1..])
    ensures Prepend(rules[k], c) == Some(rules[k..])
  {
    assert [rules[k]] + rules[k + 1..] == rules[k..];
  }

  /** The narrow no-break space is whitespace, so the first two formats compile to the same
      expression: the second is tried only after the first has failed on the same input, and
      then fails as well. */
  lemma CompiledFormats()
    ensures Compile(FormatNarrow) == Some(Rules12)
    ensures Compile(FormatSpace) == Some(Rules12)
    ensures Compile(Format24) == Some(Rules24)
  {
    CompiledFormatNarrow(FormatNarrow, Rules12);
    CompiledFormatSpace(FormatSpace, Rules12);
    CompiledFormat24(Format24, Rules24);
  }

  lemma CompiledFormatNarrow(fmt: string, rules: seq<Directive>)
    requires fmt == FormatNarrow && rules == Rules12
    ensures Compile(fmt) == Some(rules)
  {
    CompileEnd(fmt);
    assert rules[|rules|..] == [];
    SpaceStep(fmt, 20);
    PrependSlice(CompileFrom(fmt, 21), rules, 14);
    CharStep(fmt, 19);
    PrependSlice(CompileFrom(fmt, 20), rules, 13);
    SpaceStep(fmt, 18);
    PrependSlice(CompileFrom(fmt, 19), rules, 12);
    DirectiveStep(fmt, 16);
    PrependSlice(CompileFrom(fmt, 18), rules, 11);
    SpaceStep(fmt, 15);
    PrependSlice(CompileFrom(fmt, 16), rules, 10);
    DirectiveStep(fmt, 13);
    PrependSlice(CompileFrom(fmt, 15), rules, 9);
    CharStep(fmt, 12);
    PrependSlice(CompileFrom(fmt, 13), rules, 8);
    DirectiveStep(fmt, 10);
    PrependSlice(CompileFrom(fmt, 12), rules, 7);
    SpaceStep(fmt, 9);
    PrependSlice(CompileFrom(fmt, 10), rules, 6);
    CharStep(fmt, 8);
    PrependSlice(CompileFrom(fmt, 9), rules, 5);
    DirectiveStep(fmt, 6);
    PrependSlice(CompileFrom(fmt, 8), rules, 4);
    CharStep(fmt, 5);
    PrependSlice(CompileFrom(fmt, 6), rules, 3);
    DirectiveStep(fmt, 3);
    PrependSlice(CompileFrom(fmt, 5), rules, 2);
    CharStep(fmt, 2);
    PrependSlice(CompileFrom(fmt, 3), rules, 1);
    DirectiveStep(fmt, 0);
    PrependSlice(CompileFrom(fmt, 2), rules, 0);
    assert rules[0..] == rules;
  }

  lemma CompiledFormatSpace(fmt: string, rules: seq<Directive>)
    requires fmt == FormatSpace && rules == Rules12
    ensures Compile(fmt) == Some(rules)
  {
    CompileEnd(fmt);
    assert rules[|rules|..] == [];
    SpaceStep(fmt, 20);
    PrependSlice(CompileFrom(fmt, 21), rules, 14);
    CharStep(fmt, 19);
    PrependSlice(CompileFrom(fmt, 20), rules, 13);
    SpaceStep(fmt, 18);
    PrependSlice(CompileFrom(fmt, 19), rules, 12);
    DirectiveStep(fmt, 16);
    PrependSlice(CompileFrom(fmt, 18), rules, 11);
    SpaceStep(fmt, 15);
    PrependSlice(CompileFrom(fmt, 16), rules, 10);
    DirectiveStep(fmt, 13);
    PrependSlice(CompileFrom(fmt, 15), rules, 9);
    CharStep(fmt, 12);
    PrependSlice(CompileFrom(fmt, 13), rules, 8);
    DirectiveStep(fmt, 10);
    PrependSlice(CompileFrom(fmt, 12), rules, 7);
    SpaceStep(fmt, 9);
    PrependSlice(CompileFrom(fmt, 10), rules, 6);
    CharStep(fmt, 8);
    PrependSlice(CompileFrom(fmt, 9), rules, 5);
    DirectiveStep(fmt, 6);
    PrependSlice(CompileFrom(fmt, 8), rules, 4);
    CharStep(fmt, 5);
    PrependSlice(CompileFrom(fmt, 6), rules, 3);
    DirectiveStep(fmt, 3);
    PrependSlice(CompileFrom(fmt, 5), rules, 2);
    CharStep(fmt, 2);
    PrependSlice(CompileFrom(fmt, 3), rules, 1);
    DirectiveStep(fmt, 0);
    PrependSlice(CompileFrom(fmt, 2), rules, 0);
    assert rules[0..] == rules;
  }

  lemma CompiledFormat24(fmt: string, rules: seq<Directive>)
    requires fmt == Format24 && rules == Rules24
    ensures Compile(fmt) == Some(rules)
  {
    CompileEnd(fmt);
    assert rules[|rules|..] == [];
    SpaceStep(fmt, 17);
    PrependSlice(CompileFrom(fmt, 18), rules, 12);
    CharStep(fmt, 16);
    PrependSlice(CompileFrom(fmt, 17), rules, 11);
    SpaceStep(fmt, 15);
    PrependSlice(CompileFrom(fmt, 16), rules, 10);
    DirectiveStep(fmt, 13);
    PrependSlice(CompileFrom(fmt, 15), rules, 9);
    CharStep(fmt, 12);
    PrependSlice(CompileFrom(fmt, 13), rules, 8);
    DirectiveStep(fmt, 10);
    PrependSlice(CompileFrom(fmt, 12), rules, 7);
    SpaceStep(fmt, 9);
    PrependSlice(CompileFrom(fmt, 10), rules, 6);
    CharStep(fmt, 8);
    PrependSlice(CompileFrom(fmt, 9), rules, 5);
    DirectiveStep(fmt, 6);
    PrependSlice(CompileFrom(fmt, 8), rules, 4);
    CharStep(fmt, 5);
    PrependSlice(CompileFrom(fmt, 6), rules, 3);
    DirectiveStep(fmt, 3);
    PrependSlice(CompileFrom(fmt, 5), rules, 2);
    CharStep(fmt, 2);
    PrependSlice(CompileFrom(fmt, 3), rules, 1);
    DirectiveStep(fmt, 0);
    PrependSlice(CompileFrom(fmt, 2), rules, 0);
    assert rules[0..] == rules;
  }

  // ================================================================ stamps and formats

  /** Token t matched exactly the text seg. */
  predicate Fits(t: Token, seg: string) {
    match t
    case Digits(lo, hi) => 1 <= |seg| && lo <= |seg| <= hi && AllDigits(seg)
    case Lit(c) => seg == [c]
    case Space => |seg| == 1 && IsSpace(seg[0])
    case Meridiem => seg == "am" || seg == "pm"
  }

  lemma TokenFits(t: Token, s: string, i: nat)
    requires i <= |s| && MatchToken(t, s, i).Some?
    ensures Fits(t, s[i..MatchToken(t, s, i).value])
  {
    var seg := s[i..MatchToken(t, s, i).value];
    if t.Meridiem? {
      assert seg == [s[i], s[i + 1]];
    } else if t.Lit? || t.Space? {
      assert seg == [s[i]];
    }
  }

  /** The text each token of ts matched, in order. */
  function Segments(ts: seq<Token>, s: string, i: nat): (segs: seq<string>)
    requires i <= |s| && MatchTokens(ts, s, i).Some?
    ensures |segs| == |ts|
    ensures forall k :: 0 <= k < |ts| ==> Fits(ts[k], segs[k])
    decreases |ts|
  {
    if ts == [] then []
    else
      var j := MatchToken(ts[0], s, i).value;
      TokenFits(ts[0], s, i);
      [s[i..j]] + Segments(ts[1..], s, j)
  }

  /** The segments put back together are the matched text. */
  lemma {:induction false} SegmentsCover(ts: seq<Token>, s: string, i: nat)
    requires i <= |s| && MatchTokens(ts, s, i).Some?
    ensures Flatten(Segments(ts, s, i)) == s[i..MatchTokens(ts, s, i).value]
    decreases |ts|
  {
    if ts != [] {
      var j := MatchToken(ts[0], s, i).value;
      var e := MatchTokens(ts, s, i).value;
      var segs := Segments(ts, s, i);
      assert segs[1..] == Segments(ts[1..], s, j);
      SegmentsCover(ts[1..], s, j);
      SliceSplit(s, i, j, e);
    }
  }

  /** Reads each segment with the directive at the same place. */
  function ReadAll(ds: seq<Directive>, segs: seq<string>, f: Fields): (r: Option<Fields>)
    requires |segs| == |ds| && Ranged(f)
    ensures r.Some? ==> Ranged(r.value)
    decreases |ds|
  {
    if ds == [] then Some(f)
    else
      match Read(ds[0], segs[0], f)
      case None => None
      case Some(g) => ReadAll(ds[1..], segs[1..], g)
  }

  /** Token t and directive d take the same text wherever t matches. */
  predicate Agrees(t: Token, d: Directive) {
    match t
    case Digits(_, _) =>
      d.DayOfMonth? || d.MonthNumber? || d.Year4? || d.Hour12? || d.Hour24? || d.MinuteOfHour?
    case Lit(c) => d == Char(c)
    case Space => d == Whitespace
    case Meridiem => d == AmPm
  }

  /** Token t never matches at a whitespace character. */
  predicate Solid(t: Token) {
    !t.Space? && !(t.Lit? && IsSpace(t.c))
  }

  /** No whitespace at position j. */
  predicate Tight(s: string, j: nat) {
    j >= |s| || !IsSpace(s[j])
  }

  /** Every single `\s` of ts is followed by a token that cannot match whitespace. */
  predicate SpacesBounded(ts: seq<Token>) {
    forall k :: 0 <= k < |ts| - 1 ==> ts[k] == Space ==> Solid(ts[k + 1])
  }

  lemma SolidTight(t: Token, s: string, j: nat)
    requires j <= |s| && MatchToken(t, s, j).Some? && Solid(t)
    ensures Tight(s, j)
  {
    if t.Digits? {
      assert IsDigit(s[j]);
    }
  }

  lemma OneLeadingSpace(s: string, i: nat)
    requires i < |s| && IsSpace(s[i]) && Tight(s, i + 1)
    ensures LeadingSpaces(s[i..]) == 1
  {
    var n := LeadingSpaces(s[i..]);
    assert s[i..][0] == s[i];
    if i + 1 < |s| {
      assert s[i..][1] == s[i + 1];
    }
  }

  lemma ExtentAgrees(t: Token, d: Directive, s: string, i: nat)
    requires i <= |s| && Agrees(t, d) && MatchToken(t, s, i).Some?
    requires t == Space ==> Tight(s, i + 1)
    ensures Extent(d, s, i) == MatchToken(t, s, i)
  {
    match t
    case Digits(_, _) =>
      assert IsDigit(s[i]);
    case Space =>
      OneLeadingSpace(s, i);
    case Lit(_) =>
    case Meridiem =>
  }

  /**
   * A token sequence and a directive sequence that agree place by place: wherever the tokens
   * match, the directives take the same segments, and succeed exactly when every segment
   * reads.
   */
  lemma {:induction false} Aligned(ts: seq<Token>, ds: seq<Directive>, s: string, i: nat, f: Fields)
    requires i <= |s| && Ranged(f) && |ts| == |ds|
    requires forall k :: 0 <= k < |ts| ==> Agrees(ts[k], ds[k])
    requires SpacesBounded(ts)
    requires MatchTokens(ts, s, i).Some?
    requires ts != [] && ts[|ts| - 1] == Space ==> Tight(s, MatchTokens(ts, s, i).value)
    ensures MatchDirectives(ds, s, i, f) ==
      (match ReadAll(ds, Segments(ts, s, i), f)
       case None => None
       case Some(g) => Some((g, MatchTokens(ts, s, i).value)))
    decreases |ts|
  {
    if ts != [] {
      var j := MatchToken(ts[0], s, i).value;
      var e := MatchTokens(ts, s, i).value;
      assert MatchTokens(ts[1..], s, j) == Some(e);
      if ts[0] == Space {
        if |ts| == 1 {
          assert e == j;
        } else {
          assert Solid(ts[1]);
          SolidTight(ts[1], s, j);
        }
      }
      ExtentAgrees(ts[0], ds[0], s, i);
      SegmentsStep(ts, s, i);
      match Read(ds[0], s[i..j], f)
      case None =>
      case Some(g) =>
        AgreeingTail(ts, ds);
        Aligned(ts[1..], ds[1..], s, j, g);
    }
  }

  /** The first segment is the first token's match; the rest are the rest's. */
  lemma SegmentsStep(ts: seq<Token>, s: string, i: nat)
    requires i <= |s| && MatchTokens(ts, s, i).Some? && ts != []
    ensures var j := MatchToken(ts[0], s, i).value;
      Segments(ts, s, i)[0] == s[i..j] && Segments(ts, s, i)[1..] == Segments(ts[1..], s, j)
  {
  }

  /** Dropping the first place keeps tokens and directives in agreement. */
  lemma AgreeingTail(ts: seq<Token>, ds: seq<Directive>)
    requires ts != [] && |ts| == |ds| && SpacesBounded(ts)
    requires forall k :: 0 <= k < |ts| ==> Agrees(ts[k], ds[k])
    ensures SpacesBounded(ts[1..])
    ensures forall k :: 0 <= k < |ts| - 1 ==> Agrees(ts[1..][k], ds[1..][k])
  {
    forall k | 0 <= k < |ts[1..]| - 1 && ts[1..][k] == Space ensures Solid(ts[1..][k + 1]) {
      assert ts[1..][k] == ts[k + 1] && ts[1..][k + 1] == ts[k + 2];
    }
    forall k | 0 <= k < |ts| - 1 ensures Agrees(ts[1..][k], ds[1..][k]) {
      assert ts[1..][k] == ts[k + 1] && ds[1..][k] == ds[k + 1];
    }
  }

  lemma {:induction false} TokensAppend(a: seq<Token>, b: seq<Token>, s: string, i: nat)
    requires i <= |s|
    ensures MatchTokens(a + b, s, i) ==
      (match MatchTokens(a, s, i)
       case None => None
       case Some(p) => MatchTokens(b, s, p))
    decreases |a|
  {
    if a == [] {
      assert a + b == b;
    } else {
      assert (a + b)[0] == a[0] && (a + b)[1..] == a[1..] + b;
      match MatchToken(a[0], s, i)
      case None =>
      case Some(j) => TokensAppend(a[1..], b, s, j);
    }
  }

  lemma {:induction false} DirectivesAppend(a: seq<Directive>, b: seq<Directive>, s: string, i: nat, f: Fields)
    requires i <= |s| && Ranged(f)
    ensures MatchDirectives(a + b, s, i, f) ==
      (match MatchDirectives(a, s, i, f)
       case None => None
       case Some(m) => MatchDirectives(b, s, m.1, m.0))
    decreases |a|
  {
    if a == [] {
      assert a + b == b;
    } else {
      assert (a + b)[0] == a[0] && (a + b)[1..] == a[1..] + b;
      match Extent(a[0], s, i)
      case None =>
      case Some(j) =>
        match Read(a[0], s[i..j], f)
        case None =>
        case Some(g) => DirectivesAppend(a[1..], b, s, j, g);
    }
  }

  lemma PatternShape()
    ensures |Pattern()| == 15
    ensures SpacesBounded(Pattern())
    ensures Pattern()[6] == Space && Pattern()[10] == Space && Pattern()[11] == Meridiem
    ensures Pattern()[12] == Space && Pattern()[14] == Space
  {
    var p := Pattern();
    forall k | 0 <= k < |p| - 1 && p[k] == Space ensures Solid(p[k + 1]) {
      assert p[k] == PatternTokens[k] && p[k + 1] == PatternTokens[k + 1];
    }
  }

  /** In a stamp, the eleven tokens before "am"/"pm" match up to an 'a' or a 'p'. */
  lemma StampBeforeMeridiem(t: string)
    requires IsStamp(t)
    ensures MatchTokens(Pattern()[..11], t, 0).Some?
    ensures var m := MatchTokens(Pattern()[..11], t, 0).value;
      m < |t| && (t[m] == 'a' || t[m] == 'p')
  {
    PatternShape();
    var p := Pattern();
    assert p == p[..11] + p[11..];
    TokensAppend(p[..11], p[11..], t, 0);
    var m := MatchTokens(p[..11], t, 0).value;
    assert p[11..][0] == Meridiem;
    assert MatchToken(Meridiem, t, m).Some?;
  }

  /** Where aligned directives succeed, they end where the tokens end. */
  lemma AlignedEnd(ts: seq<Token>, ds: seq<Directive>, s: string, i: nat, f: Fields)
    requires i <= |s| && Ranged(f) && |ts| == |ds|
    requires forall k :: 0 <= k < |ts| ==> Agrees(ts[k], ds[k])
    requires SpacesBounded(ts)
    requires MatchTokens(ts, s, i).Some?
    requires ts != [] && ts[|ts| - 1] == Space ==> Tight(s, MatchTokens(ts, s, i).value)
    ensures MatchDirectives(ds, s, i, f).Some? ==>
      MatchDirectives(ds, s, i, f).value.1 == MatchTokens(ts, s, i).value
  {
    Aligned(ts, ds, s, i, f);
  }

  /** The first eleven pieces of the pattern and of the 24-hour directives correspond. */
  lemma Agrees24(ts: seq<Token>, ds: seq<Directive>)
    requires ts == Pattern()[..11] && ds == Rules24[..11]
    ensures |ts| == |ds| && forall k :: 0 <= k < |ts| ==> Agrees(ts[k], ds[k])
  {
    forall k | 0 <= k < |ts| ensures Agrees(ts[k], ds[k]) {
      assert ts[k] == PatternTokens[k];
    }
  }

  /** The first eleven pieces of the pattern end in a space, and no space is followed by one. */
  lemma Bounded11(ts: seq<Token>)
    requires ts == Pattern()[..11]
    ensures SpacesBounded(ts) && ts[10] == Space
  {
    forall k | 0 <= k < |ts| - 1 && ts[k] == Space ensures Solid(ts[k + 1]) {
      assert ts[k] == PatternTokens[k] && ts[k + 1] == PatternTokens[k + 1];
    }
    assert ts[10] == PatternTokens[10];
  }

  /** Up to the minutes and the space after them, the 24-hour format reads a stamp as the
      pattern does. */
  lemma Prefix24(t: string, ts: seq<Token>, ds: seq<Directive>)
    requires IsStamp(t) && ts == Pattern()[..11] && ds == Rules24[..11]
    ensures MatchTokens(ts, t, 0).Some?
    ensures MatchDirectives(ds, t, 0, NoFields).Some? ==>
      MatchDirectives(ds, t, 0, NoFields).value.1 == MatchTokens(ts, t, 0).value
  {
    StampBeforeMeridiem(t);
    Agrees24(ts, ds);
    Bounded11(ts);
    var m := MatchTokens(ts, t, 0).value;
    assert Tight(t, m);
    AlignedEnd(ts, ds, t, 0, NoFields);
  }

  /** A literal '-' does not read an 'a' or a 'p'. */
  lemma DashFails(rest: seq<Directive>, s: string, i: nat, f: Fields)
    requires rest != [] && rest[0] == Char('-') && i < |s| && (s[i] == 'a' || s[i] == 'p') && Ranged(f)
    ensures MatchDirectives(rest, s, i, f) == None
  {
    assert s[i..i + 1] == [s[i]];
  }

  /**
   * The 24-hour format never reads a timestamp the scanner finds: after the minutes it
   * wants " - ", and every stamp has "am" or "pm" there. The third attempt in preprocess
   * therefore fails whenever it is reached.
   */
  lemma Format24RejectsStamps(t: string)
    requires IsStamp(t)
    ensures ParseWith(Format24, t) == None
  {
    CompiledFormat24(Format24, Rules24);
    StampBeforeMeridiem(t);
    var ts := Pattern()[..11];
    var ds, rest := Rules24[..11], Rules24[11..];
    Prefix24(t, ts, ds);
    assert Rules24 == ds + rest;
    DirectivesAppend(ds, rest, t, 0, NoFields);
    var r := MatchDirectives(ds, t, 0, NoFields);
    if r.Some? {
      DashFails(rest, t, r.value.1, r.value.0);
    }
    assert MatchDirectives(Rules24, t, 0, NoFields) == None;
  }

  // ================================================================ what a stamp means

  /** The numbers of a timestamp as written in it, and its "am" or "pm". */
  datatype Parts = Parts(day: string, month: string, year: string, hour: string, minute: string, meridiem: string)

  predicate WellFormed(p: Parts) {
    AllDigits(p.day) && AllDigits(p.month) && AllDigits(p.year) && AllDigits(p.hour) && AllDigits(p.minute)
  }

  /** Text that fits the pattern piece by piece: its numbers are digits, its separators the
      pattern's own characters. */
  lemma PatternFits(ts: seq<Token>, segs: seq<string>)
    requires |ts| == |PatternTokens| == |segs|
    requires forall k :: 0 <= k < |ts| ==> ts[k] == PatternTokens[k]
    requires forall k :: 0 <= k < |ts| ==> Fits(ts[k], segs[k])
    ensures AllDigits(segs[0]) && AllDigits(segs[2]) && AllDigits(segs[4]) && AllDigits(segs[7]) && AllDigits(segs[9])
    ensures 1 <= |segs[0]| <= 2 && 1 <= |segs[2]| <= 2 && 2 <= |segs[4]| <= 4
    ensures 1 <= |segs[7]| <= 2 && |segs[9]| == 2
    ensures segs[1] == "/" && segs[3] == "/" && segs[5] == "," && segs[8] == ":" && segs[13] == "-"
    ensures |segs[6]| == 1 && IsSpace(segs[6][0]) && |segs[10]| == 1 && IsSpace(segs[10][0])
    ensures |segs[12]| == 1 && IsSpace(segs[12][0]) && |segs[14]| == 1 && IsSpace(segs[14][0])
    ensures segs[11] == "am" || segs[11] == "pm"
  {
    assert Fits(ts[0], segs[0]) && Fits(ts[1], segs[1]) && Fits(ts[2], segs[2]) && Fits(ts[3], segs[3]);
    assert Fits(ts[4], segs[4]) && Fits(ts[5], segs[5]) && Fits(ts[6], segs[6]) && Fits(ts[7], segs[7]);
    assert Fits(ts[8], segs[8]) && Fits(ts[9], segs[9]) && Fits(ts[10], segs[10]) && Fits(ts[11], segs[11]);
    assert Fits(ts[12], segs[12]) && Fits(ts[13], segs[13]) && Fits(ts[14], segs[14]);
  }

  /** The parts of a stamp, cut where the pattern's pieces cut it. */
  /** The numbers and the am/pm among the pieces of a stamp. */
  function PartsOfSegments(segs: seq<string>): Parts
    requires |segs| == |PatternTokens|
  {
    Parts(segs[0], segs[2], segs[4], segs[7], segs[9], segs[11])
  }

  function PartsOf(t: string): (p: Parts)
    requires IsStamp(t)
    ensures WellFormed(p)
    ensures 1 <= |p.day| <= 2 && 1 <= |p.month| <= 2 && 2 <= |p.year| <= 4
    ensures 1 <= |p.hour| <= 2 && |p.minute| == 2
    ensures p.meridiem == "am" || p.meridiem == "pm"
  {
    var segs := Segments(Pattern(), t, 0);
    PatternFits(Pattern(), segs);
    PartsOfSegments(segs)
  }

  /**
   * The minute a stamp's parts name when read as day/month/four-digit year and an hour of the
   * 12-hour clock with its "am" or "pm"; None when the year is not four digits, the hour is
   * not 1..12, the date or time does not exist, or it lies outside a pandas Timestamp's range.
   */
  function Denotes(p: Parts): (r: Option<DateTime>)
    requires WellFormed(p)
    ensures r.Some? ==> ValidDateTime(r.value) && InTimestampRange(r.value)
    ensures r.Some? ==> |p.year| == 4 && r.value.date == Date(DigitsValue(p.year), DigitsValue(p.month), DigitsValue(p.day))
    ensures r.Some? ==> r.value.minute == DigitsValue(p.minute)
    ensures r.Some? ==> (r.value.hour >= 12 <==> p.meridiem == "pm") && r.value.hour % 12 == DigitsValue(p.hour) % 12
  {
    var hour := DigitsValue(p.hour);
    if |p.year| != 4 || !(1 <= hour <= 12) then None
    else
      var t := DateTime(Date(DigitsValue(p.year), DigitsValue(p.month), DigitsValue(p.day)),
                        Clock24(hour, p.meridiem == "pm"), DigitsValue(p.minute));
      if ValidDateTime(t) && InTimestampRange(t) then Some(t) else None
  }

  /** What the 12-hour directives read from the parts, when every one of them accepts its part. */
  predicate ReadsAsStamp(p: Parts)
    requires WellFormed(p)
  {
    1 <= DigitsValue(p.day) <= 31 && 1 <= DigitsValue(p.month) <= 12 && |p.year| == 4
    && 1 <= DigitsValue(p.hour) <= 12 && DigitsValue(p.minute) <= 59
  }

  function StampFields(p: Parts): Fields
    requires WellFormed(p)
  {
    Fields(Some(DigitsValue(p.day)), Some(DigitsValue(p.month)), Some(DigitsValue(p.year)),
           Some(DigitsValue(p.hour)), None, Some(DigitsValue(p.minute)), Some(p.meridiem == "pm"))
  }

  lemma ReadAllAt(ds: seq<Directive>, segs: seq<string>, k: nat, f: Fields)
    requires k < |ds| == |segs| && Ranged(f)
    ensures ReadAll(ds[k..], segs[k..], f) ==
      (match Read(ds[k], segs[k], f)
       case None => None
       case Some(g) => ReadAll(ds[k + 1..], segs[k + 1..], g))
  {
    assert ds[k..][1..] == ds[k + 1..] && segs[k..][1..] == segs[k + 1..];
  }

  /** A directive that sets nothing lets its part through. */
  lemma ReadAllPass(ds: seq<Directive>, segs: seq<string>, k: nat, f: Fields)
    requires k < |ds| == |segs| && Ranged(f) && Read(ds[k], segs[k], f) == Some(f)
    ensures ReadAll(ds[k..], segs[k..], f) == ReadAll(ds[k + 1..], segs[k + 1..], f)
  {
    ReadAllAt(ds, segs, k, f);
  }

  /** A directive that rejects its part fails the whole read. */
  lemma ReadAllStop(ds: seq<Directive>, segs: seq<string>, k: nat, f: Fields)
    requires k < |ds| == |segs| && Ranged(f) && Read(ds[k], segs[k], f) == None
    ensures ReadAll(ds[k..], segs[k..], f) == None
  {
    ReadAllAt(ds, segs, k, f);
  }

  /** After the minutes, the 12-hour directives read the am/pm and nothing else. */
  lemma ReadTail(ds: seq<Directive>, segs: seq<string>, f: Fields)
    requires |ds| == |segs| == 15 && Ranged(f)
    requires ds[10] == Whitespace && ds[11] == AmPm
    requires ds[12] == Whitespace && ds[13] == Char('-') && ds[14] == Whitespace
    requires |segs[10]| == 1 && IsSpace(segs[10][0]) && (segs[11] == "am" || segs[11] == "pm")
    requires |segs[12]| == 1 && IsSpace(segs[12][0]) && segs[13] == "-" && |segs[14]| == 1 && IsSpace(segs[14][0])
    ensures ReadAll(ds[10..], segs[10..], f) == Some(f.(pm := Some(segs[11] == "pm")))
  {
    var g := f.(pm := Some(segs[11] == "pm"));
    assert ds[15..] == [] && segs[15..] == [];
    ReadAllPass(ds, segs, 14, g);
    ReadAllPass(ds, segs, 13, g);
    ReadAllPass(ds, segs, 12, g);
    ReadAllAt(ds, segs, 11, f);
    ReadAllPass(ds, segs, 10, f);
  }

  /** The 12-hour directive list, element by element. */
  predicate Spelled12(ds: seq<Directive>) {
    |ds| == 15 && ds[0] == DayOfMonth && ds[1] == Char('/') && ds[2] == MonthNumber && ds[3] == Char('/')
    && ds[4] == Year4 && ds[5] == Char(',') && ds[6] == Whitespace && ds[7] == Hour12 && ds[8] == Char(':')
    && ds[9] == MinuteOfHour && ds[10] == Whitespace && ds[11] == AmPm
    && ds[12] == Whitespace && ds[13] == Char('-') && ds[14] == Whitespace
  }

  lemma Rules12Spelled()
    ensures Spelled12(Rules12)
  {
  }

  /** From the comma on, the 12-hour directives read the hour, the minutes and the am/pm. */
  lemma ReadTime(ds: seq<Directive>, segs: seq<string>, f: Fields, p: Parts)
    requires |ds| == |segs| == 15 && Ranged(f) && WellFormed(p)
    requires ds[5] == Char(',') && ds[6] == Whitespace && ds[7] == Hour12 && ds[8] == Char(':')
    requires ds[9] == MinuteOfHour && ds[10] == Whitespace && ds[11] == AmPm
    requires ds[12] == Whitespace && ds[13] == Char('-') && ds[14] == Whitespace
    requires segs[5] == "," && |segs[6]| == 1 && IsSpace(segs[6][0]) && segs[8] == ":"
    requires 1 <= |segs[7]| <= 2 && |segs[9]| == 2 && segs[7] == p.hour && segs[9] == p.minute
    requires |segs[10]| == 1 && IsSpace(segs[10][0]) && segs[11] == p.meridiem && (segs[11] == "am" || segs[11] == "pm")
    requires |segs[12]| == 1 && IsSpace(segs[12][0]) && segs[13] == "-" && |segs[14]| == 1 && IsSpace(segs[14][0])
    ensures ReadAll(ds[5..], segs[5..], f) ==
      if 1 <= DigitsValue(p.hour) <= 12 && DigitsValue(p.minute) <= 59 then
        Some(f.(hour12 := Some(DigitsValue(p.hour))).(minute := Some(DigitsValue(p.minute))).(pm := Some(p.meridiem == "pm")))
      else None
  {
    var h := DigitsValue(p.hour);
    ReadAllPass(ds, segs, 5, f);
    ReadAllPass(ds, segs, 6, f);
    ReadAllAt(ds, segs, 7, f);
    if 1 <= h <= 12 {
      var g := f.(hour12 := Some(h));
      ReadMinute(ds, segs, g, p);
      if DigitsValue(p.minute) <= 59 {
        ReadTail(ds, segs, g.(minute := Some(DigitsValue(p.minute))));
      }
    }
  }

  /** After the hour, the 12-hour directives read the colon and the minutes. */
  lemma ReadMinute(ds: seq<Directive>, segs: seq<string>, g: Fields, p: Parts)
    requires |ds| == |segs| == 15 && Ranged(g) && WellFormed(p)
    requires ds[8] == Char(':') && ds[9] == MinuteOfHour
    requires segs[8] == ":" && |segs[9]| == 2 && segs[9] == p.minute
    ensures ReadAll(ds[8..], segs[8..], g) ==
      if DigitsValue(p.minute) <= 59 then ReadAll(ds[10..], segs[10..], g.(minute := Some(DigitsValue(p.minute))))
      else None
  {
    ReadAllPass(ds, segs, 8, g);
    ReadAllAt(ds, segs, 9, g);
  }

  /** Up to the comma, the 12-hour directives read the day, the month and a four-digit year. */
  lemma ReadDate(ds: seq<Directive>, segs: seq<string>, p: Parts)
    requires |ds| == |segs| == 15 && WellFormed(p)
    requires ds[0] == DayOfMonth && ds[1] == Char('/') && ds[2] == MonthNumber && ds[3] == Char('/') && ds[4] == Year4
    requires 1 <= |segs[0]| <= 2 && segs[1] == "/" && 1 <= |segs[2]| <= 2 && segs[3] == "/"
    requires segs[0] == p.day && segs[2] == p.month && segs[4] == p.year
    ensures ReadAll(ds, segs, NoFields) ==
      if 1 <= DigitsValue(p.day) <= 31 && 1 <= DigitsValue(p.month) <= 12 && |p.year| == 4 then
        ReadAll(ds[5..], segs[5..], NoFields.(day := Some(DigitsValue(p.day))).(month := Some(DigitsValue(p.month))).(year := Some(DigitsValue(p.year))))
      else None
  {
    assert ds[0..] == ds && segs[0..] == segs;
    var d, m := DigitsValue(p.day), DigitsValue(p.month);
    assert IsDigit(segs[0][0]);
    ReadAllAt(ds, segs, 0, NoFields);
    if 1 <= d <= 31 {
      var f1 := NoFields.(day := Some(d));
      ReadAllPass(ds, segs, 1, f1);
      ReadAllAt(ds, segs, 2, f1);
      if 1 <= m <= 12 {
        var f2 := f1.(month := Some(m));
        ReadAllPass(ds, segs, 3, f2);
        ReadAllAt(ds, segs, 4, f2);
        if |p.year| == 4 {
          DigitsValueBound(p.year);
          assert Pow10(4) == 10000;
          assert Read(Year4, segs[4], f2) == Some(f2.(year := Some(DigitsValue(p.year))));
        }
      }
    }
  }

  /**
   * The 12-hour directives read a stamp's segments exactly when every number is in range
   * and the year has four digits, and then record each number and whether it is "pm".
   */
  lemma ReadParts(ds: seq<Directive>, segs: seq<string>)
    requires Spelled12(ds) && |segs| == |PatternTokens|
    requires forall k :: 0 <= k < |segs| ==> Fits(PatternTokens[k], segs[k])
    requires WellFormed(PartsOfSegments(segs))
    ensures var p := PartsOfSegments(segs);
      ReadAll(ds, segs, NoFields) == if ReadsAsStamp(p) then Some(StampFields(p)) else None
  {
    var p := PartsOfSegments(segs);
    PatternFits(PatternTokens, segs);
    ReadDate(ds, segs, p);
    if 1 <= DigitsValue(p.day) <= 31 && 1 <= DigitsValue(p.month) <= 12 && |p.year| == 4 {
      ReadTime(ds, segs, NoFields.(day := Some(DigitsValue(p.day))).(month := Some(DigitsValue(p.month))).(year := Some(DigitsValue(p.year))), p);
    }
  }

  /** The 12-hour directives read the pieces of a stamp as its parts say. */
  lemma ReadStamp(ds: seq<Directive>, t: string)
    requires Spelled12(ds) && IsStamp(t)
    ensures var p := PartsOf(t);
      ReadAll(ds, Segments(Pattern(), t, 0), NoFields) == if ReadsAsStamp(p) then Some(StampFields(p)) else None
  {
    var segs := Segments(Pattern(), t, 0);
    forall k | 0 <= k < |segs| ensures Fits(PatternTokens[k], segs[k]) {
      assert Pattern()[k] == PatternTokens[k];
    }
    assert PartsOf(t) == PartsOfSegments(segs);
    ReadParts(ds, segs);
  }

  /** The fields read from a stamp name the minute its parts denote. */
  lemma AssembleStamp(p: Parts)
    requires WellFormed(p)
    ensures (if ReadsAsStamp(p) then Assemble(StampFields(p)) else None) == Denotes(p)
  {
    if !ReadsAsStamp(p) && |p.year| == 4 && 1 <= DigitsValue(p.hour) <= 12 {
      var d := Date(DigitsValue(p.year), DigitsValue(p.month), DigitsValue(p.day));
      if ValidDate(d) {
        assert DaysInMonth(d.year, d.month) <= 31;
      }
    }
  }

  /** The 12-hour directives take a stamp apart where the pattern's pieces do, to its end. */
  lemma Stamp12(t: string, ts: seq<Token>, ds: seq<Directive>)
    requires IsStamp(t) && ts == Pattern() && Spelled12(ds)
    ensures MatchDirectives(ds, t, 0, NoFields) ==
      (match ReadAll(ds, Segments(ts, t, 0), NoFields)
       case None => None
       case Some(g) => Some((g, |t|)))
  {
    PatternShape();
    Agrees12(ts, ds);
    Aligned(ts, ds, t, 0, NoFields);
  }

  lemma Agrees12(ts: seq<Token>, ds: seq<Directive>)
    requires ts == Pattern() && Spelled12(ds)
    ensures |ts| == |ds| && forall k :: 0 <= k < |ts| ==> Agrees(ts[k], ds[k])
  {
    forall k | 0 <= k < |ts| ensures Agrees(ts[k], ds[k]) {
      assert ts[k] == PatternTokens[k];
    }
  }

  /**
   * What preprocess's first two formats make of a timestamp the scanner found: the minute
   * its parts denote, or None (and the formats fail) when its year has two or three digits
   * or its date or time does not exist.
   */
  lemma StampDate(t: string)
    requires IsStamp(t)
    ensures ParseWith(FormatNarrow, t) == Denotes(PartsOf(t))
    ensures ParseWith(FormatSpace, t) == Denotes(PartsOf(t))
  {
    CompiledFormatNarrow(FormatNarrow, Rules12);
    CompiledFormatSpace(FormatSpace, Rules12);
    Rules12Spelled();
    StampParse(FormatNarrow, Rules12, t);
    StampParse(FormatSpace, Rules12, t);
  }

  lemma StampParse(fmt: string, ds: seq<Directive>, t: string)
    requires Compile(fmt) == Some(ds) && Spelled12(ds) && IsStamp(t)
    ensures ParseWith(fmt, t) == Denotes(PartsOf(t))
  {
    MatchStamp(ds, t);
    AssembleStamp(PartsOf(t));
  }

  /** The 12-hour directives take in a whole stamp exactly when its numbers are in range. */
  lemma MatchStamp(ds: seq<Directive>, t: string)
    requires Spelled12(ds) && IsStamp(t)
    ensures var p := PartsOf(t);
      MatchDirectives(ds, t, 0, NoFields) == if ReadsAsStamp(p) then Some((StampFields(p), |t|)) else None
  {
    ReadStamp(ds, t);
    Stamp12(t, Pattern(), ds);
  }

  /** A stamp whose year has two or three digits, which the scanner accepts, is read by none
      of the three formats. */
  lemma ShortYearNeverParses(t: string)
    requires IsStamp(t) && |PartsOf(t).year| < 4
    ensures ParseWith(FormatNarrow, t) == None && ParseWith(FormatSpace, t) == None
    ensures ParseWith(Format24, t) == None
  {
    StampDate(t);
    Format24RejectsStamps(t);
  }
}
