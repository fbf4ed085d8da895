/**
 * Offer-window dates: the `[A-Za-z]+ \d+, \d+` date shape the patterns capture,
 * `datetime.strptime(text, '%b %d, %Y').date()` on it, and `extract_dates`.
 */
module Dates {
  import opened Wrappers
  import opened Chars
  import opened Text
  import opened Scan

  datatype Date = Date(year: nat, month: nat, day: nat)

  /** One date as the patterns capture it: month word, day digits and year digits. */
  datatype DateText = DateText(mon: string, day: string, year: string)

  predicate WellFormed(t: DateText) {
    && |t.mon| >= 1 && (forall m :: 0 <= m < |t.mon| ==> IsLetter(t.mon[m]))
    && |t.day| >= 1 && AllDigits(t.day)
    && |t.year| >= 1 && AllDigits(t.year)
  }

  /** The captured text itself: "Aug 4, 2025". */
  function DateString(t: DateText): string {
    t.mon + " " + t.day + ", " + t.year
  }

  predicate IsLeap(y: nat) {
    y % 4 == 0 && (y % 100 != 0 || y % 400 == 0)
  }

  function DaysInMonth(y: nat, m: nat): nat
    requires 1 <= m <= 12
  {
    if m == 2 then (if IsLeap(y) then 29 else 28)
    else if m == 4 || m == 6 || m == 9 || m == 11 then 30
    else 31
  }

  /** A date Python's `datetime.date` accepts (MINYEAR 1 to MAXYEAR 9999). */
  predicate ValidDate(d: Date) {
    1 <= d.year <= 9999 && 1 <= d.month <= 12 && 1 <= d.day <= DaysInMonth(d.year, d.month)
  }

  /** `%b` in the C locale, lower-cased as `_strptime` compares it. */
  const MonthAbbrevs: seq<string> :=
    ["jan", "feb", "mar", "apr", "may", "jun", "jul", "aug", "sep", "oct", "nov", "dec"]

  /** `%b`: the month word must be exactly one abbreviation, in any letter case. */
  function MonthNumber(tok: string): (m: Option<nat>)
    ensures m.Some? ==> 1 <= m.value <= 12 && |tok| == 3
    ensures m.Some? ==> FoldLitAt(tok, 0, MonthAbbrevs[m.value - 1])
  {
    MonthFrom(tok, 0)
  }

  function MonthFrom(tok: string, k: nat): (m: Option<nat>)
    requires k <= 12
    ensures m.Some? ==> k + 1 <= m.value <= 12 && |tok| == 3
    ensures m.Some? ==> FoldLitAt(tok, 0, MonthAbbrevs[m.value - 1])
    decreases 12 - k
  {
    if k == 12 then None
    else if |tok| == 3 && FoldLitAt(tok, 0, MonthAbbrevs[k]) then Some(k + 1)
    else MonthFrom(tok, k + 1)
  }

  /**
   * `%d`, whose regular expression is `3[01]|[12]\d|0[1-9]|[1-9]| [1-9]` and which must be
   * followed by the comma: the maximal digit run before the comma must be one of those.
   */
  function DayNumber(tok: string): (d: Option<nat>)
    requires AllDigits(tok)
    ensures d.Some? ==> 1 <= d.value <= 31 && 1 <= |tok| <= 2 && d.value == Value(tok)
  {
    if |tok| == 1 && tok[0] != '0' then
      ValueShort(tok);
      Some(DigitValue(tok[0]))
    else if |tok| == 2 && ((tok[0] == '3' && tok[1] <= '1') || tok[0] == '1' || tok[0] == '2'
                           || (tok[0] == '0' && tok[1] != '0')) then
      ValueShort(tok);
      Some(DigitValue(tok[0]) * 10 + DigitValue(tok[1]))
    else None
  }

  /** `%Y`, whose regular expression is `\d\d\d\d` and which must end the text. */
  function YearNumber(tok: string): (y: Option<nat>)
    requires AllDigits(tok)
    ensures y.Some? ==> |tok| == 4 && y.value <= 9999
  {
    if |tok| == 4 then
      ValueBound(tok);
      assert Pow10(4) == 10000;
      Some(Value(tok))
    else None
  }

  /**
   * `datetime.strptime(DateString(t), '%b %d, %Y').date()`: month word, day and year must
   * fit their directives, and the date must exist, or ValueError (here None) results.
   */
  function Strptime(t: DateText): (r: Option<Date>)
    requires WellFormed(t)
    ensures r.Some? ==> ValidDate(r.value)
    ensures r.Some? ==> |t.mon| == 3 && |t.year| == 4 && |t.day| <= 2
    ensures r.Some? ==> FoldLitAt(t.mon, 0, MonthAbbrevs[r.value.month - 1])
    ensures r.Some? ==> r.value.day == Value(t.day) && r.value.year == Value(t.year)
  {
    match (MonthNumber(t.mon), DayNumber(t.day), YearNumber(t.year))
    case (Some(m), Some(d), Some(y)) =>
      if 1 <= y && d <= DaysInMonth(y, m) then Some(Date(y, m, d)) else None
    case _ => None
  }

  // ------------------------------------------------------------ matchers

  /**
   * Where one date sits in the text, as the group spans of a match: the month word is
   * `s[start..monEnd]`, then a space, the day `s[monEnd + 1..dayEnd]`, then ", ", and the
   * year `s[dayEnd + 2..end]`.
   */
  datatype DateSpan = DateSpan(start: nat, monEnd: nat, dayEnd: nat, end: nat)

  /** The spans are in order and inside the text, and no digit follows the year. */
  predicate SpanIn(s: string, m: DateSpan) {
    m.start < m.monEnd && m.monEnd + 1 < m.dayEnd && m.dayEnd + 2 < m.end <= |s|
    && (m.end == |s| || !IsDigit(s[m.end]))
  }

  /** The text a date match captured. */
  function SpanText(s: string, m: DateSpan): DateText
    requires SpanIn(s, m)
  {
    DateText(s[m.start..m.monEnd], s[m.monEnd + 1..m.dayEnd], s[m.dayEnd + 2..m.end])
  }

  /** `[A-Za-z]+ \d+, \d+` anchored at `p`. */
  function DateAt(s: string, p: nat): (r: Option<DateSpan>)
    ensures r.Some? ==> r.value.start == p && SpanIn(s, r.value) && IsLetter(s[p])
  {
    if p < |s| && IsLetter(s[p]) then
      var a := RunEnd(s, p, Letter);
      if a + 1 < |s| && s[a] == ' ' && IsDigit(s[a + 1]) then
        var b := RunEnd(s, a + 1, Digit);
        if b + 2 < |s| && s[b] == ',' && s[b + 1] == ' ' && IsDigit(s[b + 2]) then
          var c := RunEnd(s, b + 2, Digit);
          RunEndSpec(s, b + 2, Digit);
          Some(DateSpan(p, a, b, c))
        else None
      else None
    else None
  }

  /** DateAt accepts once each of its three tests passes. */
  lemma DateAtIs(s: string, p: nat, a: nat, b: nat, c: nat)
    requires p < |s| && IsLetter(s[p]) && RunEnd(s, p, Letter) == a
    requires a + 1 < |s| && s[a] == ' ' && IsDigit(s[a + 1]) && RunEnd(s, a + 1, Digit) == b
    requires b + 2 < |s| && s[b] == ',' && s[b + 1] == ' ' && IsDigit(s[b + 2]) && RunEnd(s, b + 2, Digit) == c
    ensures DateAt(s, p) == Some(DateSpan(p, a, b, c))
  {
  }

  /** What DateAt captures is a month word, a day numeral and a year numeral. */
  lemma DateAtWellFormed(s: string, p: nat)
    requires DateAt(s, p).Some?
    ensures WellFormed(SpanText(s, DateAt(s, p).value))
  {
    var a := RunEnd(s, p, Letter);
    var b := RunEnd(s, a + 1, Digit);
    var c := RunEnd(s, b + 2, Digit);
    assert DateAt(s, p) == Some(DateSpan(p, a, b, c));
    RunEndSpec(s, p, Letter);
    RunEndSpec(s, a + 1, Digit);
    RunEndSpec(s, b + 2, Digit);
    var t := SpanText(s, DateSpan(p, a, b, c));
    assert forall m :: 0 <= m < |t.mon| ==> t.mon[m] == s[p + m];
    assert forall m :: 0 <= m < |t.day| ==> t.day[m] == s[a + 1 + m];
    assert forall m :: 0 <= m < |t.year| ==> t.year[m] == s[b + 2 + m];
  }

  /** What DateAt matched is the text of the date it captured. */
  lemma DateAtText(s: string, p: nat)
    requires DateAt(s, p).Some?
    ensures s[p..DateAt(s, p).value.end] == DateString(SpanText(s, DateAt(s, p).value))
  {
    var a := RunEnd(s, p, Letter);
    var b := RunEnd(s, a + 1, Digit);
    var c := RunEnd(s, b + 2, Digit);
    assert DateAt(s, p) == Some(DateSpan(p, a, b, c));
    DateTextJoin(s, DateSpan(p, a, b, c));
  }

  lemma DateTextJoin(s: string, m: DateSpan)
    requires SpanIn(s, m)
    requires s[m.monEnd] == ' ' && s[m.dayEnd] == ',' && s[m.dayEnd + 1] == ' '
    ensures s[m.start..m.end] == DateString(SpanText(s, m))
  {
    var p, a, b, c := m.start, m.monEnd, m.dayEnd, m.end;
    assert s[a..a + 1] == " " && s[b..b + 2] == ", ";
    SliceConcat(s, p, a, a + 1);
    SliceConcat(s, p, a + 1, b);
    SliceConcat(s, p, b, b + 2);
    SliceConcat(s, p, b + 2, c);
  }

  /** Where a date written at `p` ends. */
  function DateEnd(p: nat, t: DateText): nat {
    p + |t.mon| + |t.day| + |t.year| + 3
  }

  /** The spans of a date written at `p`. */
  function SpanOf(p: nat, t: DateText): DateSpan {
    DateSpan(p, p + |t.mon|, p + |t.mon| + 1 + |t.day|, DateEnd(p, t))
  }

  /** The pieces of a written date, each found in place in `s`. */
  predicate DateParts(s: string, p: nat, t: DateText) {
    var a := p + |t.mon|;
    var b := a + 1 + |t.day|;
    LitAt(s, p, t.mon) && LitAt(s, a + 1, t.day) && LitAt(s, b + 2, t.year)
    && s[a] == ' ' && s[b] == ',' && s[b + 1] == ' '
  }

  lemma DatePartsOf(s: string, p: nat, t: DateText)
    requires LitAt(s, p, DateString(t))
    ensures DateParts(s, p, t) && DateEnd(p, t) == p + |DateString(t)|
  {
    var a := p + |t.mon|;
    var b := a + 1 + |t.day|;
    LitAtConcat(s, p, t.mon + " " + t.day + ", ", t.year);
    LitAtConcat(s, p, t.mon + " " + t.day, ", ");
    LitAtConcat(s, p, t.mon + " ", t.day);
    LitAtConcat(s, p, t.mon, " ");
    assert s[a] == s[a..a + 1][0] && s[b] == s[b..b + 2][0] && s[b + 1] == s[b..b + 2][1];
  }

  /** What DateAt's three tests see over a date written piece by piece. */
  lemma DatePartsRuns(s: string, p: nat, t: DateText)
    requires WellFormed(t) && DateParts(s, p, t)
    requires DateEnd(p, t) == |s| || !IsDigit(s[DateEnd(p, t)])
    ensures var a := p + |t.mon|; var b := a + 1 + |t.day|;
      && p < |s| && IsLetter(s[p]) && RunEnd(s, p, Letter) == a
      && a + 1 < |s| && s[a] == ' ' && IsDigit(s[a + 1]) && RunEnd(s, a + 1, Digit) == b
      && b + 2 < |s| && s[b] == ',' && s[b + 1] == ' ' && IsDigit(s[b + 2])
      && RunEnd(s, b + 2, Digit) == DateEnd(p, t)
  {
    var a := p + |t.mon|;
    var b := a + 1 + |t.day|;
    PieceRun(s, p, t.mon, Letter);
    PieceRun(s, a + 1, t.day, Digit);
    PieceRun(s, b + 2, t.year, Digit);
  }

  /** The groups over a date written piece by piece are its pieces. */
  lemma SpanTextOf(s: string, p: nat, t: DateText)
    requires DateParts(s, p, t) && SpanIn(s, SpanOf(p, t))
    ensures SpanText(s, SpanOf(p, t)) == t
  {
  }

  /** DatePartsRuns and SpanTextOf together, stated over the span. */
  lemma DatePartsSpan(s: string, q: nat, t: DateText)
    requires WellFormed(t) && DateParts(s, q, t)
    requires DateEnd(q, t) == |s| || !IsDigit(s[DateEnd(q, t)])
    ensures DateRunsAt(s, SpanOf(q, t)) && SpanIn(s, SpanOf(q, t)) && SpanText(s, SpanOf(q, t)) == t
  {
    DatePartsRuns(s, q, t);
    SpanTextOf(s, q, t);
  }

  /** A written date gives DateAt's runs, and its groups are its pieces. */
  lemma DateStringSpan(s: string, q: nat, t: DateText)
    requires WellFormed(t) && LitAt(s, q, DateString(t))
    requires q + |DateString(t)| == |s| || !IsDigit(s[q + |DateString(t)|])
    ensures DateEnd(q, t) == q + |DateString(t)|
    ensures DateRunsAt(s, SpanOf(q, t)) && SpanIn(s, SpanOf(q, t)) && SpanText(s, SpanOf(q, t)) == t
  {
    DatePartsOf(s, q, t);
    DatePartsSpan(s, q, t);
  }

  /** A date written piece by piece is read back by DateAt, when no digit follows it. */
  lemma DateAtParts(s: string, p: nat, t: DateText)
    requires WellFormed(t) && DateParts(s, p, t)
    requires DateEnd(p, t) == |s| || !IsDigit(s[DateEnd(p, t)])
    ensures DateAt(s, p) == Some(SpanOf(p, t)) && SpanText(s, SpanOf(p, t)) == t
  {
    DatePartsRuns(s, p, t);
    var a := p + |t.mon|;
    var b := a + 1 + |t.day|;
    DateAtIs(s, p, a, b, DateEnd(p, t));
    SpanTextOf(s, p, t);
  }

  /** A written date is read back by DateAt, when no digit follows it. */
  lemma DateAtString(s: string, p: nat, t: DateText)
    requires WellFormed(t) && LitAt(s, p, DateString(t))
    requires p + |DateString(t)| == |s| || !IsDigit(s[p + |DateString(t)|])
    ensures DateAt(s, p).Some? && DateAt(s, p).value.end == p + |DateString(t)|
    ensures SpanText(s, DateAt(s, p).value) == t
  {
    DatePartsOf(s, p, t);
    DateAtParts(s, p, t);
  }

  /** The " - " between the two dates of a range. */
  predicate SepAt(s: string, e: nat) {
    e + 3 <= |s| && s[e] == ' ' && s[e + 1] == '-' && s[e + 2] == ' '
  }

  /** `[A-Za-z]+ \d+, \d+ - [A-Za-z]+ \d+, \d+` anchored at `p`: the two date matches. */
  function RangeAt(s: string, p: nat): (r: Option<(DateSpan, DateSpan)>)
    ensures r.Some? ==> r.value.0.start == p && SpanIn(s, r.value.0) && SepAt(s, r.value.0.end)
    ensures r.Some? ==> r.value.1.start == r.value.0.end + 3 && SpanIn(s, r.value.1)
  {
    var d1 := DateAt(s, p);
    if d1.None? || !SepAt(s, d1.value.end) then None
    else
      var d2 := DateAt(s, d1.value.end + 3);
      if d2.None? then None else Some((d1.value, d2.value))
  }

  /** The text of a captured range, "Aug 4, 2025 - Aug 6, 2025". */
  function RangeString(t1: DateText, t2: DateText): string {
    DateString(t1) + " - " + DateString(t2)
  }

  /** A written range is one line that ends with the second year's last digit. */
  lemma RangeStringLine(t1: DateText, t2: DateText)
    requires WellFormed(t1) && WellFormed(t2)
    ensures var r := RangeString(t1, t2); '\n' !in r && IsDigit(r[|r| - 1])
  {
    DateStringLine(t1);
    DateStringLine(t2);
  }

  lemma DateStringLine(t: DateText)
    requires WellFormed(t)
    ensures '\n' !in DateString(t)
  {
    assert forall i :: 0 <= i < |t.mon| ==> t.mon[i] != '\n';
    assert forall i :: 0 <= i < |t.day| ==> t.day[i] != '\n';
    assert forall i :: 0 <= i < |t.year| ==> t.year[i] != '\n';
  }

  /** What RangeAt matched is the text of the two dates it captured, joined by " - ". */
  lemma RangeAtText(s: string, p: nat)
    requires RangeAt(s, p).Some?
    ensures var (m1, m2) := RangeAt(s, p).value;
      s[p..m2.end] == RangeString(SpanText(s, m1), SpanText(s, m2))
  {
    var (m1, m2) := RangeAt(s, p).value;
    assert DateAt(s, p) == Some(m1) && DateAt(s, m1.end + 3) == Some(m2);
    DateAtText(s, p);
    DateAtText(s, m1.end + 3);
    RangeTextJoin(s, p, m1.end, m2.end, DateString(SpanText(s, m1)), DateString(SpanText(s, m2)));
  }

  lemma RangeTextJoin(s: string, p: nat, e1: nat, e2: nat, x: string, y: string)
    requires p <= e1 && e1 + 3 <= e2 <= |s|
    requires s[p..e1] == x && SepAt(s, e1) && s[e1 + 3..e2] == y
    ensures s[p..e2] == x + " - " + y
  {
    assert s[e1..e1 + 3] == " - ";
    SliceConcat(s, p, e1, e1 + 3);
    SliceConcat(s, p, e1 + 3, e2);
  }

  /** What RangeAt captures are two well-formed dates. */
  lemma RangeAtWellFormed(s: string, p: nat)
    requires RangeAt(s, p).Some?
    ensures WellFormed(SpanText(s, RangeAt(s, p).value.0)) && WellFormed(SpanText(s, RangeAt(s, p).value.1))
  {
    var e1 := DateAt(s, p).value.end;
    DateAtWellFormed(s, p);
    DateAtWellFormed(s, e1 + 3);
  }

  /** A written range splits into its two written dates and the separator between them. */
  lemma RangeStringParts(s: string, p: nat, t1: DateText, t2: DateText)
    requires LitAt(s, p, RangeString(t1, t2))
    ensures LitAt(s, p, DateString(t1)) && SepAt(s, p + |DateString(t1)|)
    ensures LitAt(s, p + |DateString(t1)| + 3, DateString(t2))
    ensures |RangeString(t1, t2)| == |DateString(t1)| + 3 + |DateString(t2)|
  {
    LitAtConcat(s, p, DateString(t1) + " - ", DateString(t2));
    LitAtConcat(s, p, DateString(t1), " - ");
    var e1 := p + |DateString(t1)|;
    assert s[e1] == s[e1..e1 + 3][0] && s[e1 + 1] == s[e1..e1 + 3][1] && s[e1 + 2] == s[e1..e1 + 3][2];
  }

  /** The runs DateAt looks for around a date match `m`. */
  predicate DateRunsAt(s: string, m: DateSpan) {
    && m.start < |s| && IsLetter(s[m.start]) && RunEnd(s, m.start, Letter) == m.monEnd
    && m.monEnd + 1 < |s| && s[m.monEnd] == ' ' && IsDigit(s[m.monEnd + 1])
    && RunEnd(s, m.monEnd + 1, Digit) == m.dayEnd
    && m.dayEnd + 2 < |s| && s[m.dayEnd] == ',' && s[m.dayEnd + 1] == ' ' && IsDigit(s[m.dayEnd + 2])
    && RunEnd(s, m.dayEnd + 2, Digit) == m.end
  }

  /** RangeAt accepts once both dates' runs and the separator are in place. */
  lemma RangeAtRuns(s: string, m1: DateSpan, m2: DateSpan)
    requires DateRunsAt(s, m1) && SepAt(s, m1.end) && m2.start == m1.end + 3 && DateRunsAt(s, m2)
    ensures RangeAt(s, m1.start) == Some((m1, m2))
  {
    DateAtIs(s, m1.start, m1.monEnd, m1.dayEnd, m1.end);
    DateAtIs(s, m2.start, m2.monEnd, m2.dayEnd, m2.end);
  }

  /** A written range is read back by RangeAt, when no digit follows it. */
  lemma RangeAtString(s: string, p: nat, t1: DateText, t2: DateText)
    requires WellFormed(t1) && WellFormed(t2) && LitAt(s, p, RangeString(t1, t2))
    requires p + |RangeString(t1, t2)| == |s| || !IsDigit(s[p + |RangeString(t1, t2)|])
    ensures RangeAt(s, p).Some? && RangeAt(s, p).value.1.end == p + |RangeString(t1, t2)|
    ensures SpanText(s, RangeAt(s, p).value.0) == t1 && SpanText(s, RangeAt(s, p).value.1) == t2
  {
    RangeStringParts(s, p, t1, t2);
    var e1 := p + |DateString(t1)|;
    assert !IsDigit(s[e1]);
    DateStringSpan(s, p, t1);
    DateStringSpan(s, e1 + 3, t2);
    RangeAtRuns(s, SpanOf(p, t1), SpanOf(e1 + 3, t2));
  }

  /** `([A-Za-z]+ \d+, \d+)\s*-\s*([A-Za-z]+ \d+, \d+)` anchored at `p`, as `extract_dates` uses it. */
  function LooseRangeAt(s: string, p: nat): (r: Option<(DateSpan, DateSpan)>)
    ensures r.Some? ==> r.value.0.start == p && SpanIn(s, r.value.0) && SpanIn(s, r.value.1)
  {
    var d1 := DateAt(s, p);
    if d1.None? then None
    else
      var w := RunEnd(s, d1.value.end, Space);
      if w < |s| && s[w] == '-' then
        var d2 := DateAt(s, RunEnd(s, w + 1, Space));
        if d2.None? then None else Some((d1.value, d2.value))
      else None
  }

  /** What the loose range pattern captures are two well-formed dates. */
  lemma LooseRangeAtWellFormed(s: string, p: nat)
    requires LooseRangeAt(s, p).Some?
    ensures WellFormed(SpanText(s, LooseRangeAt(s, p).value.0))
    ensures WellFormed(SpanText(s, LooseRangeAt(s, p).value.1))
  {
    var w := RunEnd(s, DateAt(s, p).value.end, Space);
    DateAtWellFormed(s, p);
    DateAtWellFormed(s, RunEnd(s, w + 1, Space));
  }

  lemma LooseRangeAtIs(s: string, p: nat, m1: DateSpan, w: nat, v: nat, m2: DateSpan)
    requires DateAt(s, p) == Some(m1) && RunEnd(s, m1.end, Space) == w && w < |s| && s[w] == '-'
    requires RunEnd(s, w + 1, Space) == v && DateAt(s, v) == Some(m2)
    ensures LooseRangeAt(s, p) == Some((m1, m2))
  {
  }

  /** `\s*-\s*` over the " - " of a strict range, before a letter: one space on each side. */
  lemma SpacedDash(s: string, e: nat)
    requires SepAt(s, e) && e + 3 < |s| && IsLetter(s[e + 3])
    ensures RunEnd(s, e, Space) == e + 1 && s[e + 1] == '-' && RunEnd(s, e + 2, Space) == e + 3
  {
    RunEndIs(s, e, e + 1, Space);
    RunEndIs(s, e + 2, e + 3, Space);
  }

  /** Wherever the strict range pattern matches, the loose one matches the same two dates. */
  lemma LooseRangeOfStrict(s: string, p: nat)
    requires RangeAt(s, p).Some?
    ensures LooseRangeAt(s, p) == RangeAt(s, p)
  {
    var (m1, m2) := RangeAt(s, p).value;
    assert DateAt(s, p) == Some(m1) && DateAt(s, m1.end + 3) == Some(m2);
    SpacedDash(s, m1.end);
    LooseRangeAtIs(s, p, m1, m1.end + 1, m1.end + 3, m2);
  }

  /**
   * `extract_dates`: the first date range in the text, both halves parsed; if either half
   * fails to parse, neither date is reported.
   */
  function ExtractDates(dateText: string): (r: (Option<Date>, Option<Date>))
    ensures r.0.Some? <==> r.1.Some?
    ensures r.0.Some? ==> ValidDate(r.0.value) && ValidDate(r.1.value)
  {
    if dateText == [] then (None, None)
    else
      var hit := Search((j: nat) => LooseRangeAt(dateText, j), 0, |dateText|);
      if hit.None? then (None, None)
      else
        LooseRangeAtWellFormed(dateText, hit.value.0);
        var d1 := Strptime(SpanText(dateText, hit.value.1.0));
        var d2 := Strptime(SpanText(dateText, hit.value.1.1));
        if d1.Some? && d2.Some? then (d1, d2) else (None, None)
  }

  /** When the range pattern matches at the very start, `extract_dates` parses what it captured. */
  lemma ExtractDatesAtStart(s: string, m1: DateSpan, m2: DateSpan, t1: DateText, t2: DateText)
    requires s != [] && LooseRangeAt(s, 0) == Some((m1, m2))
    requires WellFormed(t1) && WellFormed(t2) && SpanText(s, m1) == t1 && SpanText(s, m2) == t2
    ensures ExtractDates(s) ==
      (if Strptime(t1).Some? && Strptime(t2).Some? then (Strptime(t1), Strptime(t2)) else (None, None))
  {
    var at := (j: nat) => LooseRangeAt(s, j);
    assert at(0) == Some((m1, m2));
    assert Search(at, 0, |s|) == Some((0, (m1, m2)));
  }

  /** On a captured range, `extract_dates` parses exactly the two captured halves. */
  lemma ExtractDatesOfRange(t1: DateText, t2: DateText)
    requires WellFormed(t1) && WellFormed(t2)
    ensures ExtractDates(RangeString(t1, t2)) ==
      (if Strptime(t1).Some? && Strptime(t2).Some? then (Strptime(t1), Strptime(t2)) else (None, None))
  {
    var s := RangeString(t1, t2);
    assert LitAt(s, 0, s);
    RangeAtString(s, 0, t1, t2);
    LooseRangeOfStrict(s, 0);
    var (m1, m2) := RangeAt(s, 0).value;
    ExtractDatesAtStart(s, m1, m2, t1, t2);
  }

  // ------------------------------------------------------------ writing dates

  const MonthNames: seq<string> :=
    ["Jan", "Feb", "Mar", "Apr", "May", "Jun", "Jul", "Aug", "Sep", "Oct", "Nov", "Dec"]

  /** Four-digit year, as `%Y` writes it. */
  function Year4(y: nat): (r: string)
    requires y <= 9999
    ensures |r| == 4 && AllDigits(r)
  {
    Digits(y, 4)
  }

  /** A date as the listing page writes it: "Aug 4, 2025". */
  function FormatDate(d: Date): (t: DateText)
    requires ValidDate(d)
    ensures WellFormed(t)
  {
    DateText(MonthNames[d.month - 1], Show(d.day), Year4(d.year))
  }

  lemma MonthNamesRead(m: nat)
    requires 1 <= m <= 12
    ensures MonthNumber(MonthNames[m - 1]) == Some(m)
  {
    var tok := MonthNames[m - 1];
    forall k | 0 <= k < m - 1 ensures !FoldLitAt(tok, 0, MonthAbbrevs[k]) {
      assert Fold(tok[0]) != MonthAbbrevs[k][0] || Fold(tok[1]) != MonthAbbrevs[k][1]
          || Fold(tok[2]) != MonthAbbrevs[k][2];
    }
    assert FoldLitAt(tok, 0, MonthAbbrevs[m - 1]);
    MonthFromSkips(tok, 0, m - 1);
  }

  lemma {:induction false} MonthFromSkips(tok: string, k: nat, m: nat)
    requires k <= m < 12 && |tok| == 3
    requires forall j :: k <= j < m ==> !FoldLitAt(tok, 0, MonthAbbrevs[j])
    requires FoldLitAt(tok, 0, MonthAbbrevs[m])
    ensures MonthFrom(tok, k) == Some(m + 1)
    decreases m - k
  {
    if k < m { MonthFromSkips(tok, k + 1, m); }
  }

  lemma DayRead(d: nat)
    requires 1 <= d <= 31
    ensures DayNumber(Show(d)) == Some(d)
  {
    ValueShow(d);
    if d >= 10 {
      assert Show(d) == Show(d / 10) + [DigitChar(d % 10)];
      assert Show(d / 10) == [DigitChar(d / 10)];
    }
  }

  lemma YearRead(y: nat)
    requires y <= 9999
    ensures YearNumber(Year4(y)) == Some(y)
  {
    assert Pow10(4) == 10000;
    ValueDigits(y, 4);
  }

  /** `strptime` reads back what the page writes. */
  lemma {:induction false} StrptimeFormat(d: Date)
    requires ValidDate(d)
    ensures Strptime(FormatDate(d)) == Some(d)
  {
    MonthNamesRead(d.month);
    DayRead(d.day);
    YearRead(d.year);
  }

  /** Round trip: two written dates joined by " - " are both read back by `extract_dates`. */
  lemma ExtractDatesRoundTrip(d1: Date, d2: Date)
    requires ValidDate(d1) && ValidDate(d2)
    ensures ExtractDates(RangeString(FormatDate(d1), FormatDate(d2))) == (Some(d1), Some(d2))
  {
    StrptimeFormat(d1);
    StrptimeFormat(d2);
    ExtractDatesOfRange(FormatDate(d1), FormatDate(d2));
  }

  /** A full month name such as "August" is not `%b`: neither date is reported. */
  lemma ExtractDatesRejectsLongMonth(t1: DateText, t2: DateText)
    requires WellFormed(t1) && WellFormed(t2)
    requires |t1.mon| != 3 || |t2.mon| != 3
    ensures ExtractDates(RangeString(t1, t2)) == (None, None)
  {
    ExtractDatesOfRange(t1, t2);
  }

  /** A year that is not exactly four digits is not `%Y`: neither date is reported. */
  lemma ExtractDatesRejectsYearWidth(t1: DateText, t2: DateText)
    requires WellFormed(t1) && WellFormed(t2)
    requires |t1.year| != 4 || |t2.year| != 4
    ensures ExtractDates(RangeString(t1, t2)) == (None, None)
  {
    ExtractDatesOfRange(t1, t2);
  }

  /** A day the month does not have (Feb 30, Apr 31, Feb 29 of a common year) is not `%d` of it. */
  lemma StrptimeRejectsMissingDay(y: nat, m: nat, d: nat)
    requires 1 <= y <= 9999 && 1 <= m <= 12 && DaysInMonth(y, m) < d <= 31
    ensures Strptime(DateText(MonthNames[m - 1], Show(d), Year4(y))) == None
  {
    MonthNamesRead(m);
    DayRead(d);
    YearRead(y);
  }

  /** A range whose first date names a day its month does not have yields neither date. */
  lemma ExtractDatesRejectsMissingDay(y: nat, m: nat, d: nat, t2: DateText)
    requires 1 <= y <= 9999 && 1 <= m <= 12 && DaysInMonth(y, m) < d <= 31
    requires WellFormed(t2)
    ensures ExtractDates(RangeString(DateText(MonthNames[m - 1], Show(d), Year4(y)), t2)) == (None, None)
  {
    var t1 := DateText(MonthNames[m - 1], Show(d), Year4(y));
    StrptimeRejectsMissingDay(y, m, d);
    ExtractDatesOfRange(t1, t2);
  }
}
