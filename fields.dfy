/**
 * The field patterns of `parse_single_ipo_block` other than the company name: offer
 * dates, offer price, lot size, subscription and expected premium. Each is a literal
 * label followed by digits (or a date range), searched for in the stripped block text.
 */
module Fields {
  import opened Wrappers
  import opened Chars
  import opened Text
  import opened Scan
  import opened Dates
  import opened Extractors

  // ---------------------------------------------------------------- dates

  /**
   * `Offer Date:\s*([A-Za-z]+ \d+, \d+ - [A-Za-z]+ \d+, \d+)` anchored at `j`, case-sensitive:
   * the group's span. `\s*` never gives back whitespace, as the range starts with a letter.
   */
  function OfferDateAt(s: string, j: nat): (r: Option<(nat, nat)>)
    ensures r.Some? ==> j + 11 <= r.value.0 < r.value.1 <= |s|
    ensures r.Some? ==> RangeAt(s, r.value.0).Some? && RangeAt(s, r.value.0).value.1.end == r.value.1
  {
    if LitAt(s, j, "Offer Date:") then
      var g := RunEnd(s, j + 11, Space);
      var range := RangeAt(s, g);
      if range.Some? then Some((g, range.value.1.end)) else None
    else None
  }

  /** The first `Offer Date:` match: the span of the captured range. */
  function OfferDateMatch(s: string): (r: Option<(nat, nat)>)
    ensures r.Some? ==> r.value.0 < r.value.1 <= |s|
    ensures r.Some? ==> RangeAt(s, r.value.0).Some? && RangeAt(s, r.value.0).value.1.end == r.value.1
  {
    var hit := Search((j: nat) => OfferDateAt(s, j), 0, |s|);
    if hit.None? then None else Some(hit.value.1)
  }

  /** The two offer dates: `extract_dates` of the first captured range, else neither. */
  function OfferDates(s: string): (r: (Option<Date>, Option<Date>))
    ensures r.0.Some? <==> r.1.Some?
  {
    var m := OfferDateMatch(s);
    if m.None? then (None, None) else ExtractDates(s[m.value.0..m.value.1])
  }

  // ---------------------------------------------------------------- price

  /** A match of `\d+(?:-\d+)?`: the first numeral is `s[start..lowEnd]`, and the whole `s[start..end]`. */
  datatype NumberSpan = NumberSpan(start: nat, lowEnd: nat, end: nat)

  /** The shape of such a match: digits, then either nothing or a dash and more digits. */
  predicate DashedSpan(s: string, n: NumberSpan) {
    && n.start < n.lowEnd <= n.end <= |s|
    && AllIn(s, n.start, n.lowEnd, Digit)
    && (n.end == n.lowEnd || (n.lowEnd + 1 < n.end && s[n.lowEnd] == '-' && AllIn(s, n.lowEnd + 1, n.end, Digit)))
  }

  /**
   * `\d+(?:-\d+)?` anchored at `p`: the digit run, extended by `-` and a second digit run
   * when a dash and a digit follow it.
   */
  function DashedNumberAt(s: string, p: nat): (r: Option<NumberSpan>)
    ensures r.Some? ==> r.value.start == p && DashedSpan(s, r.value)
    ensures r.Some? <==> p < |s| && IsDigit(s[p])
  {
    if p < |s| && IsDigit(s[p]) then
      var d := RunEnd(s, p, Digit);
      RunEndSpec(s, p, Digit);
      if d + 1 < |s| && s[d] == '-' && IsDigit(s[d + 1]) then
        RunEndSpec(s, d + 1, Digit);
        Some(NumberSpan(p, d, RunEnd(s, d + 1, Digit)))
      else Some(NumberSpan(p, d, d))
    else None
  }

  /** `Offer Price(\d+(?:-\d+)?)` anchored at `j`, case-sensitive and with nothing between. */
  function OfferPriceAt(s: string, j: nat): (r: Option<NumberSpan>)
    ensures r.Some? ==> DashedSpan(s, r.value)
  {
    if LitAt(s, j, "Offer Price") then DashedNumberAt(s, j + 11) else None
  }

  function OfferPriceMatch(s: string): (r: Option<NumberSpan>)
    ensures r.Some? ==> DashedSpan(s, r.value)
  {
    var hit := Search((j: nat) => OfferPriceAt(s, j), 0, |s|);
    if hit.None? then None else Some(hit.value.1)
  }

  /** What `extract_price` returns for the price group, or neither value without a match. */
  function OfferPrice(s: string): (r: (Option<nat>, Option<nat>))
    ensures r.0.Some? <==> r.1.Some?
  {
    var m := OfferPriceMatch(s);
    if m.None? then (None, None) else ExtractPrice(s[m.value.start..m.value.end])
  }

  /** The first and the last numeral of a match (the same one when there is no dash). */
  function Low(s: string, n: NumberSpan): nat
    requires DashedSpan(s, n)
  {
    Value(s[n.start..n.lowEnd])
  }

  function High(s: string, n: NumberSpan): nat
    requires DashedSpan(s, n)
  {
    if n.end == n.lowEnd then Low(s, n) else Value(s[n.lowEnd + 1..n.end])
  }

  /** The pieces of a match, as strings. */
  lemma DashedPieces(s: string, n: NumberSpan)
    requires DashedSpan(s, n)
    ensures var x := s[n.start..n.lowEnd]; x != [] && AllDigits(x)
    ensures n.end == n.lowEnd ==> s[n.start..n.end] == s[n.start..n.lowEnd]
    ensures n.end > n.lowEnd ==> var y := s[n.lowEnd + 1..n.end];
      && y != [] && AllDigits(y) && s[n.start..n.end] == s[n.start..n.lowEnd] + "-" + y
  {
    var x := s[n.start..n.lowEnd];
    assert forall m :: 0 <= m < |x| ==> x[m] == s[n.start + m];
    if n.end > n.lowEnd {
      var y := s[n.lowEnd + 1..n.end];
      assert forall m :: 0 <= m < |y| ==> y[m] == s[n.lowEnd + 1 + m];
      assert s[n.start..n.end] == x + [s[n.lowEnd]] + y;
    }
  }

  /** `extract_price` reads a price group as its two numerals, in the order written. */
  lemma PriceOfSpan(s: string, n: NumberSpan)
    requires DashedSpan(s, n)
    ensures ExtractPrice(s[n.start..n.end]) == (Some(Low(s, n)), Some(High(s, n)))
  {
    if n.end == n.lowEnd {
      PriceOfSingleSpan(s, n);
    } else {
      PriceOfRangeSpan(s, n);
    }
  }

  lemma PriceOfSingleSpan(s: string, n: NumberSpan)
    requires DashedSpan(s, n) && n.end == n.lowEnd
    ensures ExtractPrice(s[n.start..n.end]) == (Some(Low(s, n)), Some(High(s, n)))
  {
    DashedPieces(s, n);
    PriceSingle(s[n.start..n.lowEnd]);
  }

  lemma PriceOfRangeSpan(s: string, n: NumberSpan)
    requires DashedSpan(s, n) && n.end > n.lowEnd
    ensures ExtractPrice(s[n.start..n.end]) == (Some(Low(s, n)), Some(High(s, n)))
  {
    var x, y := s[n.start..n.lowEnd], s[n.lowEnd + 1..n.end];
    assert Low(s, n) == Value(x) && High(s, n) == Value(y);
    DashedPieces(s, n);
    PriceOfRange(s[n.start..n.end], x, y);
  }

  lemma PriceOfRange(t: string, x: string, y: string)
    requires x != [] && AllDigits(x) && y != [] && AllDigits(y) && t == x + "-" + y
    ensures ExtractPrice(t) == (Some(Value(x)), Some(Value(y)))
  {
    PriceRange(x, y);
  }

  /** The price found in a block is the matched numerals: no dash gives the same value twice. */
  lemma OfferPriceReads(s: string)
    ensures OfferPriceMatch(s).None? ==> OfferPrice(s) == (None, None)
    ensures OfferPriceMatch(s).Some? ==> var n := OfferPriceMatch(s).value;
      OfferPrice(s) == (Some(Low(s, n)), Some(High(s, n)))
  {
    if OfferPriceMatch(s).Some? {
      PriceOfSpan(s, OfferPriceMatch(s).value);
    }
  }

  // ------------------------------------------------------------- lot size

  /** `Lot Size(\d+)` anchored at `j`, case-sensitive: the group's span. */
  function LotSizeAt(s: string, j: nat): (r: Option<(nat, nat)>)
    ensures r.Some? ==> r.value.0 < r.value.1 <= |s| && AllDigits(s[r.value.0..r.value.1])
  {
    if LitAt(s, j, "Lot Size") then
      var e := DigitRunAt(s, j + 8);
      if e.Some? then Some((j + 8, e.value)) else None
    else None
  }

  /** The first `Lot Size(\d+)` match: the group's span. */
  function LotSizeMatch(s: string): (r: Option<(nat, nat)>)
    ensures r.Some? ==> r.value.0 < r.value.1 <= |s| && AllDigits(s[r.value.0..r.value.1])
  {
    var hit := Search((j: nat) => LotSizeAt(s, j), 0, |s|);
    if hit.None? then None else Some(hit.value.1)
  }

  /**
   * `int` of the lot-size group, `None` when there is no match or `int` raises. It never
   * raises: the group is a non-empty digit run, so a match always gives its value.
   */
  function LotSize(s: string): (r: Option<nat>)
    ensures r.Some? <==> LotSizeMatch(s).Some?
    ensures r.Some? ==> var m := LotSizeMatch(s).value; r.value == Value(s[m.0..m.1])
  {
    var m := LotSizeMatch(s);
    if m.None? then None else IntOfDigits(s[m.value.0..m.value.1])
  }

  // --------------------------------------------------------- subscription

  /**
   * `(\d+\.?\d*)\s*times` anchored at `j`, ignoring case: where the number ends. A shorter
   * number would leave a digit or a dot where `\s*times` must start, so only the greedy
   * one can match.
   */
  function BareTimesAt(s: string, j: nat): (r: Option<nat>)
    ensures r.Some? ==> NumberAt(s, j) == r
  {
    var n := NumberAt(s, j);
    if n.Some? && FoldLitAt(s, RunEnd(s, n.value, Space), "times") then n else None
  }

  /**
   * `No of Apps:[^|]*\|\s*(\d+\.?\d*)\s*times` anchored at `j`, ignoring case: the group's
   * span. `[^|]*` cannot pass a bar and `\s*` must stop at a digit, so both are greedy.
   */
  function AppsTimesAt(s: string, j: nat): (r: Option<(nat, nat)>)
    ensures r.Some? ==> BareTimesAt(s, r.value.0) == Some(r.value.1)
  {
    if FoldLitAt(s, j, "no of apps:") then
      var b := RunEnd(s, j + 11, NotBar);
      if b < |s| && s[b] == '|' then
        var c := RunEnd(s, b + 1, Space);
        var e := BareTimesAt(s, c);
        if e.Some? then Some((c, e.value)) else None
      else None
    else None
  }

  /** Subscription pattern `k` of `sub_patterns` anchored at `j`: the group's span. */
  function TimesPatternAt(k: nat, s: string, j: nat): (r: Option<(nat, nat)>)
    ensures r.Some? ==> NumberAt(s, r.value.0) == Some(r.value.1)
  {
    if k == 0 then
      var e := BareTimesAt(s, j);
      if e.Some? then Some((j, e.value)) else None
    else AppsTimesAt(s, j)
  }

  /** `re.search(sub_patterns[k], s, re.IGNORECASE)`: the group's span. */
  function TimesMatch(k: nat, s: string): (r: Option<(nat, nat)>)
    ensures r.Some? ==> NumberAt(s, r.value.0) == Some(r.value.1)
  {
    var hit := Search((j: nat) => TimesPatternAt(k, s, j), 0, |s|);
    if hit.None? then None else Some(hit.value.1)
  }

  /** `float` of the number `\d+\.?\d*` at `s[g..e]`, which never raises. */
  function NumberValue(s: string, g: nat, e: nat): (r: Option<real>)
    requires NumberAt(s, g) == Some(e)
    ensures r.Some?
  {
    SliceIn(s, g, e, DigitOrDot);
    FloatOf(s[g..e])
  }

  /** The `for` loop over `sub_patterns` from `k` on: `break` on a value, `continue` on ValueError. */
  function SubscriptionFrom(s: string, k: nat): Option<real>
    decreases 2 - k
  {
    if k >= 2 then None
    else
      var m := TimesMatch(k, s);
      if m.Some? && NumberValue(s, m.value.0, m.value.1).Some? then NumberValue(s, m.value.0, m.value.1)
      else SubscriptionFrom(s, k + 1)
  }

  /** Wherever the "No of Apps" pattern matches, the bare pattern matches at its number. */
  lemma AppsImpliesBare(s: string)
    requires TimesMatch(1, s).Some?
    ensures TimesMatch(0, s).Some?
  {
    var (c, e) := TimesMatch(1, s).value;
    var at := (j: nat) => TimesPatternAt(0, s, j);
    assert at(c).Some?;
  }

  /**
   * The "No of Apps" fallback never decides: the subscription is the value of the first
   * bare `<number> times`, and nothing when there is none.
   */
  lemma SubscriptionIsBare(s: string)
    ensures TimesMatch(0, s).None? ==> SubscriptionFrom(s, 0).None?
    ensures TimesMatch(0, s).Some? ==>
      SubscriptionFrom(s, 0) == NumberValue(s, TimesMatch(0, s).value.0, TimesMatch(0, s).value.1)
  {
    if TimesMatch(0, s).None? {
      if TimesMatch(1, s).Some? { AppsImpliesBare(s); }
      assert SubscriptionFrom(s, 1).None?;
    }
  }

  // -------------------------------------------------------------- premium

  /** A match of the premium pattern: the range group and the percentage group's span. */
  datatype PremiumMatch = PremiumMatch(range: NumberSpan, pctStart: nat, pctEnd: nat)

  /**
   * `Exp\. Premium(\d+(?:-\d+)?)[^(]*\((\d+\.?\d*)%\)` anchored at `j`. The gap `[^(]*`
   * reaches the first `(` after the range wherever the range ends, so a shorter range
   * never helps and the greedy one is the match; `\d+\.?\d*` is greedy for the same
   * reason as in `PercentAt`.
   */
  function ExpPremiumAt(s: string, j: nat): (r: Option<PremiumMatch>)
    ensures r.Some? ==> DashedSpan(s, r.value.range) && NumberAt(s, r.value.pctStart) == Some(r.value.pctEnd)
  {
    if LitAt(s, j, "Exp. Premium") then
      var g := DashedNumberAt(s, j + 12);
      if g.Some? then
        var q := RunEnd(s, g.value.end, NotOpenParen);
        var n := PercentAt(s, q);
        if n.Some? then Some(PremiumMatch(g.value, q + 1, n.value)) else None
      else None
    else None
  }

  function ExpPremiumMatch(s: string): (r: Option<PremiumMatch>)
    ensures r.Some? ==> DashedSpan(s, r.value.range) && NumberAt(s, r.value.pctStart) == Some(r.value.pctEnd)
  {
    var hit := Search((j: nat) => ExpPremiumAt(s, j), 0, |s|);
    if hit.None? then None else Some(hit.value.1)
  }

  /**
   * The `try` block on the two groups: the percentage by `float`; the premium the average
   * of `int` of the two sides of a dash, or `int` of the whole; on ValueError, neither.
   */
  function PremiumOfMatch(range: string, pct: string): (r: (Option<real>, Option<real>))
    requires forall m :: 0 <= m < |pct| ==> InClass(pct[m], DigitOrDot)
    ensures r.0.Some? <==> r.1.Some?
    ensures r.1.Some? ==> r.1 == FloatOf(pct)
  {
    var p := FloatOf(pct);
    if p.None? then (None, None)
    else if '-' in range then
      var parts := Split(range, '-');
      var lo := IntOfDigits(parts[0]);
      var hi := IntOfDigits(parts[1]);
      if lo.Some? && hi.Some? then (Some(Average(lo.value, hi.value)), p) else (None, None)
    else
      var v := IntOfDigits(range);
      if v.Some? then (Some(v.value as real), p) else (None, None)
  }

  /** The expected premium and its percentage, or neither. */
  function ExpPremium(s: string): (r: (Option<real>, Option<real>))
    ensures r.0.Some? <==> r.1.Some?
  {
    var m := ExpPremiumMatch(s);
    if m.None? then (None, None)
    else
      SliceIn(s, m.value.pctStart, m.value.pctEnd, DigitOrDot);
      PremiumOfMatch(s[m.value.range.start..m.value.range.end], s[m.value.pctStart..m.value.pctEnd])
  }

  /** A one-numeral range is read as that numeral. */
  lemma PremiumOfSingle(x: string, pct: string)
    requires x != [] && AllDigits(x)
    requires forall m :: 0 <= m < |pct| ==> InClass(pct[m], DigitOrDot)
    requires FloatOf(pct).Some?
    ensures PremiumOfMatch(x, pct) == (Some(Value(x) as real), FloatOf(pct))
  {
    DigitsNoSep(x, '-');
  }

  /** A range `x-y` is read as the average of its two numerals. */
  lemma PremiumOfRange(x: string, y: string, pct: string)
    requires x != [] && AllDigits(x) && y != [] && AllDigits(y)
    requires forall m :: 0 <= m < |pct| ==> InClass(pct[m], DigitOrDot)
    requires FloatOf(pct).Some?
    ensures PremiumOfMatch(x + "-" + y, pct) == (Some(Average(Value(x), Value(y))), FloatOf(pct))
  {
    DashSplit(x, y);
  }

  /** The premium a range group stands for: its average, or the single numeral. */
  function RangeValue(s: string, n: NumberSpan): real
    requires DashedSpan(s, n)
  {
    if n.end == n.lowEnd then Low(s, n) as real else Average(Low(s, n), High(s, n))
  }

  /** The `try` block reads a matched range group as `RangeValue`. */
  lemma PremiumOfSpan(s: string, n: NumberSpan, pct: string)
    requires DashedSpan(s, n)
    requires forall m :: 0 <= m < |pct| ==> InClass(pct[m], DigitOrDot)
    requires FloatOf(pct).Some?
    ensures PremiumOfMatch(s[n.start..n.end], pct) == (Some(RangeValue(s, n)), FloatOf(pct))
  {
    DashedPieces(s, n);
    if n.end == n.lowEnd {
      PremiumOfSingle(s[n.start..n.lowEnd], pct);
    } else {
      PremiumOfRange(s[n.start..n.lowEnd], s[n.lowEnd + 1..n.end], pct);
    }
  }

  /**
   * A matched premium always reads: the percentage is the parenthesised number, and the
   * premium is the average of a range or the single value.
   */
  lemma ExpPremiumReads(s: string)
    requires ExpPremiumMatch(s).Some?
    ensures var m := ExpPremiumMatch(s).value;
      && NumberValue(s, m.pctStart, m.pctEnd).Some?
      && ExpPremium(s) == (Some(RangeValue(s, m.range)), NumberValue(s, m.pctStart, m.pctEnd))
  {
    var m := ExpPremiumMatch(s).value;
    SliceIn(s, m.pctStart, m.pctEnd, DigitOrDot);
    var pct := s[m.pctStart..m.pctEnd];
    assert FloatOf(pct) == NumberValue(s, m.pctStart, m.pctEnd);
    PremiumOfSpan(s, m.range, pct);
  }
}
