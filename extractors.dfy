/**
 * The free-text field parsers of the scraper: `extract_price`, `extract_lot_size`,
 * `extract_subscription` and `extract_premium`. Each takes the text of one field and
 * returns Python's `None` (here `None`) when the text does not parse.
 */
module Extractors {
  import opened Wrappers
  import opened Chars
  import opened Text
  import opened Scan

  // ---------------------------------------------------------------- price

  /** `re.sub(r'[^\d\-\s]', '', price_text.strip())`. */
  function CleanPrice(priceText: string): (c: string)
    ensures forall m :: 0 <= m < |c| ==> InClass(c[m], DigitDashSpace)
  {
    Keep(Strip(priceText), DigitDashSpace)
  }

  /**
   * `extract_price`: a cleaned `a-b` gives `(a, b)`, a cleaned dash-free `n` gives `(n, n)`,
   * anything else `(None, None)`.
   */
  function ExtractPrice(priceText: string): (r: (Option<nat>, Option<nat>))
    ensures r.0.Some? <==> r.1.Some?
    ensures priceText == [] ==> r.0.None?
    ensures Count(CleanPrice(priceText), '-') >= 2 ==> r.0.None?
    ensures '-' !in CleanPrice(priceText) ==> r.0 == r.1
  {
    if priceText == [] then (None, None)
    else
      var c := CleanPrice(priceText);
      if '-' in c then
        var parts := Split(c, '-');
        if |parts| == 2 then
          var lo := IntOfDigits(Strip(parts[0]));
          var hi := IntOfDigits(Strip(parts[1]));
          if lo.Some? && hi.Some? then (lo, hi) else (None, None)
        else (None, None)
      else
        var n := IntOfDigits(Strip(c));
        if n.Some? then (n, n) else (None, None)
  }

  /** Digits and dashes that start and end with a digit pass the cleaning unchanged. */
  lemma CleanPriceSame(s: string)
    requires s != [] && IsDigit(s[0]) && IsDigit(s[|s| - 1])
    requires forall m :: 0 <= m < |s| ==> InClass(s[m], DigitOrDash)
    ensures CleanPrice(s) == s
  {
    StripSame(s);
    KeepAll(s, DigitDashSpace);
  }

  /** The text `x-y` for two numerals. */
  lemma DashedNumerals(x: string, y: string)
    requires x != [] && AllDigits(x) && y != [] && AllDigits(y)
    ensures var s := x + "-" + y;
      && IsDigit(s[0]) && IsDigit(s[|s| - 1]) && s[|x|] == '-'
      && forall m :: 0 <= m < |s| ==> InClass(s[m], DigitOrDash)
  {
    var s := x + "-" + y;
    forall m | 0 <= m < |s| ensures InClass(s[m], DigitOrDash) {
      if m < |x| { assert s[m] == x[m]; }
      else if m > |x| { assert s[m] == y[m - |x| - 1]; }
    }
  }

  /** A range `x-y` of two numerals reads back as `(x, y)`, in the order written. */
  lemma PriceRange(x: string, y: string)
    requires x != [] && AllDigits(x) && y != [] && AllDigits(y)
    ensures ExtractPrice(x + "-" + y) == (Some(Value(x)), Some(Value(y)))
  {
    var s := x + "-" + y;
    DashedNumerals(x, y);
    CleanPriceSame(s);
    DashSplit(x, y);
  }

  /** `x-y` splits at its dash into the two numerals, which `strip` leaves alone. */
  lemma DashSplit(x: string, y: string)
    requires x != [] && AllDigits(x) && y != [] && AllDigits(y)
    ensures '-' in x + "-" + y && |Split(x + "-" + y, '-')| == 2
    ensures Split(x + "-" + y, '-')[0] == x && Split(x + "-" + y, '-')[1] == y
    ensures Strip(x) == x && Strip(y) == y
  {
    assert (x + "-" + y)[|x|] == '-';
    DigitsNoSep(x, '-');
    DigitsNoSep(y, '-');
    SplitAtSep(x, y, '-');
    SplitNoSep(y, '-');
    StripDigits(x);
    StripDigits(y);
  }

  /** A single numeral `x` reads back as `(x, x)`. */
  lemma PriceSingle(x: string)
    requires x != [] && AllDigits(x)
    ensures ExtractPrice(x) == (Some(Value(x)), Some(Value(x)))
  {
    StripDigits(x);
    KeepAll(x, DigitDashSpace);
    DigitsNoSep(x, '-');
  }

  /** A range with a missing upper bound, `x-`, is rejected. */
  lemma PriceMissingUpper(x: string)
    requires x != [] && AllDigits(x)
    ensures ExtractPrice(x + "-") == (None, None)
  {
    var s := x + "-";
    StripSame(s);
    forall m | 0 <= m < |s| ensures InClass(s[m], DigitDashSpace) {
      if m < |x| { assert s[m] == x[m]; }
    }
    KeepAll(s, DigitDashSpace);
    assert s[|x|] == '-';
    DigitsNoSep(x, '-');
    SplitAtSep(x, [], '-');
    assert x + ['-'] + [] == s;
    assert Split([], '-') == [[]];
    assert Strip([]) == [];
  }

  // ------------------------------------------------------------- lot size

  /** `\d+` anchored at `j`: where the maximal digit run starting there ends. */
  function DigitRunAt(s: string, j: nat): (r: Option<nat>)
    ensures r.Some? ==> j < r.value <= |s| && AllDigits(s[j..r.value])
  {
    if j < |s| && IsDigit(s[j]) then
      RunEndSpec(s, j, Digit);
      var e := RunEnd(s, j, Digit);
      assert forall m :: 0 <= m < e - j ==> s[j..e][m] == s[j + m];
      Some(e)
    else None
  }

  /** The matcher `re.findall(r'\d+', s)` tries at each position. */
  function DigitRuns(s: string): nat -> Option<nat> {
    (j: nat) => DigitRunAt(s, j)
  }

  /** `extract_lot_size`: the value of the first digit run, `re.findall(r'\d+', t)[0]`. */
  function ExtractLotSize(lotText: string): (r: Option<nat>)
    ensures r.Some? <==> exists m :: 0 <= m < |lotText| && IsDigit(lotText[m])
  {
    if lotText == [] then None
    else
      var at := DigitRuns(lotText);
      var hit := Search(at, 0, |lotText|);
      if hit.None? then
        assert forall m :: 0 <= m < |lotText| ==> !IsDigit(lotText[m]) by {
          forall m | 0 <= m < |lotText| ensures !IsDigit(lotText[m]) {
            assert at(m).None?;
          }
        }
        None
      else
        Some(Value(lotText[hit.value.0..hit.value.1]))
  }

  /** The lot size is the first numeral of the text, e.g. 1200 in "Lot: 1200 Shares". */
  lemma LotSizeFirstNumeral(pre: string, x: string, post: string)
    requires x != [] && AllDigits(x)
    requires forall m :: 0 <= m < |pre| ==> !IsDigit(pre[m])
    requires post == [] || !IsDigit(post[0])
    ensures ExtractLotSize(pre + x + post) == Some(Value(x))
  {
    var s := pre + x + post;
    var at := DigitRuns(s);
    var p, e := |pre|, |pre| + |x|;
    forall m | 0 <= m < p ensures at(m).None? {
      assert s[m] == pre[m];
    }
    assert s[p..e] == x;
    LitAtRun(s, p, x, Digit);
    assert s[p] == x[0];
    assert at(p) == Some(e);
    SearchFirst(at, 0, |s|, p);
  }

  // --------------------------------------------------------- subscription

  /**
   * `([\d.]+)\s*times` anchored at `j`, ignoring case: the end of the captured number.
   * The greedy `[\d.]+` never gives characters back, because `\s*times` cannot start with
   * a digit or a dot, and `\s*` likewise stops only where `t` can start.
   */
  function TimesAt(s: string, j: nat): (r: Option<nat>)
    ensures r.Some? ==> j < r.value <= |s|
    ensures r.Some? ==> forall m :: j <= m < r.value ==> InClass(s[m], DigitOrDot)
  {
    if j < |s| && InClass(s[j], DigitOrDot) then
      var e := RunEnd(s, j, DigitOrDot);
      RunEndSpec(s, j, DigitOrDot);
      if FoldLitAt(s, RunEnd(s, e, Space), "times") then Some(e) else None
    else None
  }

  function TimesIn(s: string): nat -> Option<nat> {
    (j: nat) => TimesAt(s, j)
  }

  /**
   * `extract_subscription`: `float` of the number before the first "times"; a number
   * `float` refuses ("1.2.3") gives None, without trying a later match.
   */
  function ExtractSubscription(subText: string): (r: Option<real>)
    ensures r.Some? ==> r.value >= 0.0
    ensures r.Some? ==> exists j :: 0 <= j <= |subText| && TimesAt(subText, j).Some?
  {
    if subText == [] then None
    else
      var hit := Search(TimesIn(subText), 0, |subText|);
      if hit.None? then None
      else
        var j, e := hit.value.0, hit.value.1;
        SliceIn(subText, j, e, DigitOrDot);
        var num := subText[j..e];
        FloatNonNegative(num);
        FloatOf(num)
  }

  /** `([\d.]+)\s*times` matches at the start of a number followed by " times". */
  lemma TimesAtNumber(s: string, p: nat, num: string)
    requires num != [] && forall m :: 0 <= m < |num| ==> InClass(num[m], DigitOrDot)
    requires LitAt(s, p, num) && LitAt(s, p + |num|, " times")
    ensures TimesAt(s, p) == Some(p + |num|)
  {
    var e := p + |num|;
    LitAtRun(s, p, num, DigitOrDot);
    assert s[p] == s[p..e][0];
    LitAtConcat(s, e, " ", "times");
    assert s[e] == s[e..e + 1][0] && s[e + 1] == s[e + 1..e + 6][0];
    RunEndIs(s, e, e + 1, Space);
    LitFoldLitAt(s, e + 1, "times");
  }

  /**
   * The number right before " times" is what `extract_subscription` reads, when nothing
   * before it is a digit or a dot: "No of Apps: 930 | 2.53 times" is not of this shape,
   * but "Subscribed 2.53 times" is.
   */
  lemma SubscriptionReadsNumber(pre: string, num: string)
    requires forall m :: 0 <= m < |pre| ==> !InClass(pre[m], DigitOrDot)
    requires num != [] && forall m :: 0 <= m < |num| ==> InClass(num[m], DigitOrDot)
    ensures ExtractSubscription(pre + num + " times") == FloatOf(num)
  {
    var s := pre + num + " times";
    forall m | 0 <= m < |pre| ensures !InClass(s[m], DigitOrDot) {
      assert s[m] == pre[m];
    }
    LitAtConcat(s, 0, pre + num, " times");
    LitAtConcat(s, 0, pre, num);
    SubscriptionAt(s, |pre|, num);
  }

  /** The same on any text: a number at `p` followed by " times", no digit or dot before. */
  lemma SubscriptionAt(s: string, p: nat, num: string)
    requires p <= |s| && forall m :: 0 <= m < p ==> !InClass(s[m], DigitOrDot)
    requires num != [] && forall m :: 0 <= m < |num| ==> InClass(num[m], DigitOrDot)
    requires LitAt(s, p, num) && LitAt(s, p + |num|, " times")
    ensures ExtractSubscription(s) == FloatOf(num)
  {
    forall m | 0 <= m < p ensures TimesIn(s)(m).None? {
      assert TimesIn(s)(m) == TimesAt(s, m);
    }
    TimesAtNumber(s, p, num);
    assert TimesIn(s)(p) == TimesAt(s, p);
    SearchFirst(TimesIn(s), 0, |s|, p);
    SubscriptionFound(s, p, p + |num|);
  }

  /** What `extract_subscription` returns once the search has found its match. */
  lemma SubscriptionFound(t: string, j: nat, e: nat)
    requires t != [] && Search(TimesIn(t), 0, |t|) == Some((j, e))
    ensures j <= e <= |t| && forall m :: 0 <= m < e - j ==> InClass(t[j..e][m], DigitOrDot)
    ensures ExtractSubscription(t) == FloatOf(t[j..e])
  {
    SliceIn(t, j, e, DigitOrDot);
  }

  /** `float` reads `x.f` exactly. */
  lemma FloatOfDecimal(x: string, f: string)
    requires x != [] && AllDigits(x) && AllDigits(f)
    ensures forall m :: 0 <= m < |x + "." + f| ==> InClass((x + "." + f)[m], DigitOrDot)
    ensures FloatOf(x + "." + f) == Some(Decimal(x, f))
  {
    var t := x + "." + f;
    forall m | 0 <= m < |t| ensures InClass(t[m], DigitOrDot) {
      if m < |x| { assert t[m] == x[m]; }
      else if m > |x| { assert t[m] == f[m - |x| - 1]; }
    }
    DigitsNoSep(x, '.');
    DigitsNoSep(f, '.');
    SplitAtSep(x, f, '.');
    SplitNoSep(f, '.');
  }

  /** "2.53 times" reads as 2.53, exactly. */
  lemma SubscriptionDecimal(pre: string, x: string, f: string)
    requires forall m :: 0 <= m < |pre| ==> !InClass(pre[m], DigitOrDot)
    requires x != [] && AllDigits(x) && AllDigits(f)
    ensures ExtractSubscription(pre + (x + "." + f) + " times") == Some(Decimal(x, f))
  {
    FloatOfDecimal(x, f);
    SubscriptionReadsNumber(pre, x + "." + f);
  }

  /** A number with two dots, "1.2.3 times", is refused by `float` and gives None. */
  lemma SubscriptionTwoDots(pre: string, x: string, y: string, z: string)
    requires forall m :: 0 <= m < |pre| ==> !InClass(pre[m], DigitOrDot)
    requires AllDigits(x) && AllDigits(y) && AllDigits(z)
    ensures ExtractSubscription(pre + (x + "." + y + "." + z) + " times") == None
  {
    TwoDots(x, y, z);
    SubscriptionReadsNumber(pre, x + "." + y + "." + z);
  }

  lemma TwoDots(x: string, y: string, z: string)
    requires AllDigits(x) && AllDigits(y) && AllDigits(z)
    ensures var num := x + "." + y + "." + z;
      && (forall m :: 0 <= m < |num| ==> InClass(num[m], DigitOrDot))
      && FloatOf(num).None?
  {
    var num := x + "." + y + "." + z;
    forall m | 0 <= m < |num| ensures InClass(num[m], DigitOrDot) {
      if m < |x| { assert num[m] == x[m]; }
      else if |x| < m < |x| + 1 + |y| { assert num[m] == y[m - |x| - 1]; }
      else if m > |x| + 1 + |y| { assert num[m] == z[m - |x| - |y| - 2]; }
    }
    DigitsNoDot(x);
    DigitsNoDot(y);
    DigitsNoDot(z);
    CountConcat(x, ".", '.');
    CountConcat(x + ".", y, '.');
    CountConcat(x + "." + y, ".", '.');
    CountConcat(x + "." + y + ".", z, '.');
  }

  lemma FloatNonNegative(t: string)
    requires forall m :: 0 <= m < |t| ==> InClass(t[m], DigitOrDot)
    ensures FloatOf(t).Some? ==> FloatOf(t).value >= 0.0
  {
  }

  // -------------------------------------------------------------- premium

  /** Where the two groups of the premium pattern end: the range and the percentage. */
  datatype PremiumSpan = PremiumSpan(rangeEnd: nat, pctStart: nat, pctEnd: nat)

  /**
   * `([\d\-]+)\s*\((\d+\.?\d*)%\)` anchored at `j`. The greedy `[\d\-]+` and `\s*`
   * never give characters back (a shorter run would leave a digit, dash or space where
   * `(` is needed), and every way `\d+\.?\d*` can stop short leaves a digit or a dot
   * where `%` is needed, so the one candidate is the greedy one.
   */
  function PremiumAt(s: string, j: nat): (r: Option<PremiumSpan>)
    ensures r.Some? ==> j < r.value.rangeEnd < r.value.pctStart < r.value.pctEnd <= |s|
    ensures r.Some? ==> r.value.rangeEnd == RunEnd(s, j, DigitOrDash)
    ensures r.Some? ==> NumberAt(s, r.value.pctStart) == Some(r.value.pctEnd)
  {
    if j < |s| && InClass(s[j], DigitOrDash) then
      var e := RunEnd(s, j, DigitOrDash);
      var w := RunEnd(s, e, Space);
      var n := PercentAt(s, w);
      if n.Some? then Some(PremiumSpan(e, w + 1, n.value)) else None
    else None
  }

  /** `\((\d+\.?\d*)%\)` anchored at `w`: where the percentage group ends. */
  function PercentAt(s: string, w: nat): (r: Option<nat>)
    ensures r.Some? ==> w < |s| && s[w] == '(' && NumberAt(s, w + 1) == Some(r.value)
    ensures r.Some? ==> r.value + 1 < |s| && s[r.value] == '%' && s[r.value + 1] == ')'
  {
    if w < |s| && s[w] == '(' then
      var n := NumberAt(s, w + 1);
      if n.Some? && n.value + 1 < |s| && s[n.value] == '%' && s[n.value + 1] == ')' then Some(n.value)
      else None
    else None
  }

  /** Python's true division `(a + b) / 2` of two integers, read exactly. */
  function Average(a: nat, b: nat): (r: real)
    ensures r * 2.0 == (a + b) as real
  {
    (a + b) as real / 2.0
  }

  /**
   * The premium the `try` block of `extract_premium` reads from the first group: a range
   * `lo-hi` gives its average, a single value itself; anything `int` refuses gives None.
   */
  function PremiumValue(range: string): (r: Option<real>)
    requires forall m :: 0 <= m < |range| ==> InClass(range[m], DigitOrDash)
    ensures '-' !in range ==> (r.Some? <==> range != [])
  {
    if '-' in range then
      var parts := Split(range, '-');
      if |parts| == 2 then
        var lo := IntOfDigits(Strip(parts[0]));
        var hi := IntOfDigits(Strip(parts[1]));
        if lo.Some? && hi.Some? then Some(Average(lo.value, hi.value)) else None
      else None
    else
      NoDashDigits(range);
      var v := IntOfDigits(range);
      if v.Some? then Some(v.value as real) else None
  }

  /**
   * The `try` block of `extract_premium` on the two captured groups: the premium as
   * `PremiumValue` reads it and the percentage as `float` reads it, or neither when
   * either conversion raises `ValueError`.
   */
  function PremiumOfGroups(range: string, pct: string): (r: (Option<real>, Option<real>))
    requires forall m :: 0 <= m < |range| ==> InClass(range[m], DigitOrDash)
    requires forall m :: 0 <= m < |pct| ==> InClass(pct[m], DigitOrDot)
    ensures r.0.Some? <==> r.1.Some?
    ensures r.0.Some? <==> PremiumValue(range).Some? && FloatOf(pct).Some?
    ensures r.0.Some? ==> r.0 == PremiumValue(range) && r.1 == FloatOf(pct)
  {
    var p := FloatOf(pct);
    var v := PremiumValue(range);
    if p.Some? && v.Some? then (v, p) else (None, None)
  }

  function PremiumsIn(s: string): nat -> Option<PremiumSpan> {
    (j: nat) => PremiumAt(s, j)
  }

  /** `extract_premium`: nothing when the text says "N/A", else the first premium pattern. */
  function ExtractPremium(premiumText: string): (r: (Option<real>, Option<real>))
    ensures r.0.Some? <==> r.1.Some?
    ensures Contains(premiumText, "N/A") ==> r.0.None?
  {
    if premiumText == [] || Contains(premiumText, "N/A") then (None, None)
    else
      var hit := Search(PremiumsIn(premiumText), 0, |premiumText|);
      if hit.None? then (None, None)
      else
        var j, m := hit.value.0, hit.value.1;
        RunEndSpec(premiumText, j, DigitOrDash);
        SliceIn(premiumText, j, m.rangeEnd, DigitOrDash);
        SliceIn(premiumText, m.pctStart, m.pctEnd, DigitOrDot);
        var range, pct := premiumText[j..m.rangeEnd], premiumText[m.pctStart..m.pctEnd];
        PremiumOfGroups(range, pct)
  }

  /** The percentage group always reads: `\d+\.?\d*` is a number `float` accepts. */
  lemma PremiumPercentReads(s: string, j: nat)
    requires PremiumAt(s, j).Some?
    ensures var m := PremiumAt(s, j).value;
      && (forall k :: 0 <= k < m.pctEnd - m.pctStart ==> InClass(s[m.pctStart..m.pctEnd][k], DigitOrDot))
      && FloatOf(s[m.pctStart..m.pctEnd]).Some?
  {
    var m := PremiumAt(s, j).value;
    SliceIn(s, m.pctStart, m.pctEnd, DigitOrDot);
  }

  /** What `extract_premium` returns once the search has found its match. */
  lemma PremiumFound(t: string, j: nat, m: PremiumSpan)
    requires t != [] && !Contains(t, "N/A") && Search(PremiumsIn(t), 0, |t|) == Some((j, m))
    ensures j <= m.rangeEnd <= |t| && m.pctStart <= m.pctEnd <= |t|
    ensures forall k :: 0 <= k < m.rangeEnd - j ==> InClass(t[j..m.rangeEnd][k], DigitOrDash)
    ensures forall k :: 0 <= k < m.pctEnd - m.pctStart ==> InClass(t[m.pctStart..m.pctEnd][k], DigitOrDot)
    ensures ExtractPremium(t) == PremiumOfGroups(t[j..m.rangeEnd], t[m.pctStart..m.pctEnd])
  {
    RunEndSpec(t, j, DigitOrDash);
    SliceIn(t, j, m.rangeEnd, DigitOrDash);
    SliceIn(t, m.pctStart, m.pctEnd, DigitOrDot);
  }

  /** The text `range (x.f%)`, piece by piece. */
  lemma PremiumTextParts(range: string, num: string)
    requires range != [] && forall m :: 0 <= m < |range| ==> InClass(range[m], DigitOrDash)
    requires forall m :: 0 <= m < |num| ==> InClass(num[m], DigitOrDot)
    ensures var s := range + " (" + num + "%)"; var q := |range| + 2;
      && LitAt(s, 0, range) && s[|range|] == ' ' && s[|range| + 1] == '('
      && LitAt(s, q, num) && s[q + |num|] == '%' && s[q + |num| + 1] == ')' && |s| == q + |num| + 2
      && 'N' !in s
  {
    var s := range + " (" + num + "%)";
    var q := |range| + 2;
    assert s[..|range|] == range;
    assert s[q..q + |num|] == num;
    forall m | 0 <= m < |s| ensures s[m] != 'N' {
      if m < |range| { assert s[m] == range[m]; }
      else if q <= m < q + |num| { assert s[m] == num[m - q]; }
    }
  }

  /** The premium pattern matches at 0 over `range (x.f%)` laid out in `s`. */
  lemma PremiumAtParts(s: string, range: string, x: string, f: string)
    requires range != [] && forall m :: 0 <= m < |range| ==> InClass(range[m], DigitOrDash)
    requires x != [] && AllDigits(x) && AllDigits(f)
    requires |s| == |range| + 2 + |x + "." + f| + 2
    requires LitAt(s, 0, range) && s[|range|] == ' ' && s[|range| + 1] == '('
    requires LitAt(s, |range| + 2, x + "." + f)
    requires s[|range| + 2 + |x + "." + f|] == '%' && s[|range| + 2 + |x + "." + f| + 1] == ')'
    ensures PremiumAt(s, 0) == Some(PremiumSpan(|range|, |range| + 2, |range| + 2 + |x + "." + f|))
  {
    var r := |range|;
    LitAtRun(s, 0, range, DigitOrDash);
    assert s[0] == s[0..r][0];
    RunEndIs(s, r, r + 1, Space);
    NumberAtDecimal(s, r + 2, x, f);
    PremiumAtIs(s, 0, r, r + 1, r + 2 + |x + "." + f|);
  }

  /** PremiumAt accepts once its runs and its number are known. */
  lemma PremiumAtIs(s: string, j: nat, e: nat, w: nat, n: nat)
    requires j < |s| && InClass(s[j], DigitOrDash) && RunEnd(s, j, DigitOrDash) == e
    requires RunEnd(s, e, Space) == w && w < |s| && s[w] == '('
    requires NumberAt(s, w + 1) == Some(n) && n + 1 < |s| && s[n] == '%' && s[n + 1] == ')'
    ensures PremiumAt(s, j) == Some(PremiumSpan(e, w + 1, n))
  {
    assert PercentAt(s, w) == Some(n);
  }

  /** On `range (x.f%)`, `extract_premium` reads the two groups as written. */
  lemma PremiumReads(range: string, x: string, f: string)
    requires range != [] && forall m :: 0 <= m < |range| ==> InClass(range[m], DigitOrDash)
    requires x != [] && AllDigits(x) && AllDigits(f)
    ensures forall m :: 0 <= m < |x + "." + f| ==> InClass((x + "." + f)[m], DigitOrDot)
    ensures ExtractPremium(range + " (" + (x + "." + f) + "%)") == PremiumOfGroups(range, x + "." + f)
  {
    var num := x + "." + f;
    FloatOfDecimal(x, f);
    var s := range + " (" + num + "%)";
    var m := PremiumSpan(|range|, |range| + 2, |range| + 2 + |num|);
    PremiumTextParts(range, num);
    PremiumAtParts(s, range, x, f);
    SearchFirst(PremiumsIn(s), 0, |s|, 0);
    NoNA(s, "N/A");
    PremiumFound(s, 0, m);
    assert s[0..m.rangeEnd] == range;
    assert s[m.pctStart..m.pctEnd] == num;
  }

  /** "24-25 (32.5%)" gives the average 24.5 and the percentage 32.5. */
  lemma PremiumRangeReads(lo: string, hi: string, x: string, f: string)
    requires lo != [] && AllDigits(lo) && hi != [] && AllDigits(hi)
    requires x != [] && AllDigits(x) && AllDigits(f)
    ensures ExtractPremium((lo + "-" + hi) + " (" + (x + "." + f) + "%)")
      == (Some((Value(lo) + Value(hi)) as real / 2.0), Some(Decimal(x, f)))
  {
    var range, num := lo + "-" + hi, x + "." + f;
    FloatOfDecimal(x, f);
    PremiumGroupsRange(lo, hi, num);
    PremiumReads(range, x, f);
  }

  /** "15 (2.9%)" gives 15 and 2.9. */
  lemma PremiumSingleReads(v: string, x: string, f: string)
    requires v != [] && AllDigits(v)
    requires x != [] && AllDigits(x) && AllDigits(f)
    ensures ExtractPremium(v + " (" + (x + "." + f) + "%)") == (Some(Value(v) as real), Some(Decimal(x, f)))
  {
    FloatOfDecimal(x, f);
    PremiumGroupsSingle(v, x + "." + f);
    PremiumReads(v, x, f);
  }

  /** A range `lo-hi` with a readable percentage gives the average and the percentage. */
  lemma PremiumGroupsRange(lo: string, hi: string, pct: string)
    requires lo != [] && AllDigits(lo) && hi != [] && AllDigits(hi)
    requires forall m :: 0 <= m < |pct| ==> InClass(pct[m], DigitOrDot)
    requires FloatOf(pct).Some?
    ensures forall m :: 0 <= m < |lo + "-" + hi| ==> InClass((lo + "-" + hi)[m], DigitOrDash)
    ensures PremiumOfGroups(lo + "-" + hi, pct) ==
      (Some((Value(lo) + Value(hi)) as real / 2.0), FloatOf(pct))
  {
    DashedNumerals(lo, hi);
    DashSplit(lo, hi);
    PremiumValueOfSplit(lo + "-" + hi, lo, hi);
  }

  /** A range that splits at its one dash into two numerals gives their average. */
  lemma PremiumValueOfSplit(range: string, lo: string, hi: string)
    requires forall m :: 0 <= m < |range| ==> InClass(range[m], DigitOrDash)
    requires '-' in range && |Split(range, '-')| == 2
    requires Split(range, '-')[0] == lo && Split(range, '-')[1] == hi
    requires lo != [] && AllDigits(lo) && Strip(lo) == lo && hi != [] && AllDigits(hi) && Strip(hi) == hi
    ensures PremiumValue(range) == Some(Average(Value(lo), Value(hi)))
  {
    var parts := Split(range, '-');
    assert IntOfDigits(Strip(parts[0])) == Some(Value(lo));
    assert IntOfDigits(Strip(parts[1])) == Some(Value(hi));
  }

  /** A single value `v` with a readable percentage gives `v` and the percentage. */
  lemma PremiumGroupsSingle(v: string, pct: string)
    requires v != [] && AllDigits(v)
    requires forall m :: 0 <= m < |pct| ==> InClass(pct[m], DigitOrDot)
    requires FloatOf(pct).Some?
    ensures forall m :: 0 <= m < |v| ==> InClass(v[m], DigitOrDash)
    ensures PremiumOfGroups(v, pct) == (Some(Value(v) as real), FloatOf(pct))
  {
    DigitsNoSep(v, '-');
  }

  /** A leading dash, "-5 (3%)", leaves an empty lower part that `int` refuses. */
  lemma PremiumGroupsLeadingDash(v: string, pct: string)
    requires v != [] && AllDigits(v)
    requires forall m :: 0 <= m < |pct| ==> InClass(pct[m], DigitOrDot)
    ensures forall m :: 0 <= m < |"-" + v| ==> InClass(("-" + v)[m], DigitOrDash)
    ensures PremiumOfGroups("-" + v, pct) == (None, None)
  {
    var range := "-" + v;
    forall m | 0 <= m < |range| ensures InClass(range[m], DigitOrDash) {
      if m > 0 { assert range[m] == v[m - 1]; }
    }
    assert range[0] == '-';
    DigitsNoSep(v, '-');
    SplitAtSep([], v, '-');
    assert [] + ['-'] + v == range;
    SplitNoSep(v, '-');
    assert Strip([]) == [];
    assert PremiumValue(range).None?;
  }

  lemma NoDashDigits(t: string)
    requires forall m :: 0 <= m < |t| ==> InClass(t[m], DigitOrDash)
    requires '-' !in t
    ensures AllDigits(t)
  {
    forall m | 0 <= m < |t| ensures IsDigit(t[m]) {
      assert t[m] in t;
    }
  }

  /** What the first anchored match `p` of a search gives, when nothing before `p` matches. */
  lemma SearchFirst<T>(at: nat -> Option<T>, i: nat, n: nat, p: nat)
    requires i <= p <= n && at(p).Some?
    requires forall j :: i <= j < p ==> at(j).None?
    ensures Search(at, i, n) == Some((p, at(p).value))
    decreases p - i
  {
    if i < p { SearchFirst(at, i + 1, n, p); }
  }

  lemma DigitsNoSep(x: string, c: char)
    requires AllDigits(x) && !IsDigit(c)
    ensures c !in x
  {
  }
}
