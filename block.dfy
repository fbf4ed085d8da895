/**
 * `parse_single_ipo_block`: one block of page text becomes an IPO record, or nothing when
 * the block lacks a (truthy) minimum offer price or lot size. The method starts from the
 * default record and overwrites it field by field, as the source overwrites its dict;
 * `ParseBlock` is the same result stated as one expression, and the lemmas below say what
 * an accepted record holds.
 */
module BlockParser {
  import opened Wrappers
  import opened Chars
  import opened Text
  import opened Dates
  import opened Extractors
  import opened Names
  import opened Fields

  /**
   * The dict `parse_single_ipo_block` fills. `investmentPerLot` is the key `parse_ipo_data`
   * adds afterwards; a freshly parsed record does not have it yet.
   */
  datatype IpoRecord = IpoRecord(
    companyName: string,
    offerPriceMin: Option<nat>,
    offerPriceMax: Option<nat>,
    lotSize: Option<nat>,
    subscriptionTimes: Option<real>,
    expectedPremium: Option<real>,
    premiumPercentage: Option<real>,
    offerStartDate: Option<Date>,
    offerEndDate: Option<Date>,
    ipoType: string,
    investmentPerLot: Option<nat>)

  const CurrentType: string := "Current"

  /** The record every block starts from: no values, the sentinel name, type "Current". */
  const Blank: IpoRecord :=
    IpoRecord(Sentinel, None, None, None, None, None, None, None, None, CurrentType, None)

  /** Python truthiness of an optional integer: present and non-zero. */
  predicate Truthy(v: Option<nat>) {
    v.Some? && v.value != 0
  }

  /** The test a record must pass to be returned: a truthy minimum price and lot size. */
  predicate Gated(rec: IpoRecord) {
    Truthy(rec.offerPriceMin) && Truthy(rec.lotSize)
  }

  /** The price fields are written only when `extract_price` gives a truthy minimum. */
  function PriceFields(s: string): (r: (Option<nat>, Option<nat>))
    ensures r.0.Some? <==> r.1.Some?
    ensures r.0.Some? ==> Truthy(r.0) && r == OfferPrice(s)
    ensures !Truthy(OfferPrice(s).0) ==> r == (None, None)
  {
    var p := OfferPrice(s);
    if Truthy(p.0) then p else (None, None)
  }

  /** Every field as the stripped block `s` determines it, before the final gate. */
  function Fill(s: string): IpoRecord {
    var dates := OfferDates(s);
    var price := PriceFields(s);
    var premium := ExpPremium(s);
    IpoRecord(CompanyNameOf(s), price.0, price.1, LotSize(s), SubscriptionFrom(s, 0),
              premium.0, premium.1, dates.0, dates.1, CurrentType, None)
  }

  /** The value `parse_single_ipo_block` returns for `blockText`. */
  function ParseBlock(blockText: string): (r: Option<IpoRecord>)
    ensures r.Some? ==> Gated(r.value)
  {
    var rec := Fill(Strip(blockText));
    if Truthy(rec.offerPriceMin) && Truthy(rec.lotSize) then Some(rec) else None
  }

  /**
   * A block is accepted exactly when it has an `Offer Price` match whose first numeral is
   * non-zero and a `Lot Size` match whose value is non-zero; no other field takes part.
   */
  lemma ParseBlockGate(blockText: string)
    ensures var s := Strip(blockText); var m := OfferPriceMatch(s);
      ParseBlock(blockText).Some? <==>
        (m.Some? && Low(s, m.value) != 0 && LotSizeMatch(s).Some? && LotSize(s).value != 0)
  {
    OfferPriceReads(Strip(blockText));
  }

  /** An accepted record carries the matched price numerals, in order, and the lot group. */
  lemma ParsedPrice(blockText: string)
    requires ParseBlock(blockText).Some?
    ensures var s := Strip(blockText); var rec := ParseBlock(blockText).value;
      && OfferPriceMatch(s).Some? && LotSizeMatch(s).Some?
      && rec.offerPriceMin == Some(Low(s, OfferPriceMatch(s).value))
      && rec.offerPriceMax == Some(High(s, OfferPriceMatch(s).value))
      && rec.lotSize == Some(Value(s[LotSizeMatch(s).value.0..LotSizeMatch(s).value.1]))
  {
    OfferPriceReads(Strip(blockText));
  }

  /** The company name is the sentinel or a well-shaped cleaned candidate. */
  lemma ParsedName(blockText: string)
    requires ParseBlock(blockText).Some?
    ensures var n := ParseBlock(blockText).value.companyName; n == Sentinel || NameShape(n)
  {
    CompanyNameShape(Strip(blockText));
  }

  /**
   * The premium and its percentage are set together: from a premium match they are the
   * average of the range (or the single value) and the parenthesised number.
   */
  lemma ParsedPremium(blockText: string)
    requires ParseBlock(blockText).Some?
    ensures var s := Strip(blockText); var rec := ParseBlock(blockText).value;
      && (rec.expectedPremium.Some? <==> rec.premiumPercentage.Some?)
      && (ExpPremiumMatch(s).None? ==> rec.expectedPremium.None?)
      && (ExpPremiumMatch(s).Some? ==> var m := ExpPremiumMatch(s).value;
            && rec.expectedPremium == Some(RangeValue(s, m.range))
            && rec.premiumPercentage == NumberValue(s, m.pctStart, m.pctEnd))
  {
    var s := Strip(blockText);
    if ExpPremiumMatch(s).Some? {
      ExpPremiumReads(s);
    }
  }

  /** The two offer dates are set together, and only to calendar dates. */
  lemma ParsedDates(blockText: string)
    requires ParseBlock(blockText).Some?
    ensures var s := Strip(blockText); var rec := ParseBlock(blockText).value;
      && (rec.offerStartDate.Some? <==> rec.offerEndDate.Some?)
      && (OfferDateMatch(s).None? ==> rec.offerStartDate.None?)
      && (rec.offerStartDate.Some? ==> ValidDate(rec.offerStartDate.value) && ValidDate(rec.offerEndDate.value))
  {
  }

  /** The subscription is the number before the first `times`; the second pattern never decides. */
  lemma ParsedSubscription(blockText: string)
    requires ParseBlock(blockText).Some?
    ensures var s := Strip(blockText); var rec := ParseBlock(blockText).value;
      && (TimesMatch(0, s).None? ==> rec.subscriptionTimes.None?)
      && (TimesMatch(0, s).Some? ==>
            rec.subscriptionTimes == NumberValue(s, TimesMatch(0, s).value.0, TimesMatch(0, s).value.1))
  {
    SubscriptionIsBare(Strip(blockText));
  }

  /**
   * `parse_single_ipo_block`, step by step: from the default record, the name cascade, then
   * dates, price, lot size, subscription and premium each overwrite their fields, and the
   * record is returned only when the minimum price and the lot size are truthy.
   */
  method ParseSingleIpoBlock(blockText: string) returns (r: Option<IpoRecord>)
    ensures r == ParseBlock(blockText)
  {
    var fullText := Strip(blockText);
    var rec := SetCompanyName(fullText, Blank);
    rec := SetOfferDates(fullText, rec);
    rec := SetOfferPrice(fullText, rec);
    rec := SetLotSize(fullText, rec);
    rec := SetSubscription(fullText, rec);
    rec := SetPremium(fullText, rec);
    if Truthy(rec.offerPriceMin) && Truthy(rec.lotSize) {
      r := Some(rec);
    } else {
      r := None;
    }
  }

  /**
   * The name patterns in order: the first match whose cleaned text is longer than three
   * characters and not only digits, spaces, `-` and `.` is written and ends the loop; a
   * rejected match falls through to the next pattern; without one the name stays as it was.
   */
  method SetCompanyName(fullText: string, rec: IpoRecord) returns (out: IpoRecord)
    requires rec.companyName == Sentinel
    ensures out == rec.(companyName := CompanyNameOf(fullText))
  {
    out := rec;
    ghost var cs := Candidates(fullText);
    var k := 0;
    while k < 5
      invariant 0 <= k <= 5
      invariant out == rec
      invariant FirstValid(cs, 0) == FirstValid(cs, k)
    {
      var nameMatch := Candidate(k, fullText);
      assert nameMatch == cs[k];
      if nameMatch.Some? {
        var companyName := CleanName(nameMatch.value);
        if |companyName| > 3 && !NumericOnly(companyName) {
          out := out.(companyName := companyName);
          break;
        }
      }
      assert !Accepted(nameMatch);
      k := k + 1;
    }
  }

  /** A date-range match writes both dates `extract_dates` gives, which may be neither. */
  method SetOfferDates(fullText: string, rec: IpoRecord) returns (out: IpoRecord)
    ensures out.(offerStartDate := rec.offerStartDate, offerEndDate := rec.offerEndDate) == rec
    ensures OfferDateMatch(fullText).Some? ==> (out.offerStartDate, out.offerEndDate) == OfferDates(fullText)
    ensures OfferDateMatch(fullText).None? ==> out == rec
  {
    out := rec;
    var dateMatch := OfferDateMatch(fullText);
    if dateMatch.Some? {
      var dates := ExtractDates(fullText[dateMatch.value.0..dateMatch.value.1]);
      out := out.(offerStartDate := dates.0, offerEndDate := dates.1);
    }
  }

  /** A price match with a truthy minimum writes both prices; anything else leaves them. */
  method SetOfferPrice(fullText: string, rec: IpoRecord) returns (out: IpoRecord)
    ensures out.(offerPriceMin := rec.offerPriceMin, offerPriceMax := rec.offerPriceMax) == rec
    ensures Truthy(OfferPrice(fullText).0) ==> (out.offerPriceMin, out.offerPriceMax) == OfferPrice(fullText)
    ensures !Truthy(OfferPrice(fullText).0) ==> out == rec
  {
    out := rec;
    var priceMatch := OfferPriceMatch(fullText);
    if priceMatch.Some? {
      var price := ExtractPrice(fullText[priceMatch.value.start..priceMatch.value.end]);
      if Truthy(price.0) {
        out := out.(offerPriceMin := price.0, offerPriceMax := price.1);
      }
    }
  }

  /** A lot-size match writes `int` of its digits; `int` raising would leave the field. */
  method SetLotSize(fullText: string, rec: IpoRecord) returns (out: IpoRecord)
    ensures out.(lotSize := rec.lotSize) == rec
    ensures LotSizeMatch(fullText).Some? ==> out.lotSize == LotSize(fullText)
    ensures LotSizeMatch(fullText).None? ==> out == rec
  {
    out := rec;
    var lotMatch := LotSizeMatch(fullText);
    if lotMatch.Some? {
      var lot := IntOfDigits(fullText[lotMatch.value.0..lotMatch.value.1]);
      if lot.Some? {
        out := out.(lotSize := lot);
      }
    }
  }

  /** The two subscription patterns in order, `break` on the first value `float` reads. */
  method SetSubscription(fullText: string, rec: IpoRecord) returns (out: IpoRecord)
    ensures out.(subscriptionTimes := rec.subscriptionTimes) == rec
    ensures SubscriptionFrom(fullText, 0).Some? ==> out.subscriptionTimes == SubscriptionFrom(fullText, 0)
    ensures SubscriptionFrom(fullText, 0).None? ==> out == rec
  {
    out := rec;
    var q := 0;
    while q < 2
      invariant 0 <= q <= 2
      invariant out == rec
      invariant SubscriptionFrom(fullText, 0) == SubscriptionFrom(fullText, q)
    {
      var subMatch := TimesMatch(q, fullText);
      if subMatch.Some? {
        var times := NumberValue(fullText, subMatch.value.0, subMatch.value.1);
        if times.Some? {
          out := out.(subscriptionTimes := times);
          break;
        }
      }
      q := q + 1;
    }
  }

  /** A premium match that reads writes the premium and its percentage together. */
  method SetPremium(fullText: string, rec: IpoRecord) returns (out: IpoRecord)
    ensures out.(expectedPremium := rec.expectedPremium, premiumPercentage := rec.premiumPercentage) == rec
    ensures ExpPremium(fullText).0.Some? ==> (out.expectedPremium, out.premiumPercentage) == ExpPremium(fullText)
    ensures ExpPremium(fullText).0.None? ==> out == rec
  {
    out := rec;
    var premMatch := ExpPremiumMatch(fullText);
    if premMatch.Some? {
      var m := premMatch.value;
      SliceIn(fullText, m.pctStart, m.pctEnd, DigitOrDot);
      var premium := PremiumOfMatch(fullText[m.range.start..m.range.end], fullText[m.pctStart..m.pctEnd]);
      if premium.0.Some? {
        out := out.(expectedPremium := premium.0, premiumPercentage := premium.1);
      }
    }
  }
}
