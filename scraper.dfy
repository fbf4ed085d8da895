/**
 * `parse_ipo_data` after the page text is in hand: split it into blocks, parse each one,
 * and for every accepted record add the investment per lot, the average offer price times
 * the lot size, truncated to an integer.
 */
module Scraper {
  import opened Wrappers
  import opened Extractors
  import opened Segmenter
  import opened BlockParser

  /** Python's `int(x)` of a non-negative number: truncation, which is the floor here. */
  function Trunc(x: real): (n: nat)
    requires x >= 0.0
    ensures n as real <= x < n as real + 1.0
  {
    x.Floor
  }

  /**
   * `int(((lo + hi) / 2) * lot)` in exact arithmetic: half the product, rounded down, so an
   * odd total loses half a rupee and never more.
   */
  function InvestmentPerLot(lo: nat, hi: nat, lot: nat): (r: nat)
  {
    var avg := Average(lo, hi);
    assert avg >= 0.0;
    Trunc(avg * lot as real)
  }

  /** The truncated product is exactly the integer half of `(lo + hi) * lot`. */
  lemma InvestmentExact(lo: nat, hi: nat, lot: nat)
    ensures InvestmentPerLot(lo, hi, lot) == (lo + hi) * lot / 2
  {
    var p := (lo + hi) * lot;
    var q, m := p / 2, p % 2;
    assert p == 2 * q + m && 0 <= m < 2;
    var x := Average(lo, hi) * lot as real;
    assert x * 2.0 == p as real by {
      assert Average(lo, hi) * 2.0 == (lo + hi) as real;
      calc {
        x * 2.0;
        Average(lo, hi) * 2.0 * lot as real;
        (lo + hi) as real * lot as real;
      }
    }
    assert x == q as real + m as real / 2.0;
    var n := InvestmentPerLot(lo, hi, lot);
    assert n as real <= x < n as real + 1.0;
    assert q as real <= x < q as real + 1.0;
  }

  /** `offer_price_max or offer_price_min`: the maximum unless it is missing or zero. */
  function MaxOrMin(rec: IpoRecord): nat
    requires Truthy(rec.offerPriceMin)
  {
    if Truthy(rec.offerPriceMax) then rec.offerPriceMax.value else rec.offerPriceMin.value
  }

  /** An accepted record with its investment per lot added. */
  function Priced(rec: IpoRecord): IpoRecord
    requires Gated(rec)
  {
    rec.(investmentPerLot := Some(InvestmentPerLot(rec.offerPriceMin.value, MaxOrMin(rec), rec.lotSize.value)))
  }

  /** Every present result passed the gate. */
  predicate AllGated(results: seq<Option<IpoRecord>>) {
    forall i :: 0 <= i < |results| && results[i].Some? ==> Gated(results[i].value)
  }

  /** The results of parsing each block, in order. */
  function ParseAll(blocks: seq<string>): (results: seq<Option<IpoRecord>>)
    ensures |results| == |blocks| && AllGated(results)
    ensures forall i :: 0 <= i < |blocks| ==> results[i] == ParseBlock(blocks[i])
  {
    seq(|blocks|, i requires 0 <= i < |blocks| => ParseBlock(blocks[i]))
  }

  /** The records the loop appends, in order: each present result, priced. */
  function Gather(results: seq<Option<IpoRecord>>): seq<IpoRecord>
    requires AllGated(results)
  {
    if results == [] then []
    else
      var r := results[|results| - 1];
      Gather(results[..|results| - 1]) + (if r.Some? then [Priced(r.value)] else [])
  }

  /**
   * `parse_ipo_data` from the page text on: split the text into blocks, then keep and price
   * the records of the blocks that parse.
   */
  method ParseIpoData(pageText: string) returns (ipos: seq<IpoRecord>)
    ensures ipos == Gather(ParseAll(Blocks(FindAllGroups(pageText))))
  {
    var ipoBlocks := SplitIpoBlocks(pageText);
    ipos := ParseBlocks(ipoBlocks);
  }

  /** The loop over the blocks: parse each one and append its priced record when it has one. */
  method ParseBlocks(blocks: seq<string>) returns (ipos: seq<IpoRecord>)
    ensures ipos == Gather(ParseAll(blocks))
  {
    ghost var results := ParseAll(blocks);
    ipos := [];
    for i := 0 to |blocks|
      invariant ipos == Gather(results[..i])
    {
      var ipoData := ParseSingleIpoBlock(blocks[i]);
      assert ipoData == results[i];
      GatherStep(results, i);
      if ipoData.Some? {
        var rec := AddInvestment(ipoData.value);
        ipos := ipos + [rec];
      }
    }
    assert results[..|blocks|] == results;
  }

  /**
   * The two statements that price an accepted record: the average of the minimum and
   * `max or min`, times the lot size, truncated by `int`.
   */
  method AddInvestment(ipoData: IpoRecord) returns (rec: IpoRecord)
    requires Gated(ipoData)
    ensures rec == Priced(ipoData)
    ensures rec.investmentPerLot ==
      Some((ipoData.offerPriceMin.value + MaxOrMin(ipoData)) * ipoData.lotSize.value / 2)
  {
    var maxOrMin := if Truthy(ipoData.offerPriceMax) then ipoData.offerPriceMax.value else ipoData.offerPriceMin.value;
    var avgPrice := Average(ipoData.offerPriceMin.value, maxOrMin);
    var lot := ipoData.lotSize.value as real;
    assert avgPrice >= 0.0 && lot >= 0.0;
    assert avgPrice * lot >= 0.0;
    var investment := Trunc(avgPrice * lot);
    assert investment == InvestmentPerLot(ipoData.offerPriceMin.value, maxOrMin, ipoData.lotSize.value);
    InvestmentExact(ipoData.offerPriceMin.value, maxOrMin, ipoData.lotSize.value);
    rec := ipoData.(investmentPerLot := Some(investment));
  }

  /** One more result adds its priced record, if any, to the end. */
  lemma GatherStep(results: seq<Option<IpoRecord>>, i: nat)
    requires AllGated(results) && i < |results|
    ensures AllGated(results[..i]) && AllGated(results[..i + 1])
    ensures Gather(results[..i + 1]) ==
      Gather(results[..i]) + (if results[i].Some? then [Priced(results[i].value)] else [])
  {
    assert results[..i + 1][..i] == results[..i];
  }

  /** The records of `a + b` are the records of `a` followed by those of `b`. */
  lemma {:induction false} GatherAppend(a: seq<Option<IpoRecord>>, b: seq<Option<IpoRecord>>)
    requires AllGated(a) && AllGated(b)
    ensures AllGated(a + b) && Gather(a + b) == Gather(a) + Gather(b)
    decreases |b|
  {
    if b == [] {
      assert a + b == a;
    } else {
      var b' := b[..|b| - 1];
      assert (a + b)[..|a + b| - 1] == a + b';
      GatherAppend(a, b');
    }
  }

  /**
   * What every collected record holds: a truthy minimum price and lot size, and the
   * investment per lot equal to half of `(min + (max or min)) * lot`, rounded down, and at
   * least 1; there are never more records than results.
   */
  lemma {:induction false} GatherShape(results: seq<Option<IpoRecord>>)
    requires AllGated(results)
    ensures |Gather(results)| <= |results|
    ensures forall r :: r in Gather(results) ==>
      && Gated(r)
      && r.investmentPerLot == Some((r.offerPriceMin.value + MaxOrMin(r)) * r.lotSize.value / 2)
      && r.investmentPerLot.value >= 1
  {
    if results != [] {
      var init := results[..|results| - 1];
      GatherShape(init);
      var p := results[|results| - 1];
      if p.Some? {
        var rec := p.value;
        InvestmentExact(rec.offerPriceMin.value, MaxOrMin(rec), rec.lotSize.value);
        InvestmentPositive(rec.offerPriceMin.value, MaxOrMin(rec), rec.lotSize.value);
      }
    }
  }

  /** Positive prices and a positive lot size give a positive investment. */
  lemma InvestmentPositive(lo: nat, hi: nat, lot: nat)
    requires lo >= 1 && hi >= 1 && lot >= 1
    ensures (lo + hi) * lot / 2 >= 1
  {
    assert (lo + hi) * lot >= (lo + hi) * 1;
  }

  /** The output is empty exactly when no block parses, and full when every block does. */
  lemma {:induction false} GatherEmpty(results: seq<Option<IpoRecord>>)
    requires AllGated(results)
    ensures Gather(results) == [] <==> forall i :: 0 <= i < |results| ==> results[i].None?
    ensures (forall i :: 0 <= i < |results| ==> results[i].Some?) ==> |Gather(results)| == |results|
  {
    if results != [] {
      var init := results[..|results| - 1];
      GatherEmpty(init);
      assert forall i :: 0 <= i < |init| ==> init[i] == results[i];
    }
  }
}
