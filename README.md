# BidBuddy IPO scraper: a Dafny model of its text parsing

BidBuddy's `ipoji_scrapper.py` downloads the ipoji.com listing of current Indian IPOs,
flattens the page to text and turns that text into one record per IPO. Each record holds
the company name, the offer price band, the lot size, the subscription multiple, the
expected grey-market premium and its percentage, and the offer dates. An investment per
lot is derived from the price and the lot size. This project models the text-processing
core of that script and proves properties of it:

- **Segmenter** (`segmenter.dfy`). This is `split_ipo_blocks_v2`. It cuts the page at every
  `Offer Date:` range with `re.findall` and rebuilds each block as `Offer Date: <range><rest>`.
  It keeps the first twenty non-empty stripped lines of each block and joins them with
  newlines. The method `SplitIpoBlocks` keeps the source's loop and is proved equal to the
  specification `Blocks(FindAllGroups(text))`.
- **Field extractors** (`extractors.dfy`, `dates.dfy`). These are `extract_price`,
  `extract_lot_size`, `extract_subscription`, `extract_premium` and `extract_dates`. Dates
  include a model of `strptime('%b %d, %Y')` over the tokens the date pattern captures.
- **Block parser** (`names.dfy`, `fields.dfy`, `block.dfy`). This is `parse_single_ipo_block`.
  - It uses five company-name patterns, tried in order, with clean-up and validation.
  - It uses the block-level patterns for dates, price, lot size, subscription and premium.
  - A record is returned only when the minimum price and the lot size are truthy.
  - The method starts from the default record. It then overwrites fields section by section,
    as the source does. Each section is its own small method, and `ParseBlock` states the
    whole result as one expression.
- **Collection loop** (`scraper.dfy`). This is the loop of `parse_ipo_data`. It parses every
  block, keeps the accepted records and adds `investment_per_lot = int(avg * lot)`.

`text.dfy` holds the shared string and number vocabulary:
- Python's `str.strip`, `str.split` and `str.join`;
- `int` and `float` of digit strings;
- `\s+` collapsing;
- `re.search`, as the leftmost position where an anchored matcher succeeds.

Every regular expression is written as a deterministic matcher anchored at one position. Its
doc comment explains why backtracking cannot change the match.

Points where the code does something one might not expect:
- The investment per lot is truncated by `int`, not rounded. For example, a band of 161-170
  with a lot of 1 gives 165, not 166.
- The default company name is `Unknown Company`.
- The block-level field labels are case-sensitive. Only the segmenter's `Offer Date:` and the
  two subscription patterns ignore case.
- The bare `<n> times` subscription pattern is tried before the `No of Apps:` pattern.
  `Fields.SubscriptionIsBare` shows that the second pattern can never decide the value.
- A zero minimum price or a zero lot size fails Python's truthiness test, so such a block is
  rejected.
- When the minimum price is truthy, the maximum price is always present. `offer_price_max or
  offer_price_min` falls back to the minimum only when the maximum is zero.

## Model

| member | source | states |
|---|---|---|
| Scan.Search | ipoji_scrapper.py:261 | `re.search`: the result is a match; no earlier position matches; None means no position matches |
| Text.Strip | ipoji_scrapper.py:238 | `str.strip`: no whitespace at either end; empty exactly when the input is all whitespace |
| Text.StripIn | ipoji_scrapper.py:238 | the stripped text stands in place in the input with only whitespace before it and only whitespace after it |
| Text.StripStripped | ipoji_scrapper.py:206 | `strip` is idempotent |
| Text.Split | ipoji_scrapper.py:36 | `str.split(c)`: one more part than separators, and no part contains the separator |
| Text.JoinSplit | ipoji_scrapper.py:206-217 | joining the parts of `split(c)` with c gives back the text |
| Text.SplitJoin | ipoji_scrapper.py:206-217 | splitting a join of separator-free parts gives back the parts |
| Text.Keep | ipoji_scrapper.py:32 | the kept characters are all of the class and no more than the input |
| Text.KeepAppend | ipoji_scrapper.py:32 | the kept text of `a + b` is the kept text of `a` followed by that of `b`: order is preserved |
| Text.KeepCount | ipoji_scrapper.py:32 | every occurrence of a character of the class survives |
| Text.KeepNone | ipoji_scrapper.py:32 | text without characters of the class keeps nothing |
| Text.Collapse | ipoji_scrapper.py:265 | `re.sub(r'\s+', ' ', _)`: only single spaces remain; non-space first and last characters are kept |
| Text.CollapseKeeps | ipoji_scrapper.py:265 | the non-whitespace characters of the result are those of the input, in order |
| Text.CollapseConcat | ipoji_scrapper.py:265 | text ending in a non-space character collapses on its own: no run crosses it |
| Text.CollapseRun | ipoji_scrapper.py:265 | a whitespace run before a non-space character, or the end, becomes exactly one space |
| Text.IntOfDigits | ipoji_scrapper.py:39-40 | `int(t)` succeeds exactly on a non-empty digit string |
| Text.FloatOf | ipoji_scrapper.py:78 | `float(t)` of digits and dots succeeds exactly when there is at most one dot and at least one digit |
| Text.NumberAt | ipoji_scrapper.py:301 | `\d+\.?\d*` at p: matches exactly when a digit stands at p; only digits and dots; at most one dot |
| Text.NumberAtInt | ipoji_scrapper.py:301 | a digit run not followed by a dot is matched whole |
| Text.NumberAtIs | ipoji_scrapper.py:301 | a digit run, a dot and a digit run is matched whole |
| Extractors.CleanPrice | ipoji_scrapper.py:32 | only digits, dashes and whitespace survive |
| Extractors.ExtractPrice | ipoji_scrapper.py:26-52 | both values or neither; empty text and two or more dashes give neither; no dash gives equal values |
| Extractors.CleanPriceSame | ipoji_scrapper.py:32 | a digit-and-dash text with digits at both ends is unchanged by the clean-up |
| Extractors.PriceRange | ipoji_scrapper.py:34-41 | `a-b` gives (a, b) in the order written |
| Extractors.DashSplit | ipoji_scrapper.py:36-40 | `a-b` splits into exactly the two numerals, each unchanged by `strip` |
| Extractors.PriceSingle | ipoji_scrapper.py:44-48 | a single numeral n gives (n, n) |
| Extractors.PriceMissingUpper | ipoji_scrapper.py:34-43 | `a-` gives (None, None): `int('')` raises |
| Extractors.ExtractLotSize | ipoji_scrapper.py:54-66 | a value exactly when the text has a digit (numbers are unbounded, see Left out) |
| Extractors.LotSizeFirstNumeral | ipoji_scrapper.py:60-63 | the value is the first digit run |
| Extractors.ExtractSubscription | ipoji_scrapper.py:68-82 | a value is non-negative and comes from a `times` match |
| Extractors.TimesAt | ipoji_scrapper.py:75 | a match of `[\d.]+` before "times" covers only digits and dots |
| Extractors.TimesAtNumber | ipoji_scrapper.py:75 | `[\d.]+\s*times` matches a number followed by " times" |
| Extractors.SubscriptionReadsNumber | ipoji_scrapper.py:75-78 | the value is `float` of the number before "times" |
| Extractors.SubscriptionAt | ipoji_scrapper.py:75-78 | the first number-before-"times" decides the value |
| Extractors.SubscriptionFound | ipoji_scrapper.py:75-78 | the value is `float` of the matched group |
| Extractors.SubscriptionDecimal | ipoji_scrapper.py:75-78 | `x.f times` reads as the decimal x.f |
| Extractors.SubscriptionTwoDots | ipoji_scrapper.py:77-80 | a group with two dots makes `float` raise, giving None |
| Extractors.TwoDots | ipoji_scrapper.py:77-80 | a number with two dots is made of digits and dots and `float` refuses it |
| Extractors.FloatOfDecimal | ipoji_scrapper.py:78 | `float("x.f")` is the decimal value |
| Extractors.FloatNonNegative | ipoji_scrapper.py:78 | `float` of digits and dots is never negative |
| Extractors.PremiumAt | ipoji_scrapper.py:90 | `([\d\-]+)\s*\((\d+\.?\d*)%\)`: a greedy range group, then a parenthesised number and `%)` |
| Extractors.PercentAt | ipoji_scrapper.py:90 | `\((\d+\.?\d*)%\)`: the number sits between `(` and `%)` |
| Extractors.Average | ipoji_scrapper.py:104 | twice the result is the sum: exact true division by 2 |
| Extractors.PremiumValue | ipoji_scrapper.py:98-108 | a dash-free group has a value exactly when it is non-empty (numbers are unbounded, see Left out) |
| Extractors.PremiumOfGroups | ipoji_scrapper.py:95-110 | premium and percentage together or neither; both parse or neither is set |
| Extractors.ExtractPremium | ipoji_scrapper.py:84-112 | both or neither; text containing "N/A" gives neither (numbers are unbounded, see Left out) |
| Extractors.PremiumPercentReads | ipoji_scrapper.py:93-96 | the percentage group always parses |
| Extractors.PremiumFound | ipoji_scrapper.py:90-93 | the groups of the first match are the range and the percentage |
| Extractors.PremiumReads | ipoji_scrapper.py:90-110 | `range (x.f%)` is read through its two groups |
| Extractors.PremiumRangeReads | ipoji_scrapper.py:98-104 | `lo-hi (x.f%)` gives ((lo+hi)/2, x.f) |
| Extractors.PremiumSingleReads | ipoji_scrapper.py:105-108 | `v (x.f%)` gives (v, x.f) |
| Extractors.PremiumGroupsRange | ipoji_scrapper.py:98-104 | a dashed range gives the average of its numerals |
| Extractors.PremiumValueOfSplit | ipoji_scrapper.py:100-104 | a range that splits into two numerals gives their average |
| Extractors.PremiumGroupsSingle | ipoji_scrapper.py:105-108 | a single numeral gives its value |
| Extractors.PremiumGroupsLeadingDash | ipoji_scrapper.py:100-103 | `-v` gives neither value: `int('')` raises |
| Dates.MonthNumber | ipoji_scrapper.py:126 | `%b`: a three-letter, case-insensitive month abbreviation gives its number 1..12 |
| Dates.DayNumber | ipoji_scrapper.py:126 | `%d`: one or two digits with value 1..31 |
| Dates.YearNumber | ipoji_scrapper.py:126 | `%Y` on the captured digits: exactly four digits |
| Dates.Strptime | ipoji_scrapper.py:126-127 | a parsed date is a calendar date whose tokens have the widths and values read |
| Dates.DateAt | ipoji_scrapper.py:120 | `[A-Za-z]+ \d+, \d+` at p: letter-led spans in the text |
| Dates.DateAtWellFormed | ipoji_scrapper.py:120 | a matched date's tokens are letters, digits and digits |
| Dates.DateAtText | ipoji_scrapper.py:120 | a matched date is the text "Mon D, Y" of its tokens |
| Dates.DatePartsOf | ipoji_scrapper.py:120 | a written date lies in the text as its three tokens and separators |
| Dates.DateAtString | ipoji_scrapper.py:120 | a written date followed by a non-digit is matched with its tokens |
| Dates.RangeAt | ipoji_scrapper.py:198 | `<date> - <date>`: two date spans around " - " |
| Dates.RangeAtText | ipoji_scrapper.py:198 | a matched range is the text of its two dates |
| Dates.RangeAtWellFormed | ipoji_scrapper.py:198 | both dates of a matched range are well-formed |
| Dates.RangeAtString | ipoji_scrapper.py:198 | a written range followed by a non-digit is matched whole |
| Dates.RangeStringLine | ipoji_scrapper.py:198 | a written range has no newline and ends with a digit |
| Dates.LooseRangeAt | ipoji_scrapper.py:120 | `<date>\s*-\s*<date>`: two date spans |
| Dates.LooseRangeAtWellFormed | ipoji_scrapper.py:120 | both dates of a loose match are well-formed |
| Dates.LooseRangeOfStrict | ipoji_scrapper.py:120 | where the strict range matches, the loose pattern matches the same spans |
| Dates.ExtractDates | ipoji_scrapper.py:114-132 | both dates or neither, and only calendar dates |
| Dates.ExtractDatesAtStart | ipoji_scrapper.py:120-130 | a range at the start gives `strptime` of both dates, or neither |
| Dates.ExtractDatesOfRange | ipoji_scrapper.py:114-132 | a written range gives both parsed dates, or neither |
| Dates.FormatDate | ipoji_scrapper.py:126 | the written form of a calendar date has well-formed tokens |
| Dates.MonthNamesRead | ipoji_scrapper.py:126 | each month abbreviation reads as its own month |
| Dates.DayRead | ipoji_scrapper.py:126 | every day 1..31 written in decimal reads back |
| Dates.YearRead | ipoji_scrapper.py:126 | a four-digit year reads back |
| Dates.StrptimeFormat | ipoji_scrapper.py:126 | `strptime` of a formatted date is that date |
| Dates.ExtractDatesRoundTrip | ipoji_scrapper.py:114-132 | formatting two dates as a range and extracting gives them back |
| Dates.ExtractDatesRejectsLongMonth | ipoji_scrapper.py:125-130 | a full month name makes `strptime` raise: neither date |
| Dates.ExtractDatesRejectsYearWidth | ipoji_scrapper.py:125-130 | a year that is not four digits gives neither date |
| Dates.StrptimeRejectsMissingDay | ipoji_scrapper.py:126 | a day past the month's end is refused |
| Dates.ExtractDatesRejectsMissingDay | ipoji_scrapper.py:125-130 | such a day gives neither date |
| Segmenter.BodyEnd | ipoji_scrapper.py:198 | lazy `(.*?)(?=Offer Date:\|$)`: the first position where the lookahead holds |
| Segmenter.SegmentAt | ipoji_scrapper.py:198 | one match of the block pattern at j: anchor, range, then body |
| Segmenter.SegmentAtIs | ipoji_scrapper.py:198 | a match is the anchor, `\s*`, a date range and the lazy body |
| Segmenter.SegmentBody | ipoji_scrapper.py:198 | the body stops at the next anchor or the end, and holds no anchor |
| Segmenter.Matches | ipoji_scrapper.py:199 | `re.findall` from i: matches in bounds |
| Segmenter.MatchesOrdered | ipoji_scrapper.py:199 | matches do not overlap and come in text order |
| Segmenter.MatchesAt | ipoji_scrapper.py:199 | each listed match is a match at its own start |
| Segmenter.MatchesCover | ipoji_scrapper.py:199 | every position where a match starts lies inside a listed match |
| Segmenter.MatchesNone | ipoji_scrapper.py:199 | no match anywhere gives no matches |
| Segmenter.FindAll | ipoji_scrapper.py:198-199 | the matches of the block pattern in the page text |
| Segmenter.FindAllSegment | ipoji_scrapper.py:198-199 | each listed match is a match at its start |
| Segmenter.FindAllOrdered | ipoji_scrapper.py:198-199 | the matches are disjoint and ordered |
| Segmenter.FindAllComplete | ipoji_scrapper.py:198-199 | no match start is skipped |
| Segmenter.FindAllNoAnchor | ipoji_scrapper.py:187-220 | a page without "Offer Date:" has no matches and so no blocks |
| Segmenter.FindAllGroups | ipoji_scrapper.py:199-204 | one pair of groups per match |
| Segmenter.StrippedLines | ipoji_scrapper.py:206 | the kept lines are non-empty and stripped, and no more than the input lines |
| Segmenter.StrippedLinesAppend | ipoji_scrapper.py:206 | line by line and in order: a line gives its stripped form when non-empty, nothing otherwise |
| Segmenter.CleanLines | ipoji_scrapper.py:206-209 | the first min(20, n) of the n non-empty stripped lines, in order |
| Segmenter.JoinKeptStep | ipoji_scrapper.py:216-217 | one more match appends its joined lines, when it has any |
| Segmenter.JoinKept | ipoji_scrapper.py:209-217 | never more blocks than matches |
| Segmenter.SplitIpoBlocks | ipoji_scrapper.py:187-220 | the loop's blocks equal the specification `Blocks(FindAllGroups(text))` |
| Segmenter.JoinKeptAll | ipoji_scrapper.py:216-217 | when every match has a line, every match gives one block |
| Segmenter.SplitIpoBlocksAll | ipoji_scrapper.py:203-217 | exactly one block per match, in match order |
| Segmenter.BlockHasLine | ipoji_scrapper.py:204-216 | every rebuilt block has at least one non-empty line, so none is dropped |
| Segmenter.BlockLines | ipoji_scrapper.py:206-217 | splitting a block at newlines gives back its 1..20 clean lines |
| Segmenter.BlockStartsWith | ipoji_scrapper.py:204-217 | a block starts with "Offer Date: " and the captured range |
| Segmenter.CleanLinesFirst | ipoji_scrapper.py:206 | the first clean line is the stripped first line |
| Segmenter.SegmentBlockStart | ipoji_scrapper.py:198-217 | each block starts with "Offer Date: " followed by the range's dates |
| Names.LazyName | ipoji_scrapper.py:245 | lazy `[A-Za-z\s&.-]{k,}?` up to the first end that fits the tail |
| Names.AfterLitAt | ipoji_scrapper.py:245-248 | patterns 1 and 2: a letter-led group after the label |
| Names.AllotmentRest | ipoji_scrapper.py:251 | pattern 3 after "Allotment": an upper-case-led group |
| Names.AllotmentAt | ipoji_scrapper.py:251 | pattern 3: a letter-led group |
| Names.LazyTrailingName | ipoji_scrapper.py:254 | pattern 4's lazy `.*?` then a group reaching the end of the text |
| Names.LeadPhraseAt | ipoji_scrapper.py:254 | pattern 4: a letter-led group after one of its three lead phrases |
| Names.SuffixAt | ipoji_scrapper.py:257 | a suffix word followed only by whitespace |
| Names.WordsTo | ipoji_scrapper.py:257 | capitalised words ending in a suffix word, then only whitespace |
| Names.CompanyWordsAt | ipoji_scrapper.py:257 | pattern 5: a letter-led group followed only by whitespace |
| Names.PatternAt | ipoji_scrapper.py:243-258 | each of the five patterns gives a letter-led group |
| Names.Candidate | ipoji_scrapper.py:261-263 | a pattern's group is non-empty and letter-led |
| Names.Candidates | ipoji_scrapper.py:260-261 | the five patterns' groups, in order |
| Names.CleanNameShape | ipoji_scrapper.py:263-266 | the cleaned name is single-spaced, with no `.`, `-` or whitespace at either end |
| Names.TrimPunctShape | ipoji_scrapper.py:266 | trimming keeps single spacing and leaves clean ends |
| Names.FirstValidIs | ipoji_scrapper.py:260-271 | rejected candidates fall through: the first accepted one wins, or the sentinel |
| Names.FirstValidSkips | ipoji_scrapper.py:260-271 | candidates that fail validation are skipped: the loop from k gives what it gives from the next accepted one |
| Names.FirstValidValid | ipoji_scrapper.py:260-271 | the result is the sentinel or the cleaned form of an accepted candidate |
| Names.CompanyNameShape | ipoji_scrapper.py:260-271 | the name is the sentinel, or valid, letter-led, single-spaced and trimmed |
| Names.FirstValidShape | ipoji_scrapper.py:260-271 | over letter-led candidates the cascade gives the sentinel or a well-shaped name |
| Names.AcceptedShape | ipoji_scrapper.py:263-268 | an accepted letter-led candidate cleans to a well-shaped name |
| Names.CleanNameLead | ipoji_scrapper.py:263-266 | cleaning keeps the leading letter |
| Names.NumericCheckRedundant | ipoji_scrapper.py:268 | for a letter-led candidate, acceptance is just length > 3 |
| Names.ViewCheckIsCheck | ipoji_scrapper.py:245-248 | where pattern 2 matches, pattern 1 matches the same group |
| Fields.OfferDateAt | ipoji_scrapper.py:274 | `Offer Date:\s*(<range>)`: the group is a strict date range |
| Fields.OfferDateMatch | ipoji_scrapper.py:274 | the first such match: its group is a strict date range |
| Fields.OfferDates | ipoji_scrapper.py:274-279 | both dates or neither |
| Fields.DashedNumberAt | ipoji_scrapper.py:282 | `\d+(?:-\d+)?` matches exactly where a digit stands |
| Fields.OfferPriceAt | ipoji_scrapper.py:282 | `Offer Price(\d+(?:-\d+)?)`: a numeral or a dashed pair |
| Fields.OfferPriceMatch | ipoji_scrapper.py:282 | the first such match |
| Fields.OfferPrice | ipoji_scrapper.py:282-285 | both prices or neither |
| Fields.PriceOfSpan | ipoji_scrapper.py:282-285 | `extract_price` of the group is (first numeral, last numeral) |
| Fields.PriceOfSingleSpan | ipoji_scrapper.py:282-285 | a single-numeral group gives (n, n) |
| Fields.PriceOfRangeSpan | ipoji_scrapper.py:282-285 | a dashed group gives its two numerals in order |
| Fields.PriceOfRange | ipoji_scrapper.py:282-285 | `extract_price` of `x-y` is (x, y) |
| Fields.OfferPriceReads | ipoji_scrapper.py:282-285 | no match gives neither; a match gives its numerals in order |
| Fields.LotSizeAt | ipoji_scrapper.py:291 | `Lot Size(\d+)`: a digit group |
| Fields.LotSizeMatch | ipoji_scrapper.py:291 | the first such match |
| Fields.LotSize | ipoji_scrapper.py:291-296 | a value exactly when there is a match; it is the group's value (numbers are unbounded, see Left out) |
| Fields.BareTimesAt | ipoji_scrapper.py:301 | `(\d+\.?\d*)\s*times`, case-insensitive: the group is a number |
| Fields.AppsTimesAt | ipoji_scrapper.py:302 | the `No of Apps:` pattern: its group is where the bare pattern matches |
| Fields.TimesPatternAt | ipoji_scrapper.py:300-302 | each subscription pattern's group is a number |
| Fields.TimesMatch | ipoji_scrapper.py:306 | the first match of a subscription pattern |
| Fields.NumberValue | ipoji_scrapper.py:309 | `float` of a matched group never raises; its value is the exact decimal (a huge one is `inf` in Python) |
| Fields.AppsImpliesBare | ipoji_scrapper.py:300-307 | whenever the `No of Apps:` pattern matches, the bare pattern matches too |
| Fields.SubscriptionIsBare | ipoji_scrapper.py:305-312 | the loop's value is the bare pattern's number, or None |
| Fields.ExpPremiumAt | ipoji_scrapper.py:315 | `Exp\. Premium(range)[^(]*\((pct)%\)`: a dashed range and a number |
| Fields.ExpPremiumMatch | ipoji_scrapper.py:315 | the first such match |
| Fields.PremiumOfMatch | ipoji_scrapper.py:317-332 | premium and percentage together or neither; the percentage is `float` of its group (numbers are unbounded, see Left out) |
| Fields.ExpPremium | ipoji_scrapper.py:315-332 | both or neither |
| Fields.PremiumOfSingle | ipoji_scrapper.py:326-327 | a single numeral gives its value |
| Fields.PremiumOfRange | ipoji_scrapper.py:321-325 | `lo-hi` gives the average |
| Fields.PremiumOfSpan | ipoji_scrapper.py:317-330 | a matched range gives the range's value and the percentage |
| Fields.ExpPremiumReads | ipoji_scrapper.py:315-330 | a match always reads: the average (or single value) and the parenthesised number |
| BlockParser.PriceFields | ipoji_scrapper.py:282-288 | prices are written only with a truthy minimum, and then both |
| BlockParser.ParseBlock | ipoji_scrapper.py:222-340 | a returned record passes the gate |
| BlockParser.ParseBlockGate | ipoji_scrapper.py:335-340 | accepted iff the price match's first numeral and the lot value are non-zero; no other field matters |
| BlockParser.ParsedPrice | ipoji_scrapper.py:282-296 | an accepted record has the matched numerals in order and the lot group's value |
| BlockParser.ParsedName | ipoji_scrapper.py:260-271 | the name is the sentinel or a well-shaped cleaned candidate |
| BlockParser.ParsedPremium | ipoji_scrapper.py:314-332 | premium and percentage together; from a match, the range's value and the percentage |
| BlockParser.ParsedDates | ipoji_scrapper.py:273-279 | both dates or neither, only calendar dates, neither without a match |
| BlockParser.ParsedSubscription | ipoji_scrapper.py:298-312 | the subscription is the bare pattern's number, or None |
| BlockParser.ParseSingleIpoBlock | ipoji_scrapper.py:222-340 | the method's result equals `ParseBlock` |
| BlockParser.SetCompanyName | ipoji_scrapper.py:260-271 | the for/break loop sets the name to the cascade's result and nothing else |
| BlockParser.SetOfferDates | ipoji_scrapper.py:273-279 | only the dates change, and only on a match |
| BlockParser.SetOfferPrice | ipoji_scrapper.py:281-288 | only the prices change, and only with a truthy minimum |
| BlockParser.SetLotSize | ipoji_scrapper.py:290-296 | only the lot size changes, and only on a match |
| BlockParser.SetSubscription | ipoji_scrapper.py:298-312 | the loop changes only the subscription, and only when a pattern reads |
| BlockParser.SetPremium | ipoji_scrapper.py:314-332 | only premium and percentage change, together |
| Scraper.Trunc | ipoji_scrapper.py:178 | `int` of a non-negative number is its floor |
| Scraper.InvestmentExact | ipoji_scrapper.py:177-178 | `int(((lo+hi)/2) * lot)` equals `(lo+hi)*lot` integer-divided by 2 |
| Scraper.InvestmentPositive | ipoji_scrapper.py:177-178 | positive prices and lot give an investment of at least 1 |
| Scraper.ParseAll | ipoji_scrapper.py:172-174 | one result per block, each one from `parse_single_ipo_block` |
| Scraper.ParseIpoData | ipoji_scrapper.py:162-183 | the records are `Gather` of the parsed blocks of the segmented page |
| Scraper.ParseBlocks | ipoji_scrapper.py:172-183 | the loop's list is the accepted records, priced, in block order |
| Scraper.AddInvestment | ipoji_scrapper.py:177-178 | only the investment is added, and it is half of `(min + (max or min)) * lot`, rounded down |
| Scraper.GatherStep | ipoji_scrapper.py:174-179 | one more block appends its priced record, if any |
| Scraper.GatherAppend | ipoji_scrapper.py:172-179 | the records of two runs of blocks concatenate |
| Scraper.GatherShape | ipoji_scrapper.py:172-179 | every record passed the gate and carries the exact, positive investment; no more records than blocks |
| Scraper.GatherEmpty | ipoji_scrapper.py:172-179 | no records iff no block parses; one per block when all parse |

## Left out

- Fetching the page (`requests`), `BeautifulSoup` text extraction, `scrape_ipos`, `save_to_csv`
  and `main` are not modelled. The page text is the input of `Scraper.ParseIpoData`.
- All `print` output and the debug previews are left out. They do not affect the results.
- Floats are exact reals. IEEE rounding of `float(...)`, of `/ 2` and of `avg * lot` is not
  modelled. For very large numbers, Python's float results can differ from the exact values.
- Numbers are unbounded. The model does not capture the cases where the size of a number
  makes Python raise, and in each of them it keeps a value where the source does not:
  - `Scraper.ParseBlocks` and `Scraper.ParseIpoData` keep a record whose price sum is beyond
    the float range, about 310 digits. There `/ 2` raises `OverflowError`, and `except
    Exception` drops the block.
  - They also keep a record whose lot size is itself beyond the float range (309 digits or
    more), where `avg_price * lot` raises "int too large to convert to float", and a record
    whose average price times lot size overflows to infinity, where `int(inf)` raises
    `OverflowError`. The block is dropped in both cases.
  - `Fields.PremiumOfMatch`, `BlockParser.ParseBlock` and `Scraper.ParseBlocks` keep a record
    whose premium range sums beyond the float range. There `(min_prem + max_prem) / 2` in
    `parse_single_ipo_block` raises `OverflowError`, which its `except ValueError` does not
    catch, so `except Exception` drops the whole block, valid price and lot included.
  - `Extractors.ExtractPremium` and `Extractors.PremiumValue` give the average of such a
    range. In `extract_premium` the same `OverflowError` escapes, because it catches only
    `ValueError`.
  - `Text.IntOfDigits` reads digit strings of any length. Python 3.11 and later refuse those
    longer than 4,300 digits with a `ValueError`. The source then gives `(None, None)` from
    `extract_price`, `None` from `extract_lot_size`, `(None, None)` from `extract_premium`,
    leaves the lot size `None` in `parse_single_ipo_block`, and leaves both premium fields
    `None` there. The model reads these values, as `Extractors.ExtractPrice`,
    `Extractors.ExtractLotSize`, `Extractors.ExtractPremium`, `Extractors.PremiumValue`,
    `Fields.LotSize` and `Fields.PremiumOfMatch` show.
- Only ASCII is modelled for `\d`, `[A-Za-z]` and `re.IGNORECASE`. Whitespace is Python's
  `str.isspace` set. Unicode digits and non-ASCII case folding are not modelled.
- Each regular expression is written by hand as an anchored matcher for its own pattern.
  Python's `re` engine in general is not modelled.
- `datetime.strptime` is modelled only for the tokens the date patterns can capture, with
  English month abbreviations (the C locale). `Date` stands for `datetime.date`.
- The blanket `except Exception` around each block in `parse_ipo_data` is left out. The
  `ValueError` paths of malformed text are modelled as `Option` results, and the lemmas show
  where they can never fire. The only exceptions left unmodelled are those caused by the size
  of a number, listed above.
- `parse_single_ipo_block` is one Python function. The model writes each of its sections as a
  separate method that updates the record, and `ParseSingleIpoBlock` calls them in the source's
  order.
- Extractors.ExtractSubscription: its contract states only non-negativity and where the
  value comes from. The value itself is given by the lemmas `SubscriptionFound` and
  `SubscriptionAt`.
