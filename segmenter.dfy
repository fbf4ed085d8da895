/**
 * `split_ipo_blocks_v2`: cuts the page text into one block per
 * `Offer Date:\s*(<range>)(.*?)(?=Offer Date:|$)` match (DOTALL, IGNORECASE),
 * rebuilds each block as "Offer Date: " + range + body and keeps its first
 * twenty non-empty stripped lines.
 */
module Segmenter {
  import opened Wrappers
  import opened Chars
  import opened Text
  import opened Scan
  import opened Dates

  /** The anchor "Offer Date:" at `i`, in any case. */
  predicate AnchorAt(s: string, i: nat) {
    FoldLitAt(s, i, "offer date:")
  }

  /** `$` without MULTILINE: the end of the text, or just before a final newline. */
  predicate EndAt(s: string, b: nat) {
    b == |s| || (b + 1 == |s| && s[b] == '\n')
  }

  /** Where the lookahead `(?=Offer Date:|$)` succeeds. */
  predicate StopAt(s: string, b: nat) {
    AnchorAt(s, b) || EndAt(s, b)
  }

  /** The lazy `(.*?)` from `i`: the first position where the lookahead succeeds. */
  function BodyEnd(s: string, i: nat): (b: nat)
    requires i <= |s|
    ensures i <= b <= |s| && StopAt(s, b)
    ensures forall k :: i <= k < b ==> !StopAt(s, k)
    decreases |s| - i
  {
    if StopAt(s, i) then i else BodyEnd(s, i + 1)
  }

  /** One match: where it starts, the two dates of its range, and where its body ends. */
  datatype Segment = Segment(start: nat, d1: DateSpan, d2: DateSpan, end: nat)

  /**
   * The segment pattern anchored at `j`. The `\s*` never gives back whitespace (the range
   * must start with a letter), the range's greedy runs never need to shrink (the lazy body
   * accepts anything that follows), and the body is the shortest that reaches a stop.
   */
  function SegmentAt(s: string, j: nat): (r: Option<Segment>)
    ensures r.Some? ==> r.value.start == j && j + 11 <= r.value.d1.start
    ensures r.Some? ==> r.value.d1.start < r.value.d2.end <= r.value.end <= |s|
  {
    if AnchorAt(s, j) then
      var w := RunEnd(s, j + 11, Space);
      var range := RangeAt(s, w);
      if range.Some? then
        Some(Segment(j, range.value.0, range.value.1, BodyEnd(s, range.value.1.end)))
      else None
    else None
  }

  /** What a match is made of: the anchor, a date range after `\s*`, and the lazy body. */
  lemma SegmentAtIs(s: string, j: nat)
    requires SegmentAt(s, j).Some?
    ensures var m := SegmentAt(s, j).value;
      AnchorAt(s, j) && m.d1.start == RunEnd(s, j + 11, Space)
      && RangeAt(s, m.d1.start) == Some((m.d1, m.d2)) && m.end == BodyEnd(s, m.d2.end)
  {
  }

  function SegmentsIn(s: string): nat -> Option<Segment> {
    (j: nat) => SegmentAt(s, j)
  }

  /** An anchored matcher whose matches start where they are tried and end by `n`. */
  ghost predicate Forward(at: nat -> Option<Segment>, n: nat) {
    forall j: nat :: at(j).Some? ==> (at(j).value.start == j &&
      j < at(j).value.d1.start < at(j).value.d2.end <= at(j).value.end <= n)
  }

  /**
   * `re.findall` from position `i`: the leftmost match, then the matches of the rest of
   * the text from where that match ended.
   */
  function Matches(at: nat -> Option<Segment>, i: nat, n: nat): (ms: seq<Segment>)
    requires i <= n && Forward(at, n)
    ensures forall k :: 0 <= k < |ms| ==>
      i <= ms[k].start < ms[k].d1.start < ms[k].d2.end <= ms[k].end <= n
    decreases n - i
  {
    var hit := Search(at, i, n);
    if hit.None? then []
    else
      var m := hit.value.1;
      assert at(hit.value.0) == Some(m);
      var rest := Matches(at, m.end, n);
      [m] + rest
  }

  /** The matches come in text order and do not overlap. */
  lemma {:induction false} MatchesOrdered(at: nat -> Option<Segment>, i: nat, n: nat)
    requires i <= n && Forward(at, n)
    ensures forall k, l :: 0 <= k < l < |Matches(at, i, n)| ==>
      Matches(at, i, n)[k].end <= Matches(at, i, n)[l].start
    decreases n - i
  {
    var ms := Matches(at, i, n);
    if ms != [] {
      var m := ms[0];
      var rest := Matches(at, m.end, n);
      MatchesOrdered(at, m.end, n);
      assert ms == [m] + rest;
      forall k, l | 0 <= k < l < |ms| ensures ms[k].end <= ms[l].start {
        assert ms[l] == rest[l - 1];
        assert m.end <= rest[l - 1].start;
        if k > 0 {
          assert ms[k] == rest[k - 1];
          assert rest[k - 1].end <= rest[l - 1].start;
        }
      }
    }
  }

  /** Each element is what the matcher finds at its start. */
  lemma {:induction false} MatchesAt(at: nat -> Option<Segment>, i: nat, n: nat, k: nat)
    requires i <= n && Forward(at, n) && k < |Matches(at, i, n)|
    ensures at(Matches(at, i, n)[k].start) == Some(Matches(at, i, n)[k])
    decreases k
  {
    var hit := Search(at, i, n);
    var m := hit.value.1;
    assert at(hit.value.0) == Some(m);
    if k > 0 {
      MatchesAt(at, m.end, n, k - 1);
      assert Matches(at, i, n)[k] == Matches(at, m.end, n)[k - 1];
    }
  }

  /**
   * Nothing is missed: every position from `i` on where the matcher succeeds lies inside
   * a reported match (at its start, or within a match that was taken first).
   */
  lemma {:induction false} MatchesCover(at: nat -> Option<Segment>, i: nat, n: nat, j: nat)
    requires i <= j <= n && Forward(at, n) && at(j).Some?
    ensures exists k :: (0 <= k < |Matches(at, i, n)| &&
      Matches(at, i, n)[k].start <= j < Matches(at, i, n)[k].end)
    decreases n - i
  {
    var ms := Matches(at, i, n);
    var hit := Search(at, i, n);
    assert hit.Some?;
    var m := hit.value.1;
    assert at(hit.value.0) == Some(m);
    if j < m.end {
      assert ms[0] == m;
    } else {
      MatchesCover(at, m.end, n, j);
      var k :| 0 <= k < |Matches(at, m.end, n)| &&
        Matches(at, m.end, n)[k].start <= j < Matches(at, m.end, n)[k].end;
      assert ms[k + 1] == Matches(at, m.end, n)[k];
    }
  }

  /** No match anywhere: `re.findall` returns nothing. */
  lemma MatchesNone(at: nat -> Option<Segment>, i: nat, n: nat)
    requires i <= n && Forward(at, n)
    requires forall j :: i <= j <= n ==> at(j).None?
    ensures Matches(at, i, n) == []
  {
  }

  /** The segment pattern is a forward matcher over its text. */
  lemma SegmentsForward(s: string)
    ensures Forward(SegmentsIn(s), |s|)
  {
    forall j: nat | SegmentsIn(s)(j).Some?
      ensures SegmentsIn(s)(j).value.start == j
      ensures j < SegmentsIn(s)(j).value.d1.start < SegmentsIn(s)(j).value.d2.end
      ensures SegmentsIn(s)(j).value.d2.end <= SegmentsIn(s)(j).value.end <= |s|
    {
      assert SegmentsIn(s)(j) == SegmentAt(s, j);
    }
  }

  /** Every match of the segment pattern in the text, in order. */
  function FindAll(s: string): (ms: seq<Segment>)
    ensures forall k :: 0 <= k < |ms| ==> ms[k].d1.start < ms[k].d2.end <= ms[k].end <= |s|
  {
    SegmentsForward(s);
    Matches(SegmentsIn(s), 0, |s|)
  }

  /** Each match `re.findall` reports is the segment pattern's match at its start. */
  lemma FindAllSegment(s: string, k: nat)
    requires k < |FindAll(s)|
    ensures SegmentAt(s, FindAll(s)[k].start) == Some(FindAll(s)[k])
  {
    SegmentsForward(s);
    MatchesAt(SegmentsIn(s), 0, |s|, k);
    assert SegmentsIn(s)(FindAll(s)[k].start) == SegmentAt(s, FindAll(s)[k].start);
  }

  /** The matches come in text order and do not overlap. */
  lemma FindAllOrdered(s: string)
    ensures forall k, l :: 0 <= k < l < |FindAll(s)| ==> FindAll(s)[k].end <= FindAll(s)[l].start
  {
    SegmentsForward(s);
    MatchesOrdered(SegmentsIn(s), 0, |s|);
  }

  /** Every position where the pattern matches lies inside a reported match. */
  lemma FindAllComplete(s: string, j: nat)
    requires SegmentAt(s, j).Some?
    ensures exists k :: (0 <= k < |FindAll(s)| && FindAll(s)[k].start <= j < FindAll(s)[k].end)
  {
    SegmentsForward(s);
    assert SegmentsIn(s)(j) == SegmentAt(s, j);
    MatchesCover(SegmentsIn(s), 0, |s|, j);
    var ms := Matches(SegmentsIn(s), 0, |s|);
    assert FindAll(s) == ms;
    var k :| 0 <= k < |ms| && ms[k].start <= j < ms[k].end;
    assert FindAll(s)[k].start <= j < FindAll(s)[k].end;
  }

  /** A page without "Offer Date:" (in any case) yields no match. */
  lemma FindAllNoAnchor(s: string)
    requires forall j :: 0 <= j <= |s| ==> !AnchorAt(s, j)
    ensures FindAll(s) == [] && Blocks(FindAllGroups(s)) == []
  {
    SegmentsForward(s);
    forall j: nat | j <= |s| ensures SegmentsIn(s)(j).None? {
      assert SegmentsIn(s)(j) == SegmentAt(s, j);
    }
    MatchesNone(SegmentsIn(s), 0, |s|);
  }

  /**
   * The body of a match stops at the first "Offer Date:" (any case) after the range, or at
   * the end of the text (before a final newline): it never holds another anchor.
   */
  lemma SegmentBody(s: string, j: nat)
    requires SegmentAt(s, j).Some?
    ensures var m := SegmentAt(s, j).value;
      StopAt(s, m.end) && forall k :: m.d2.end <= k < m.end ==> !AnchorAt(s, k)
  {
    SegmentAtIs(s, j);
    var m := SegmentAt(s, j).value;
    forall k | m.d2.end <= k < m.end ensures !AnchorAt(s, k) {
      assert !StopAt(s, k);
    }
  }

  // --------------------------------------------------------------- blocks

  /** The two groups `re.findall` returns for one match: the date range and the body. */
  datatype Groups = Groups(datePart: string, dataPart: string)

  function GroupsOf(s: string, m: Segment): Groups
    requires m.d1.start <= m.d2.end <= m.end <= |s|
  {
    Groups(s[m.d1.start..m.d2.end], s[m.d2.end..m.end])
  }

  /** `pattern.findall(text)`: the groups of every match, in order. */
  function FindAllGroups(s: string): (gs: seq<Groups>)
    ensures |gs| == |FindAll(s)|
  {
    var ms := FindAll(s);
    seq(|ms|, k requires 0 <= k < |ms| => GroupsOf(s, ms[k]))
  }

  /** `f"Offer Date: {date_part}{data_part}"`. */
  function BlockText(g: Groups): string {
    "Offer Date: " + g.datePart + g.dataPart
  }

  /** `[line.strip() for line in lines if line.strip()]`. */
  function StrippedLines(lines: seq<string>): (r: seq<string>)
    ensures |r| <= |lines|
    ensures forall k :: 0 <= k < |r| ==> r[k] != [] && Strip(r[k]) == r[k]
  {
    if lines == [] then []
    else
      var t := Strip(lines[0]);
      StripStripped(lines[0]);
      if t != [] then [t] + StrippedLines(lines[1..]) else StrippedLines(lines[1..])
  }

  /** The comprehension works line by line, so the kept lines stay in their order. */
  lemma {:induction false} StrippedLinesAppend(a: seq<string>, b: seq<string>)
    ensures StrippedLines(a + b) == StrippedLines(a) + StrippedLines(b)
    decreases |a|
  {
    if a == [] {
      assert a + b == b;
    } else {
      var t := Strip(a[0]);
      assert (a + b)[0] == a[0] && (a + b)[1..] == a[1..] + b;
      StrippedLinesAppend(a[1..], b);
      if t != [] {
        assert StrippedLines(a) == [t] + StrippedLines(a[1..]);
      } else {
        assert StrippedLines(a) == StrippedLines(a[1..]);
      }
    }
  }

  /** One line gives its stripped form when that is not empty, and nothing otherwise. */
  lemma StrippedLine(line: string)
    ensures StrippedLines([line]) == if Strip(line) == [] then [] else [Strip(line)]
  {
    assert [line][1..] == [];
  }

  /** The first twenty non-empty stripped lines of a block text. */
  function CleanLines(text: string): (r: seq<string>)
    ensures var all := StrippedLines(Split(text, '\n'));
      |r| == (if |all| <= 20 then |all| else 20) && r == all[..|r|]
    ensures |r| <= 20
    ensures forall k :: 0 <= k < |r| ==> r[k] != [] && Strip(r[k]) == r[k]
  {
    var lines := StrippedLines(Split(text, '\n'));
    if |lines| <= 20 then lines else lines[..20]
  }

  /** The block `split_ipo_blocks_v2` returns for one match. */
  function Block(g: Groups): string {
    Join(CleanLines(BlockText(g)), '\n')
  }

  /** The cleaned lines of every match's block, in match order. */
  function AllLines(gs: seq<Groups>): (ls: seq<seq<string>>)
    ensures |ls| == |gs|
  {
    seq(|gs|, k requires 0 <= k < |gs| => CleanLines(BlockText(gs[k])))
  }

  /** `if clean_lines: blocks.append('\n'.join(clean_lines))` over each match's lines. */
  function JoinKept(ls: seq<seq<string>>): (r: seq<string>)
    ensures |r| <= |ls|
  {
    if ls == [] then []
    else
      var rest := JoinKept(ls[..|ls| - 1]);
      var last := ls[|ls| - 1];
      if |last| >= 1 then rest + [Join(last, '\n')] else rest
  }

  /** The blocks of the matches' groups `gs`, skipping a match whose block has no line. */
  function Blocks(gs: seq<Groups>): seq<string> {
    JoinKept(AllLines(gs))
  }

  /** One more match adds its joined lines, or nothing when it has none. */
  lemma JoinKeptStep(ls: seq<seq<string>>, i: nat)
    requires i < |ls|
    ensures JoinKept(ls[..i + 1]) ==
      if |ls[i]| >= 1 then JoinKept(ls[..i]) + [Join(ls[i], '\n')] else JoinKept(ls[..i])
  {
    assert ls[..i + 1][..i] == ls[..i];
    assert ls[..i + 1][i] == ls[i];
  }

  /** `split_ipo_blocks_v2`. */
  method SplitIpoBlocks(text: string) returns (blocks: seq<string>)
    ensures blocks == Blocks(FindAllGroups(text))
  {
    var matches := FindAllGroups(text);
    blocks := [];
    for i := 0 to |matches|
      invariant blocks == JoinKept(AllLines(matches)[..i])
    {
      var datePart, dataPart := matches[i].datePart, matches[i].dataPart;
      var block := "Offer Date: " + datePart + dataPart;
      var lines := StrippedLines(Split(block, '\n'));
      var cleanLines := if |lines| <= 20 then lines else lines[..20];
      JoinKeptStep(AllLines(matches), i);
      assert cleanLines == AllLines(matches)[i];
      if |cleanLines| >= 1 {
        blocks := blocks + [Join(cleanLines, '\n')];
      }
    }
    assert AllLines(matches)[..|matches|] == AllLines(matches);
  }

  /** When every match has a line, each one gives a block, in order. */
  lemma {:induction false} JoinKeptAll(ls: seq<seq<string>>, n: nat)
    requires forall k :: 0 <= k < |ls| ==> |ls[k]| >= 1
    requires n <= |ls|
    ensures |JoinKept(ls[..n])| == n
    ensures forall k :: 0 <= k < n ==> JoinKept(ls[..n])[k] == Join(ls[k], '\n')
  {
    if n > 0 {
      JoinKeptAll(ls, n - 1);
      JoinKeptStep(ls, n - 1);
      var prev := JoinKept(ls[..n - 1]);
      forall k | 0 <= k < n ensures JoinKept(ls[..n])[k] == Join(ls[k], '\n') {
        if k < n - 1 { assert JoinKept(ls[..n])[k] == prev[k]; }
      }
    }
  }

  /** `split_ipo_blocks_v2` drops no match: one block per match, in match order. */
  lemma SplitIpoBlocksAll(s: string)
    ensures |Blocks(FindAllGroups(s))| == |FindAll(s)|
    ensures forall k :: 0 <= k < |FindAll(s)| ==>
      Blocks(FindAllGroups(s))[k] == Block(GroupsOf(s, FindAll(s)[k]))
  {
    var ls := AllLines(FindAllGroups(s));
    forall k | 0 <= k < |ls| ensures |ls[k]| >= 1 {
      BlockHasLine(FindAllGroups(s)[k]);
    }
    JoinKeptAll(ls, |ls|);
    assert ls[..|ls|] == ls;
  }

  /**
   * Every block keeps at least its first line, which starts with "Offer Date: ", so
   * `if clean_lines` never drops a match.
   */
  lemma BlockHasLine(g: Groups)
    ensures |CleanLines(BlockText(g))| >= 1
  {
    var lit, rest := "Offer Date: ", g.datePart + g.dataPart;
    assert BlockText(g) == lit + rest;
    SplitFirst(lit, rest, '\n');
    var first := Split(lit + rest, '\n')[0];
    assert first[0] == 'O';
    assert Strip(first) != [];
  }

  /** Stripping lines that hold no separator gives lines that hold none either. */
  lemma {:induction false} StrippedLinesNoSep(lines: seq<string>, c: char)
    requires forall k :: 0 <= k < |lines| ==> c !in lines[k]
    ensures forall k :: 0 <= k < |StrippedLines(lines)| ==> c !in StrippedLines(lines)[k]
  {
    if lines != [] {
      StrippedLinesNoSep(lines[1..], c);
      StripChars(lines[0], c);
      var rest := StrippedLines(lines[1..]);
      forall k | 0 <= k < |rest| ensures c !in rest[k] {
        assert rest[k] == StrippedLines(lines[1..])[k];
      }
    }
  }

  /**
   * A block is its cleaned lines joined by newlines: splitting it at newlines gives back
   * between one and twenty lines, each non-empty and already stripped.
   */
  lemma BlockLines(g: Groups)
    ensures Split(Block(g), '\n') == CleanLines(BlockText(g))
    ensures 1 <= |Split(Block(g), '\n')| <= 20
    ensures forall k :: 0 <= k < |Split(Block(g), '\n')| ==>
      Split(Block(g), '\n')[k] != [] && Strip(Split(Block(g), '\n')[k]) == Split(Block(g), '\n')[k]
  {
    var parts := Split(BlockText(g), '\n');
    StrippedLinesNoSep(parts, '\n');
    var ls := CleanLines(BlockText(g));
    forall k | 0 <= k < |ls| ensures '\n' !in ls[k] {
      assert ls[k] == StrippedLines(parts)[k];
    }
    BlockHasLine(g);
    SplitJoin(ls, '\n');
  }

  /** A block whose date part is one line ending in a non-space starts with that part. */
  lemma BlockStartsWith(g: Groups)
    requires g.datePart != [] && '\n' !in g.datePart && !IsSpace(g.datePart[|g.datePart| - 1])
    ensures var head := "Offer Date: " + g.datePart;
      |Block(g)| >= |head| && Block(g)[..|head|] == head
  {
    var head := "Offer Date: " + g.datePart;
    assert '\n' !in head && head[0] == 'O' && head[|head| - 1] == g.datePart[|g.datePart| - 1];
    assert BlockText(g) == head + g.dataPart;
    SplitFirst(head, g.dataPart, '\n');
    var rest := Split(g.dataPart, '\n')[0];
    StripPrefix(head, rest);
    CleanLinesFirst(head + g.dataPart);
    JoinFirst(CleanLines(BlockText(g)), '\n');
  }

  /** A text whose first line is not blank keeps that line, stripped, as its first clean line. */
  lemma CleanLinesFirst(text: string)
    requires Strip(Split(text, '\n')[0]) != []
    ensures |CleanLines(text)| >= 1 && CleanLines(text)[0] == Strip(Split(text, '\n')[0])
  {
  }

  /**
   * The date part of a match is the range as the page wrote it, "Aug 4, 2025 - Aug 6, 2025",
   * so its block starts with "Offer Date: " and that range.
   */
  lemma SegmentBlockStart(s: string, m: Segment)
    requires SegmentAt(s, m.start) == Some(m)
    ensures SpanIn(s, m.d1) && SpanIn(s, m.d2)
    ensures var head := "Offer Date: " + RangeString(SpanText(s, m.d1), SpanText(s, m.d2));
      |Block(GroupsOf(s, m))| >= |head| && Block(GroupsOf(s, m))[..|head|] == head
  {
    SegmentAtIs(s, m.start);
    RangeAtText(s, m.d1.start);
    RangeAtWellFormed(s, m.d1.start);
    RangeStringLine(SpanText(s, m.d1), SpanText(s, m.d2));
    BlockStartsWith(GroupsOf(s, m));
  }
}
