/** The Option wrapper used for every field that Python leaves as `None`. */
module Wrappers {
  datatype Option<+T> = None | Some(value: T)
}

/**
 * Characters as the scraper's regular expressions and `str` methods see them.
 * Letters, digits and case folding are ASCII; whitespace is Python's `str.isspace()`
 * set, which is what `\s`, `str.strip()` and the `\s+` of `re.sub` all use.
 */
module Chars {
  predicate IsDigit(c: char) { '0' <= c <= '9' }
  predicate IsUpper(c: char) { 'A' <= c <= 'Z' }
  predicate IsLower(c: char) { 'a' <= c <= 'z' }
  predicate IsLetter(c: char) { IsUpper(c) || IsLower(c) }

  predicate IsSpace(c: char) {
    || c == ' ' || ('\t' <= c <= '\r') || ('\U{1C}' <= c <= '\U{1F}')
    || c == '\U{85}' || c == '\U{A0}' || c == '\U{1680}' || ('\U{2000}' <= c <= '\U{200A}')
    || c == '\U{2028}' || c == '\U{2029}' || c == '\U{202F}' || c == '\U{205F}' || c == '\U{3000}'
  }

  /** Lower-casing used by `re.IGNORECASE` on the lower-case literals of the patterns. */
  function Fold(c: char): (d: char)
    ensures IsUpper(c) ==> IsLower(d) && d != c
    ensures !IsUpper(c) ==> d == c
  {
    if IsUpper(c) then (c as int + 32) as char else c
  }

  function DigitValue(c: char): (v: nat)
    requires IsDigit(c)
    ensures v < 10
  {
    c as int - '0' as int
  }

  function DigitChar(d: nat): (c: char)
    requires d < 10
    ensures IsDigit(c) && DigitValue(c) == d
  {
    ('0' as int + d) as char
  }

  /** The character classes that occur in the scraper's patterns. */
  datatype CharClass =
    | Digit          // \d
    | Space          // \s
    | Letter         // [A-Za-z]
    | LetterOrSpace  // [A-Za-z\s]
    | NameChar       // [A-Za-z\s&.-]
    | DigitOrDot     // [\d.]
    | DigitOrDash    // [\d\-]
    | DigitDashSpace // [\d\-\s]
    | PunctOrSpace   // [.\-\s]
    | NumericLike    // [0-9\s\-\.]
    | NotBar         // [^|]
    | NotOpenParen   // [^(]
    | NotNewline     // . without DOTALL
    | NonSpace       // \S

  predicate InClass(c: char, k: CharClass) {
    match k
    case Digit => IsDigit(c)
    case Space => IsSpace(c)
    case Letter => IsLetter(c)
    case LetterOrSpace => IsLetter(c) || IsSpace(c)
    case NameChar => IsLetter(c) || IsSpace(c) || c == '&' || c == '.' || c == '-'
    case DigitOrDot => IsDigit(c) || c == '.'
    case DigitOrDash => IsDigit(c) || c == '-'
    case DigitDashSpace => IsDigit(c) || c == '-' || IsSpace(c)
    case PunctOrSpace => c == '.' || c == '-' || IsSpace(c)
    case NumericLike => IsDigit(c) || IsSpace(c) || c == '-' || c == '.'
    case NotBar => c != '|'
    case NotOpenParen => c != '('
    case NotNewline => c != '\n'
    case NonSpace => !IsSpace(c)
  }
}

/** String primitives: runs of a class, literals, strip/split/join and decimal numerals. */
module Text {
  import opened Wrappers
  import opened Chars

  /** Every character of `s[lo..hi]` is in class `k`. */
  predicate AllIn(s: string, lo: nat, hi: nat, k: CharClass)
    requires lo <= hi <= |s|
  {
    forall m :: lo <= m < hi ==> InClass(s[m], k)
  }

  predicate AllDigits(s: string) {
    forall m :: 0 <= m < |s| ==> IsDigit(s[m])
  }

  /** The end of the longest run of class `k` that starts at `i`: what a greedy `[k]*` consumes. */
  function RunEnd(s: string, i: nat, k: CharClass): (j: nat)
    requires i <= |s|
    ensures i <= j <= |s|
    decreases |s| - i
  {
    if i < |s| && InClass(s[i], k) then RunEnd(s, i + 1, k) else i
  }

  /** The run RunEnd measures is all of class `k`, and the character after it is not. */
  lemma {:induction false} RunEndSpec(s: string, i: nat, k: CharClass)
    requires i <= |s|
    ensures AllIn(s, i, RunEnd(s, i, k), k)
    ensures RunEnd(s, i, k) == |s| || !InClass(s[RunEnd(s, i, k)], k)
    decreases |s| - i
  {
    if i < |s| && InClass(s[i], k) {
      RunEndSpec(s, i + 1, k);
    }
  }

  /** A maximal run is unique: any run of `k` from `i` that stops at a non-member is RunEnd's. */
  lemma {:induction false} RunEndIs(s: string, i: nat, j: nat, k: CharClass)
    requires i <= j <= |s|
    requires AllIn(s, i, j, k)
    requires j == |s| || !InClass(s[j], k)
    ensures RunEnd(s, i, k) == j
    decreases j - i
  {
    if i < j {
      RunEndIs(s, i + 1, j, k);
    }
  }

  /** The literal `lit` occurs at position `i` (case-sensitive). */
  predicate LitAt(s: string, i: nat, lit: string) {
    i + |lit| <= |s| && s[i..i + |lit|] == lit
  }

  /** The lower-case literal `lit` occurs at `i` under ASCII case folding (`re.IGNORECASE`). */
  predicate FoldLitAt(s: string, i: nat, lit: string) {
    i + |lit| <= |s| && forall m :: 0 <= m < |lit| ==> Fold(s[i + m]) == lit[m]
  }

  /** An exact occurrence of a literal with no upper-case letter is also a case-folded one. */
  lemma LitFoldLitAt(s: string, i: nat, lit: string)
    requires LitAt(s, i, lit) && forall m :: 0 <= m < |lit| ==> !IsUpper(lit[m])
    ensures FoldLitAt(s, i, lit)
  {
    forall m | 0 <= m < |lit| ensures Fold(s[i + m]) == lit[m] {
      assert s[i + m] == s[i..i + |lit|][m];
    }
  }

  /** Python's `sub in s`. */
  predicate Contains(s: string, sub: string) {
    exists i | 0 <= i <= |s| :: LitAt(s, i, sub)
  }

  /** What `\s*$` accepts at position `t`: only whitespace remains. */
  predicate RestIsSpace(s: string, t: nat) {
    forall m :: t <= m < |s| ==> IsSpace(s[m])
  }

  // ---------------------------------------------------------------- strip

  /** Where the trailing whitespace of `s[lo..j]` starts. */
  function TrailStart(s: string, lo: nat, j: nat): (k: nat)
    requires lo <= j <= |s|
    ensures lo <= k <= j
    decreases j - lo
  {
    if j > lo && IsSpace(s[j - 1]) then TrailStart(s, lo, j - 1) else j
  }

  /** `s[k..j]` is all whitespace and `s[k - 1]` is not, unless the scan reached `lo`. */
  lemma {:induction false} TrailStartSpec(s: string, lo: nat, j: nat)
    requires lo <= j <= |s|
    ensures AllIn(s, TrailStart(s, lo, j), j, Space)
    ensures TrailStart(s, lo, j) == lo || !IsSpace(s[TrailStart(s, lo, j) - 1])
    decreases j - lo
  {
    if j > lo && IsSpace(s[j - 1]) {
      TrailStartSpec(s, lo, j - 1);
    }
  }

  /** Where the text `str.strip()` keeps starts. */
  function StripStart(s: string): nat {
    RunEnd(s, 0, Space)
  }

  /** Python's `str.strip()` with no argument. */
  function Strip(s: string): (r: string)
    ensures r == [] || (!IsSpace(r[0]) && !IsSpace(r[|r| - 1]))
    ensures r == [] <==> forall m :: 0 <= m < |s| ==> IsSpace(s[m])
  {
    var a := StripStart(s);
    var k := TrailStart(s, a, |s|);
    RunEndSpec(s, 0, Space);
    TrailStartSpec(s, a, |s|);
    assert a < |s| ==> k > a;
    s[a..k]
  }

  /** Text with no whitespace at either end is its own strip. */
  lemma StripSame(s: string)
    requires s != [] && !IsSpace(s[0]) && !IsSpace(s[|s| - 1])
    ensures Strip(s) == s
  {
    RunEndIs(s, 0, 0, Space);
    assert TrailStart(s, 0, |s|) == |s|;
  }

  /** A digit string is its own strip. */
  lemma StripDigits(s: string)
    requires AllDigits(s)
    ensures Strip(s) == s
  {
    if s != [] { StripSame(s); } else { assert StripStart(s) == 0; }
  }

  /**
   * The stripped text is found in place in the original, with only whitespace before it
   * and only whitespace after it.
   */
  lemma StripIn(s: string)
    ensures LitAt(s, StripStart(s), Strip(s))
    ensures forall m :: 0 <= m < StripStart(s) ==> IsSpace(s[m])
    ensures forall m :: StripStart(s) + |Strip(s)| <= m < |s| ==> IsSpace(s[m])
  {
    RunEndSpec(s, 0, Space);
    TrailStartSpec(s, StripStart(s), |s|);
  }

  /** `re.sub(r'[^k]', '', s)`: keeps the characters of class `k`, in order. */
  function Keep(s: string, k: CharClass): (r: string)
    ensures |r| <= |s|
    ensures forall m :: 0 <= m < |r| ==> InClass(r[m], k)
  {
    if s == [] then []
    else if InClass(s[0], k) then [s[0]] + Keep(s[1..], k)
    else Keep(s[1..], k)
  }

  /** Keeping a class drops nothing from text made of that class. */
  lemma {:induction false} KeepAll(s: string, k: CharClass)
    requires forall m :: 0 <= m < |s| ==> InClass(s[m], k)
    ensures Keep(s, k) == s
  {
    if s != [] {
      KeepAll(s[1..], k);
      assert [s[0]] + s[1..] == s;
    }
  }

  /** Keeping a class works piecewise, so the kept characters stay in their order. */
  lemma {:induction false} KeepAppend(a: string, b: string, k: CharClass)
    ensures Keep(a + b, k) == Keep(a, k) + Keep(b, k)
    decreases |a|
  {
    if a == [] {
      assert a + b == b;
    } else {
      assert (a + b)[1..] == a[1..] + b;
      KeepAppend(a[1..], b, k);
    }
  }

  /** Every occurrence of a character of the class is kept. */
  lemma {:induction false} KeepCount(s: string, k: CharClass, c: char)
    requires InClass(c, k)
    ensures Count(Keep(s, k), c) == Count(s, c)
    decreases |s|
  {
    if s != [] {
      KeepCount(s[1..], k, c);
      if InClass(s[0], k) {
        assert ([s[0]] + Keep(s[1..], k))[1..] == Keep(s[1..], k);
      }
    }
  }

  /** Text with no character of the class keeps nothing. */
  lemma {:induction false} KeepNone(s: string, k: CharClass)
    requires forall m :: 0 <= m < |s| ==> !InClass(s[m], k)
    ensures Keep(s, k) == []
    decreases |s|
  {
    if s != [] { KeepNone(s[1..], k); }
  }

  /** Every character `str.strip()` keeps comes from the original text. */
  lemma StripChars(s: string, c: char)
    requires c !in s
    ensures c !in Strip(s)
  {
    StripIn(s);
    var a := StripStart(s);
    forall m | 0 <= m < |Strip(s)| ensures Strip(s)[m] != c {
      assert Strip(s)[m] == s[a..a + |Strip(s)|][m] == s[a + m];
    }
  }

  /** A stripped line is its own strip. */
  lemma StripStripped(s: string)
    ensures Strip(Strip(s)) == Strip(s)
  {
    var t := Strip(s);
    if t != [] { StripSame(t); } else { assert StripStart(t) == 0; }
  }

  /** The trailing whitespace of `s[lo..j]` starts after any non-space at `q`. */
  lemma {:induction false} TrailStartAbove(s: string, lo: nat, j: nat, q: nat)
    requires lo <= q < j <= |s| && !IsSpace(s[q])
    ensures TrailStart(s, lo, j) > q
    decreases j - lo
  {
    if j - 1 > q { TrailStartAbove(s, lo, j - 1, q); }
  }

  /** Stripping `x + z` keeps `x` whole when `x` starts and ends with non-whitespace. */
  lemma StripPrefix(x: string, z: string)
    requires x != [] && !IsSpace(x[0]) && !IsSpace(x[|x| - 1])
    ensures |Strip(x + z)| >= |x| && Strip(x + z)[..|x|] == x
  {
    var s := x + z;
    RunEndIs(s, 0, 0, Space);
    assert s[|x| - 1] == x[|x| - 1];
    TrailStartAbove(s, 0, |s|, |x| - 1);
    assert s[..|x|] == x;
  }

  // ---------------------------------------------------------- split/join

  /** Number of occurrences of `c` in `s`. */
  function Count(s: string, c: char): (n: nat)
    ensures n == 0 <==> c !in s
  {
    if s == [] then 0 else (if s[0] == c then 1 else 0) + Count(s[1..], c)
  }

  /** Python's `sep.join(ls)` for a one-character separator. */
  function Join(ls: seq<string>, c: char): string {
    if |ls| == 0 then []
    else if |ls| == 1 then ls[0]
    else ls[0] + [c] + Join(ls[1..], c)
  }

  /** Python's `s.split(c)` for a one-character separator. */
  function Split(s: string, c: char): (parts: seq<string>)
    ensures |parts| == Count(s, c) + 1
    ensures forall k :: 0 <= k < |parts| ==> c !in parts[k]
  {
    if s == [] then [[]]
    else
      var rest := Split(s[1..], c);
      if s[0] == c then [[]] + rest
      else
        assert c !in [s[0]] + rest[0];
        [[s[0]] + rest[0]] + rest[1..]
  }

  /** Joining the parts of a split gives the text back. */
  lemma {:induction false} JoinSplit(s: string, c: char)
    ensures Join(Split(s, c), c) == s
    decreases |s|
  {
    if s != [] {
      var rest := Split(s[1..], c);
      JoinSplit(s[1..], c);
      var parts := Split(s, c);
      if s[0] == c {
        assert parts[1..] == rest;
        assert [c] + s[1..] == s;
      } else {
        assert parts[1..] == rest[1..];
        assert [s[0]] + s[1..] == s;
        if |rest| > 1 {
          assert Join(rest, c) == rest[0] + [c] + Join(rest[1..], c);
        }
      }
    }
  }

  /** The first part of a split of `x + y` starts with `x`, when `x` holds no separator. */
  lemma {:induction false} SplitFirst(x: string, y: string, c: char)
    requires c !in x
    ensures Split(x + y, c)[0] == x + Split(y, c)[0]
    decreases |x|
  {
    if x != [] {
      assert (x + y)[1..] == x[1..] + y;
      SplitFirst(x[1..], y, c);
      SplitCons(x + y, c);
      assert [x[0]] + (x[1..] + Split(y, c)[0]) == x + Split(y, c)[0];
    } else {
      assert x + y == y;
    }
  }

  /** A join starts with its first piece. */
  lemma JoinFirst(ls: seq<string>, c: char)
    requires |ls| >= 1
    ensures |Join(ls, c)| >= |ls[0]| && Join(ls, c)[..|ls[0]|] == ls[0]
  {
    if |ls| > 1 {
      assert Join(ls, c) == ls[0] + ([c] + Join(ls[1..], c));
    }
  }

  lemma {:induction false} SplitNoSep(a: string, c: char)
    requires c !in a
    ensures Split(a, c) == [a]
  {
    assert Count(a, c) == 0;
    var parts := Split(a, c);
    JoinSplit(a, c);
    assert |parts| == 1 && Join(parts, c) == parts[0];
  }

  lemma {:induction false} SplitAtSep(a: string, b: string, c: char)
    requires c !in a
    ensures Split(a + [c] + b, c) == [a] + Split(b, c)
    decreases |a|
  {
    var s := a + [c] + b;
    if a == [] {
      assert s[0] == c && s[1..] == b;
    } else {
      assert s[1..] == a[1..] + [c] + b;
      SplitAtSep(a[1..], b, c);
      SplitCons(s, c);
      assert [s[0]] + a[1..] == a;
    }
  }

  /** Splitting a text that does not start with the separator extends its first part. */
  lemma SplitCons(s: string, c: char)
    requires s != [] && s[0] != c
    ensures Split(s, c) == [[s[0]] + Split(s[1..], c)[0]] + Split(s[1..], c)[1..]
  {
  }

  /** Splitting a join gives the pieces back, when no piece holds the separator. */
  lemma {:induction false} SplitJoin(ls: seq<string>, c: char)
    requires |ls| >= 1
    requires forall k :: 0 <= k < |ls| ==> c !in ls[k]
    ensures Split(Join(ls, c), c) == ls
    decreases |ls|
  {
    if |ls| == 1 {
      SplitNoSep(ls[0], c);
    } else {
      SplitJoin(ls[1..], c);
      SplitAtSep(ls[0], Join(ls[1..], c), c);
      assert [ls[0]] + ls[1..] == ls;
    }
  }

  // ------------------------------------------------------------- numbers

  /** The value of a decimal numeral (leading zeros allowed, the empty numeral is 0). */
  function Value(s: string): nat
    requires AllDigits(s)
  {
    if s == [] then 0 else Value(s[..|s| - 1]) * 10 + DigitValue(s[|s| - 1])
  }

  /** The canonical decimal numeral of `n`, as Python's `str(n)` writes it. */
  function Show(n: nat): (r: string)
    ensures |r| >= 1 && AllDigits(r)
    ensures r[0] == '0' ==> n == 0
  {
    if n < 10 then [DigitChar(n)] else Show(n / 10) + [DigitChar(n % 10)]
  }

  lemma {:induction false} ValueShow(n: nat)
    ensures Value(Show(n)) == n
  {
    if n >= 10 {
      var s := Show(n);
      assert s[..|s| - 1] == Show(n / 10);
      ValueShow(n / 10);
    }
  }

  lemma ValuePush(a: string, c: char)
    requires AllDigits(a) && IsDigit(c)
    ensures AllDigits(a + [c]) && Value(a + [c]) == Value(a) * 10 + DigitValue(c)
  {
    assert (a + [c])[..|a|] == a;
  }

  /** The value of a one- or two-digit numeral. */
  lemma ValueShort(s: string)
    requires AllDigits(s) && 1 <= |s| <= 2
    ensures |s| == 1 ==> Value(s) == DigitValue(s[0])
    ensures |s| == 2 ==> Value(s) == DigitValue(s[0]) * 10 + DigitValue(s[1])
  {
    ValuePush([], s[0]);
    assert [] + [s[0]] == s[..1];
    if |s| == 2 {
      ValuePush(s[..1], s[1]);
      assert s[..1] + [s[1]] == s;
    } else {
      assert s[..1] == s;
    }
  }

  lemma {:induction false} ValueBound(s: string)
    requires AllDigits(s)
    ensures Value(s) < Pow10(|s|)
    decreases |s|
  {
    if s != [] { ValueBound(s[..|s| - 1]); }
  }

  /** The `w` low decimal digits of `n`, zero-padded, as `%0wd` writes them. */
  function Digits(n: nat, w: nat): (r: string)
    ensures |r| == w && AllDigits(r)
  {
    if w == 0 then [] else Digits(n / 10, w - 1) + [DigitChar(n % 10)]
  }

  lemma {:induction false} ValueDigits(n: nat, w: nat)
    requires n < Pow10(w)
    ensures Value(Digits(n, w)) == n
  {
    if w > 0 {
      ValueDigits(n / 10, w - 1);
      ValuePush(Digits(n / 10, w - 1), DigitChar(n % 10));
    }
  }

  /**
   * Python's `int(t)` on the strings the scraper hands it, which never carry a sign,
   * an underscore or surrounding whitespace: it succeeds exactly on non-empty digit strings.
   */
  function IntOfDigits(t: string): (r: Option<nat>)
    ensures r.Some? <==> t != [] && AllDigits(t)
  {
    if t != [] && AllDigits(t) then Some(Value(t)) else None
  }

  function Pow10(n: nat): (p: nat)
    ensures p >= 1
  {
    if n == 0 then 1 else 10 * Pow10(n - 1)
  }

  /** The exact value of the fraction `0.fp`, read digit by digit from the right. */
  function Fraction(fp: string): (r: real)
    requires AllDigits(fp)
    ensures 0.0 <= r < 1.0
  {
    if fp == [] then 0.0 else (DigitValue(fp[0]) as real + Fraction(fp[1..])) / 10.0
  }

  /** The exact value of the decimal `ip.fp`. */
  function Decimal(ip: string, fp: string): real
    requires AllDigits(ip) && AllDigits(fp)
  {
    Value(ip) as real + Fraction(fp)
  }

  /**
   * Python's `float(t)` on strings of digits and dots: at most one dot and at least one
   * digit, e.g. "13.39", "5.", ".5"; "1.2.3" and "." raise ValueError. Read exactly.
   */
  function FloatOf(t: string): (r: Option<real>)
    requires forall m :: 0 <= m < |t| ==> InClass(t[m], DigitOrDot)
    ensures r.Some? <==> Count(t, '.') <= 1 && Count(t, '.') < |t|
  {
    var parts := Split(t, '.');
    if |parts| == 1 then
      NoDotDigits(t);
      (if t != [] then Some(Value(t) as real) else None)
    else if |parts| == 2 && parts[0] + parts[1] != [] then
      DotSplitDigits(t);
      DotSplitLength(t);
      Some(Decimal(parts[0], parts[1]))
    else
      DotSplitLength(t);
      None
  }

  lemma NoDotDigits(t: string)
    requires forall m :: 0 <= m < |t| ==> InClass(t[m], DigitOrDot)
    requires Count(t, '.') == 0
    ensures AllDigits(t)
  {
    forall m | 0 <= m < |t| ensures IsDigit(t[m]) {
      assert t[m] in t;
    }
  }

  lemma DotSplitDigits(t: string)
    requires forall m :: 0 <= m < |t| ==> InClass(t[m], DigitOrDot)
    ensures forall k :: 0 <= k < |Split(t, '.')| ==> AllDigits(Split(t, '.')[k])
  {
    var parts := Split(t, '.');
    forall k | 0 <= k < |parts| ensures AllDigits(parts[k]) {
      PartsAreDigits(t, k);
    }
  }

  lemma {:induction false} PartsAreDigits(t: string, k: nat)
    requires forall m :: 0 <= m < |t| ==> InClass(t[m], DigitOrDot)
    requires k < |Split(t, '.')|
    ensures AllDigits(Split(t, '.')[k])
    decreases |t|
  {
    if t != [] {
      var rest := Split(t[1..], '.');
      if t[0] == '.' {
        if k > 0 { PartsAreDigits(t[1..], k - 1); }
      } else if k == 0 {
        PartsAreDigits(t[1..], 0);
      } else {
        PartsAreDigits(t[1..], k);
      }
    }
  }

  /** Every part of `t` split at its dots is empty exactly when `t` is made of dots only. */
  lemma DotSplitLength(t: string)
    requires forall m :: 0 <= m < |t| ==> InClass(t[m], DigitOrDot)
    ensures |Split(t, '.')| == 2 ==>
      (Split(t, '.')[0] + Split(t, '.')[1] == [] <==> Count(t, '.') == |t|)
  {
    var parts := Split(t, '.');
    if |parts| == 2 {
      JoinSplit(t, '.');
      JoinLength(parts, '.');
      CountAtMostLength(t, '.');
      assert |t| == |parts[0]| + |parts[1]| + 1;
    }
  }

  lemma {:induction false} JoinLength(ls: seq<string>, c: char)
    requires |ls| == 2
    ensures Join(ls, c) == ls[0] + [c] + ls[1]
  {
    assert ls[1..] == [ls[1]];
  }

  lemma {:induction false} CountAtMostLength(s: string, c: char)
    ensures Count(s, c) <= |s|
    decreases |s|
  {
    if s != [] { CountAtMostLength(s[1..], c); }
  }

  // ------------------------------------------------------- re.sub helpers

  /** `re.sub(r'\s+', ' ', s)`: every maximal whitespace run becomes one space. */
  function Collapse(s: string): (r: string)
    ensures |r| <= |s|
    ensures forall m :: 0 <= m < |r| && IsSpace(r[m]) ==> r[m] == ' '
    ensures forall m :: 0 <= m < |r| - 1 && IsSpace(r[m]) ==> !IsSpace(r[m + 1])
    ensures s != [] && !IsSpace(s[0]) ==> r != [] && r[0] == s[0]
    ensures s != [] && !IsSpace(s[|s| - 1]) ==> r != [] && r[|r| - 1] == s[|s| - 1]
    ensures s == [] ==> r == []
    decreases |s|
  {
    if s == [] then []
    else if IsSpace(s[0]) then
      var j := RunEnd(s, 0, Space);
      RunEndSpec(s, 0, Space);
      var rest := Collapse(s[j..]);
      assert j < |s| ==> !IsSpace(s[j..][0]);
      [' '] + rest
    else
      [s[0]] + Collapse(s[1..])
  }

  /** Collapsing keeps every non-whitespace character, in order. */
  lemma {:induction false} CollapseKeeps(s: string)
    ensures Keep(Collapse(s), NonSpace) == Keep(s, NonSpace)
    decreases |s|, 1
  {
    if s != [] {
      if IsSpace(s[0]) { CollapseKeepsRun(s); } else { CollapseKeepsChar(s); }
    }
  }

  /** The leading whitespace run turns into one space, and neither holds a kept character. */
  lemma {:induction false} CollapseKeepsRun(s: string)
    requires s != [] && IsSpace(s[0])
    ensures Keep(Collapse(s), NonSpace) == Keep(s, NonSpace)
    decreases |s|, 0
  {
    var j := RunEnd(s, 0, Space);
    assert 0 < j && AllIn(s, 0, j, Space) by { RunEndSpec(s, 0, Space); }
    CollapseKeeps(s[j..]);
    assert s == s[..j] + s[j..];
    KeepAppend(s[..j], s[j..], NonSpace);
    KeepNone(s[..j], NonSpace);
    CollapseSpaceLead(s, j);
    KeepCons(' ', Collapse(s[j..]), NonSpace);
  }

  /** A leading non-space character is copied and kept on both sides. */
  lemma {:induction false} CollapseKeepsChar(s: string)
    requires s != [] && !IsSpace(s[0])
    ensures Keep(Collapse(s), NonSpace) == Keep(s, NonSpace)
    decreases |s|, 0
  {
    CollapseKeeps(s[1..]);
    CollapseCharLead(s);
    KeepCons(s[0], Collapse(s[1..]), NonSpace);
    KeepCons(s[0], s[1..], NonSpace);
    assert [s[0]] + s[1..] == s;
  }

  /** Keeping a class, one leading character at a time. */
  lemma KeepCons(c: char, x: string, k: CharClass)
    ensures Keep([c] + x, k) == if InClass(c, k) then [c] + Keep(x, k) else Keep(x, k)
  {
    assert ([c] + x)[1..] == x;
  }

  /** No whitespace run crosses a non-space character, so text up to one collapses alone. */
  lemma {:induction false} CollapseConcat(a: string, b: string)
    requires a == [] || !IsSpace(a[|a| - 1])
    ensures Collapse(a + b) == Collapse(a) + Collapse(b)
    decreases |a|
  {
    if a == [] {
      assert a + b == b;
    } else if IsSpace(a[0]) {
      var j := RunEnd(a, 0, Space);
      assert 0 < j < |a| && RunEnd(a + b, 0, Space) == j by {
        RunEndSpec(a, 0, Space);
        assert j < |a|;
        RunEndIs(a + b, 0, j, Space);
      }
      assert (a + b)[j..] == a[j..] + b;
      assert a[j..][|a| - j - 1] == a[|a| - 1];
      CollapseConcat(a[j..], b);
      CollapseSpaceLead(a, j);
      CollapseSpaceLead(a + b, j);
      var ra, rb := Collapse(a[j..]), Collapse(b);
      ConsConcat(' ', ra, rb);
    } else {
      assert (a + b)[1..] == a[1..] + b;
      assert |a| > 1 ==> a[1..][|a| - 2] == a[|a| - 1];
      CollapseConcat(a[1..], b);
      CollapseCharLead(a);
      CollapseCharLead(a + b);
      var ra, rb := Collapse(a[1..]), Collapse(b);
      ConsConcat(a[0], ra, rb);
    }
  }

  /** Concatenation regroups around a leading character. */
  lemma ConsConcat(c: char, x: string, y: string)
    ensures [c] + (x + y) == ([c] + x) + y
  {
  }

  /** A leading whitespace run becomes one space. */
  lemma CollapseSpaceLead(s: string, j: nat)
    requires s != [] && IsSpace(s[0]) && j <= |s| && RunEnd(s, 0, Space) == j
    ensures Collapse(s) == [' '] + Collapse(s[j..])
  {
  }

  /** A leading non-space character is copied. */
  lemma CollapseCharLead(s: string)
    requires s != [] && !IsSpace(s[0])
    ensures Collapse(s) == [s[0]] + Collapse(s[1..])
  {
  }

  /** A whitespace run before a non-space character, or before the end, becomes one space. */
  lemma CollapseRun(w: string, b: string)
    requires w != [] && AllIn(w, 0, |w|, Space)
    requires b == [] || !IsSpace(b[0])
    ensures Collapse(w + b) == [' '] + Collapse(b)
  {
    RunEndIs(w + b, 0, |w|, Space);
    assert (w + b)[|w|..] == b;
  }

  /** Drops the maximal leading run of class `k`. */
  function DropLeading(s: string, k: CharClass): (r: string)
    ensures |r| <= |s| && r == s[|s| - |r|..]
    ensures r == [] || !InClass(r[0], k)
    ensures forall m :: 0 <= m < |s| - |r| ==> InClass(s[m], k)
  {
    if s != [] && InClass(s[0], k) then DropLeading(s[1..], k) else s
  }

  /** Drops the maximal trailing run of class `k`. */
  function DropTrailing(s: string, k: CharClass): (r: string)
    ensures |r| <= |s| && r == s[..|r|]
    ensures r == [] || !InClass(r[|r| - 1], k)
    ensures forall m :: |r| <= m < |s| ==> InClass(s[m], k)
  {
    if s != [] && InClass(s[|s| - 1], k) then DropTrailing(s[..|s| - 1], k) else s
  }

  // ------------------------------------------------------ literal helpers

  /** What a literal occurrence says about single positions and slices of `s`. */
  lemma LitAtSlice(s: string, p: nat, x: string, k: nat, n: nat)
    requires LitAt(s, p, x) && k + n <= |x|
    ensures s[p + k..p + k + n] == x[k..k + n]
    ensures forall m :: k <= m < k + n ==> s[p + m] == x[m]
  {
    forall m | k <= m < k + n ensures s[p + m] == x[m] {
      assert s[p..p + |x|][m] == s[p + m];
    }
    assert s[p + k..p + k + n] == x[k..k + n];
  }

  /** A slice of a stretch of class `k` is made of class `k`. */
  lemma SliceIn(s: string, lo: nat, hi: nat, k: CharClass)
    requires lo <= hi <= |s| && forall m :: lo <= m < hi ==> InClass(s[m], k)
    ensures forall m :: 0 <= m < |s[lo..hi]| ==> InClass(s[lo..hi][m], k)
  {
    forall m | 0 <= m < hi - lo ensures InClass(s[lo..hi][m], k) {
      assert s[lo..hi][m] == s[lo + m];
    }
  }

  lemma SliceConcat(s: string, i: nat, j: nat, k: nat)
    requires i <= j <= k <= |s|
    ensures s[i..k] == s[i..j] + s[j..k]
  {
  }

  /** A literal whose characters are all in class `k` puts a run of `k` into `s`. */
  lemma LitAtClass(s: string, q: nat, y: string, k: CharClass)
    requires LitAt(s, q, y)
    requires forall m :: 0 <= m < |y| ==> InClass(y[m], k)
    ensures AllIn(s, q, q + |y|, k)
  {
    forall m | q <= m < q + |y| ensures InClass(s[m], k) {
      assert s[m] == s[q..q + |y|][m - q];
    }
  }

  /** The run of `k` that starts at a literal made of `k` ends where the literal ends. */
  lemma LitAtRun(s: string, q: nat, y: string, k: CharClass)
    requires LitAt(s, q, y)
    requires forall m :: 0 <= m < |y| ==> InClass(y[m], k)
    requires q + |y| == |s| || !InClass(s[q + |y|], k)
    ensures RunEnd(s, q, k) == q + |y|
  {
    LitAtClass(s, q, y, k);
    RunEndIs(s, q, q + |y|, k);
  }

  /** A non-empty literal of class `k`, not followed by `k`: the run there starts and ends with it. */
  lemma PieceRun(s: string, q: nat, y: string, k: CharClass)
    requires LitAt(s, q, y) && |y| >= 1
    requires forall m :: 0 <= m < |y| ==> InClass(y[m], k)
    requires q + |y| == |s| || !InClass(s[q + |y|], k)
    ensures InClass(s[q], k) && RunEnd(s, q, k) == q + |y|
  {
    assert s[q] == s[q..q + |y|][0];
    LitAtRun(s, q, y, k);
  }

  /** A literal occurrence inside a concatenation. */
  lemma LitAtConcat(s: string, p: nat, x: string, y: string)
    requires LitAt(s, p, x + y)
    ensures LitAt(s, p, x) && LitAt(s, p + |x|, y)
  {
    LitAtSlice(s, p, x + y, 0, |x|);
    LitAtSlice(s, p, x + y, |x|, |y|);
    assert (x + y)[..|x|] == x;
    assert (x + y)[|x|..|x| + |y|] == y;
  }

  /** A string that holds no 'N' holds no "N/A". */
  lemma NoNA(s: string, sub: string)
    requires |sub| >= 1 && sub[0] !in s
    ensures !Contains(s, sub)
  {
  }

  // ------------------------------------------------------- number lexemes

  /**
   * The end of `\d+\.?\d*` matched at `p` (greedy; this pattern never needs to
   * backtrack, because what may follow it in every pattern is neither a digit nor a dot).
   */
  function NumberAt(s: string, p: nat): (r: Option<nat>)
    ensures r.Some? <==> p < |s| && IsDigit(s[p])
    ensures r.Some? ==> p < r.value <= |s| && IsDigit(s[p])
    ensures r.Some? ==> forall m :: p <= m < r.value ==> InClass(s[m], DigitOrDot)
    ensures r.Some? ==> Count(s[p..r.value], '.') <= 1 && Count(s[p..r.value], '.') < r.value - p
  {
    if p < |s| && IsDigit(s[p]) then
      var j := RunEnd(s, p, Digit);
      RunEndSpec(s, p, Digit);
      if j < |s| && s[j] == '.' then
        var e := RunEnd(s, j + 1, Digit);
        RunEndSpec(s, j + 1, Digit);
        NumberCount(s, p, j, e);
        Some(e)
      else
        assert Count(s[p..j], '.') == 0 by { DigitsNoDot(s[p..j]); }
        Some(j)
    else None
  }

  /** A digit run not followed by a dot is matched whole: `\.?` and `\d*` take nothing. */
  lemma NumberAtInt(s: string, p: nat, j: nat)
    requires p < |s| && IsDigit(s[p]) && RunEnd(s, p, Digit) == j
    requires j == |s| || s[j] != '.'
    ensures NumberAt(s, p) == Some(j)
  {
  }

  /** NumberAt accepts `\d+\.\d*` once its runs are known. */
  lemma NumberAtIs(s: string, p: nat, j: nat, e: nat)
    requires p < |s| && IsDigit(s[p]) && RunEnd(s, p, Digit) == j
    requires j < |s| && s[j] == '.' && RunEnd(s, j + 1, Digit) == e
    ensures NumberAt(s, p) == Some(e)
  {
  }

  /** `\d+\.\d*` over the text `x.f` written at `p`, not followed by a digit. */
  lemma NumberAtDecimal(s: string, p: nat, x: string, f: string)
    requires x != [] && AllDigits(x) && AllDigits(f)
    requires LitAt(s, p, x + "." + f)
    requires p + |x| + 1 + |f| == |s| || !IsDigit(s[p + |x| + 1 + |f|])
    ensures NumberAt(s, p) == Some(p + |x| + 1 + |f|)
  {
    var j := p + |x|;
    DecimalRuns(s, p, x, f);
    NumberAtIs(s, p, j, j + 1 + |f|);
  }

  /** The two digit runs of a decimal `x.f` written at `p`. */
  lemma DecimalRuns(s: string, p: nat, x: string, f: string)
    requires x != [] && AllDigits(x) && AllDigits(f)
    requires LitAt(s, p, x + "." + f)
    requires p + |x| + 1 + |f| == |s| || !IsDigit(s[p + |x| + 1 + |f|])
    ensures p < |s| && IsDigit(s[p]) && RunEnd(s, p, Digit) == p + |x|
    ensures p + |x| < |s| && s[p + |x|] == '.' && RunEnd(s, p + |x| + 1, Digit) == p + |x| + 1 + |f|
  {
    LitAtConcat(s, p, x + ".", f);
    LitAtConcat(s, p, x, ".");
    var j := p + |x|;
    assert s[j] == s[j..j + 1][0];
    PieceRun(s, p, x, Digit);
    LitAtRun(s, j + 1, f, Digit);
  }

  lemma DigitsNoDot(t: string)
    requires AllDigits(t)
    ensures Count(t, '.') == 0
  {
    assert '.' !in t;
  }

  lemma NumberCount(s: string, p: nat, j: nat, e: nat)
    requires p < j && j + 1 <= e <= |s|
    requires AllIn(s, p, j, Digit) && s[j] == '.' && AllIn(s, j + 1, e, Digit)
    ensures Count(s[p..e], '.') == 1
  {
    var a, b := s[p..j], s[j + 1..e];
    assert s[p..e] == a + [s[j]] + b;
    DigitsNoDot(a);
    DigitsNoDot(b);
    CountConcat(a, [s[j]], '.');
    CountConcat(a + [s[j]], b, '.');
  }

  lemma {:induction false} CountConcat(a: string, b: string, c: char)
    ensures Count(a + b, c) == Count(a, c) + Count(b, c)
    decreases |a|
  {
    if a != [] {
      assert (a + b)[1..] == a[1..] + b;
      CountConcat(a[1..], b, c);
    } else {
      assert a + b == b;
    }
  }

}

/** Leftmost-match search, the part of `re.search` and `re.findall` shared by every pattern. */
module Scan {
  import opened Wrappers

  /**
   * The first position `j` in `i..n` at which the anchored matcher `at` succeeds, with
   * what it captured: Python's `re.search` tries start positions left to right and
   * reports the first that matches.
   */
  function Search<T>(at: nat -> Option<T>, i: nat, n: nat): (r: Option<(nat, T)>)
    ensures r.Some? ==> i <= r.value.0 <= n && at(r.value.0) == Some(r.value.1)
    ensures r.Some? ==> forall j :: i <= j < r.value.0 ==> at(j).None?
    ensures r.None? ==> forall j :: i <= j <= n ==> at(j).None?
    decreases n + 1 - i
  {
    if i > n then None
    else match at(i)
      case Some(v) => Some((i, v))
      case None => Search(at, i + 1, n)
  }
}
