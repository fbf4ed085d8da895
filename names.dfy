/**
 * The company-name cascade of `parse_single_ipo_block`: five patterns tried in order,
 * each candidate cleaned (whitespace collapsed, `.`/`-`/whitespace stripped at both ends)
 * and validated (longer than three characters, not made only of digits, whitespace,
 * dashes and dots); the first candidate that passes is the name, else 'Unknown Company'.
 */
module Names {
  import opened Wrappers
  import opened Chars
  import opened Text
  import opened Scan

  const Sentinel: string := "Unknown Company"

  /** The company-type words of patterns 4 and 5, in the order the alternation lists them. */
  const Suffixes: seq<string> := [
    "REIT", "Trust", "Limited", "Ltd", "Inc", "Corp", "Company", "Group", "Holdings",
    "Ventures", "Industries", "Systems", "Solutions", "Technologies", "Healthcare",
    "Plastics", "Cement", "Lab", "Cast", "Cinemas"]

  // ------------------------------------------------------------ patterns 1-3

  /** `(?:\s*$|\s*[A-Z][a-z])` at `e`: only whitespace remains, or a capitalised word follows. */
  predicate NameTail(s: string, e: nat)
    requires e <= |s|
  {
    RestIsSpace(s, e) || (var t := RunEnd(s, e, Space); t + 1 < |s| && IsUpper(s[t]) && IsLower(s[t + 1]))
  }

  /**
   * `[A-Za-z\s&.-]{k,}?` from `p`, followed by `NameTail`: `k` name characters are taken,
   * then the lazy quantifier stops at the first position where the tail matches.
   */
  function LazyName(s: string, p: nat, k: nat): (r: Option<nat>)
    requires p <= |s|
    ensures r.Some? ==> p + k <= r.value <= |s| && NameTail(s, r.value)
    ensures r.Some? ==> forall m :: p <= m < r.value ==> InClass(s[m], NameChar)
    decreases |s| - p
  {
    if k > 0 then
      if p < |s| && InClass(s[p], NameChar) then LazyName(s, p + 1, k - 1) else None
    else if NameTail(s, p) then Some(p)
    else if p < |s| && InClass(s[p], NameChar) then LazyName(s, p + 1, 0)
    else None
  }

  /**
   * `<lit>\s*([A-Za-z][A-Za-z\s&.-]{2,}?)(?:\s*$|\s*[A-Z][a-z])` anchored at `j` (patterns
   * 1 and 2): the group's span. `\s*` never gives back whitespace, as a letter must follow.
   */
  function AfterLitAt(s: string, j: nat, lit: string): (r: Option<(nat, nat)>)
    ensures r.Some? ==> r.value.0 < r.value.1 <= |s| && IsLetter(s[r.value.0])
  {
    if LitAt(s, j, lit) then
      var g := RunEnd(s, j + |lit|, Space);
      if g < |s| && IsLetter(s[g]) then
        var e := LazyName(s, g + 1, 2);
        if e.Some? then Some((g, e.value)) else None
      else None
    else None
  }

  /**
   * `[A-Za-z\s]*?\s+([A-Z][A-Za-z\s&.-]{3,}?)(?:...)` from `a` (pattern 3): the lazy prefix
   * grows one letter or space at a time until `\s+` reaches a capital that starts a group.
   * `\s+` never gives back whitespace, as a capital must follow it.
   */
  function AllotmentRest(s: string, a: nat): (r: Option<(nat, nat)>)
    requires a <= |s|
    ensures r.Some? ==> r.value.0 < r.value.1 <= |s| && IsUpper(s[r.value.0])
    decreases |s| - a
  {
    var c := RunEnd(s, a, Space);
    var e := if a < c < |s| && IsUpper(s[c]) then LazyName(s, c + 1, 3) else None;
    if e.Some? then Some((c, e.value))
    else if a < |s| && InClass(s[a], LetterOrSpace) then AllotmentRest(s, a + 1)
    else None
  }

  /** Pattern 3 anchored at `j`. */
  function AllotmentAt(s: string, j: nat): (r: Option<(nat, nat)>)
    ensures r.Some? ==> r.value.0 < r.value.1 <= |s| && IsLetter(s[r.value.0])
  {
    if LitAt(s, j, "Allotment") then AllotmentRest(s, j + 9) else None
  }

  // --------------------------------------------------------------- pattern 4

  /**
   * `([A-Z][A-Za-z\s&.-]+(?:REIT|...)?)(?:\s*$)` at `a`. Whitespace is a name character,
   * so `\s*$` can only succeed where the greedy run of name characters reaches the end of
   * the text; the group is then all the rest, and the optional company word adds nothing.
   */
  predicate TrailingNameAt(s: string, a: nat) {
    a + 1 < |s| && IsUpper(s[a]) && RunEnd(s, a + 1, NameChar) == |s|
  }

  /** `.*?` from `a` then the group: the lazy `.` (no newline) grows until the group fits. */
  function LazyTrailingName(s: string, a: nat): (r: Option<(nat, nat)>)
    requires a <= |s|
    ensures r.Some? ==> r.value.0 < r.value.1 == |s| && TrailingNameAt(s, r.value.0)
    decreases |s| - a
  {
    if TrailingNameAt(s, a) then Some((a, |s|))
    else if a < |s| && s[a] != '\n' then LazyTrailingName(s, a + 1)
    else None
  }

  /** Pattern 4 anchored at `j`: one of its three lead phrases, then the lazy gap and group. */
  function LeadPhraseAt(s: string, j: nat): (r: Option<(nat, nat)>)
    ensures r.Some? ==> r.value.0 < r.value.1 <= |s| && IsLetter(s[r.value.0])
  {
    var p :=
      if LitAt(s, j, "View Apply") then Some(j + 10)
      else if LitAt(s, j, "Check Allotment") then Some(j + 15)
      else if LitAt(s, j, "Allotment Awaited") then Some(j + 17)
      else None;
    if p.Some? then LazyTrailingName(s, p.value) else None
  }

  // --------------------------------------------------------------- pattern 5

  /** `(?:REIT|...)` then `\s*$` at `c`: the first company word written there that ends the text. */
  function SuffixAt(s: string, c: nat, i: nat): (r: Option<nat>)
    requires i <= |Suffixes|
    ensures r.Some? ==> c < r.value <= |s| && RestIsSpace(s, r.value)
    decreases |Suffixes| - i
  {
    if i == |Suffixes| then None
    else if LitAt(s, c, Suffixes[i]) && RestIsSpace(s, c + |Suffixes[i]|) then Some(c + |Suffixes[i]|)
    else SuffixAt(s, c, i + 1)
  }

  /**
   * After a word ending at `p`: the greedy `(?:\s+[A-Z&][A-Za-z]+)*` first tries one more
   * word, and only when the rest fails does `\s+(?:REIT|...)` then `\s*$` get its turn.
   * Neither `\s+` nor a letter run can give characters back, since a letter or `&` must
   * follow the one and whitespace the other.
   */
  function WordsTo(s: string, p: nat): (r: Option<nat>)
    requires p <= |s|
    ensures r.Some? ==> p < r.value <= |s| && RestIsSpace(s, r.value)
    decreases |s| - p
  {
    var c := RunEnd(s, p, Space);
    if c == p || c == |s| then None
    else
      var more :=
        if IsUpper(s[c]) || s[c] == '&' then
          var w := RunEnd(s, c + 1, Letter);
          if w >= c + 2 then WordsTo(s, w) else None
        else None;
      if more.Some? then more else SuffixAt(s, c, 0)
  }

  /** Pattern 5 anchored at `j`: a capitalised word, more words, and a company word at the end. */
  function CompanyWordsAt(s: string, j: nat): (r: Option<(nat, nat)>)
    ensures r.Some? ==> r.value.0 < r.value.1 <= |s| && IsLetter(s[r.value.0])
    ensures r.Some? ==> RestIsSpace(s, r.value.1)
  {
    if j < |s| && IsUpper(s[j]) then
      var w := RunEnd(s, j + 1, Letter);
      if w >= j + 2 then
        var e := WordsTo(s, w);
        if e.Some? then Some((j, e.value)) else None
      else None
    else None
  }

  // ---------------------------------------------------------------- cascade

  /** Pattern `k` (0-based, in the order of `name_patterns`) anchored at `j`: its group's span. */
  function PatternAt(k: nat, s: string, j: nat): (r: Option<(nat, nat)>)
    ensures r.Some? ==> r.value.0 < r.value.1 <= |s| && IsLetter(s[r.value.0])
  {
    if k == 0 then AfterLitAt(s, j, "Check Allotment")
    else if k == 1 then AfterLitAt(s, j, "View Check Allotment")
    else if k == 2 then AllotmentAt(s, j)
    else if k == 3 then LeadPhraseAt(s, j)
    else CompanyWordsAt(s, j)
  }

  /** `re.search(name_patterns[k], s).group(1)`, when there is a match. */
  function Candidate(k: nat, s: string): (r: Option<string>)
    ensures r.Some? ==> r.value != [] && IsLetter(r.value[0])
  {
    var hit := Search((j: nat) => PatternAt(k, s, j), 0, |s|);
    if hit.None? then None else Some(s[hit.value.1.0..hit.value.1.1])
  }

  /** The candidates of the five patterns, in the order `name_patterns` lists them. */
  function Candidates(s: string): (cs: seq<Option<string>>)
    ensures |cs| == 5
    ensures forall k :: 0 <= k < 5 ==> cs[k] == Candidate(k, s)
  {
    [Candidate(0, s), Candidate(1, s), Candidate(2, s), Candidate(3, s), Candidate(4, s)]
  }

  /** Whitespace is only ever a single ' '. */
  predicate SingleSpaced(s: string) {
    && (forall m :: 0 <= m < |s| && IsSpace(s[m]) ==> s[m] == ' ')
    && (forall m :: 0 <= m < |s| - 1 && IsSpace(s[m]) ==> !IsSpace(s[m + 1]))
  }

  /** `re.sub(r'^[.\-\s]+|[.\-\s]+$', '', n)`: one pass removes the leading run, then the trailing one. */
  function TrimPunct(n: string): string {
    DropTrailing(DropLeading(n, PunctOrSpace), PunctOrSpace)
  }

  /** `.strip()`, then `re.sub(r'\s+', ' ', _)`, then `TrimPunct`. */
  function CleanName(g: string): string {
    TrimPunct(Collapse(Strip(g)))
  }

  /** The cleaned name has single spaces only and no `.`, `-` or whitespace at either end. */
  lemma CleanNameShape(g: string)
    ensures SingleSpaced(CleanName(g))
    ensures var n := CleanName(g); n == [] || (!InClass(n[0], PunctOrSpace) && !InClass(n[|n| - 1], PunctOrSpace))
  {
    TrimPunctShape(Collapse(Strip(g)));
  }

  lemma TrimPunctShape(c: string)
    requires SingleSpaced(c)
    ensures SingleSpaced(TrimPunct(c))
    ensures var n := TrimPunct(c); n == [] || (!InClass(n[0], PunctOrSpace) && !InClass(n[|n| - 1], PunctOrSpace))
  {
    var d := DropLeading(c, PunctOrSpace);
    SingleSpacedSlice(c, |c| - |d|, |c|);
    var e := DropTrailing(d, PunctOrSpace);
    SingleSpacedSlice(d, 0, |e|);
    assert e == [] || e[0] == d[0];
  }

  lemma SingleSpacedSlice(s: string, i: nat, j: nat)
    requires i <= j <= |s| && SingleSpaced(s)
    ensures SingleSpaced(s[i..j])
  {
    var t := s[i..j];
    forall m | 0 <= m < |t| - 1 && IsSpace(t[m]) ensures !IsSpace(t[m + 1]) {
      assert t[m] == s[i + m] && t[m + 1] == s[i + m + 1];
    }
  }

  /** `re.match(r'^[0-9\s\-\.]+$', n)`. */
  predicate NumericOnly(n: string) {
    n != [] && forall m :: 0 <= m < |n| ==> InClass(n[m], NumericLike)
  }

  /** The validation of a cleaned candidate. */
  predicate ValidName(n: string) {
    |n| > 3 && !NumericOnly(n)
  }

  /** A candidate that was found and whose cleaned form passes validation. */
  predicate Accepted(c: Option<string>) {
    c.Some? && ValidName(CleanName(c.value))
  }

  /** The `for`/`break` loop over the candidates from `k` on, as a function. */
  function FirstValid(cs: seq<Option<string>>, k: nat): string
    decreases |cs| - k
  {
    if k >= |cs| then Sentinel
    else if Accepted(cs[k]) then CleanName(cs[k].value)
    else FirstValid(cs, k + 1)
  }

  /** The name `parse_single_ipo_block` settles on for the stripped block text `s`. */
  function CompanyNameOf(s: string): string {
    FirstValid(Candidates(s), 0)
  }

  /**
   * The name is the cleaned candidate of the first pattern that passes validation,
   * a rejected candidate letting the next pattern try; with none, the sentinel.
   */
  lemma FirstValidIs(cs: seq<Option<string>>, k: nat, q: nat)
    requires k <= q <= |cs|
    requires forall i :: k <= i < q ==> !Accepted(cs[i])
    ensures q < |cs| && Accepted(cs[q]) ==> FirstValid(cs, k) == CleanName(cs[q].value)
    ensures q == |cs| ==> FirstValid(cs, k) == Sentinel
  {
    FirstValidSkips(cs, k, q);
  }

  /** Rejected candidates are skipped: the cascade from `k` is the cascade from `q`. */
  lemma {:induction false} FirstValidSkips(cs: seq<Option<string>>, k: nat, q: nat)
    requires k <= q <= |cs|
    requires forall i :: k <= i < q ==> !Accepted(cs[i])
    ensures FirstValid(cs, k) == FirstValid(cs, q)
    decreases q - k
  {
    if k < q {
      assert !Accepted(cs[k]);
      FirstValidSkips(cs, k + 1, q);
    }
  }

  /** Every name the cascade reports is the sentinel or a valid cleaned candidate. */
  lemma {:induction false} FirstValidValid(cs: seq<Option<string>>, k: nat)
    ensures var n := FirstValid(cs, k);
      n == Sentinel || exists i :: k <= i < |cs| && Accepted(cs[i]) && n == CleanName(cs[i].value)
    decreases |cs| - k
  {
    if k < |cs| && !Accepted(cs[k]) {
      FirstValidValid(cs, k + 1);
    }
  }

  /** The shape every accepted company name has. */
  predicate NameShape(n: string) {
    && ValidName(n) && IsLetter(n[0]) && SingleSpaced(n) && !InClass(n[|n| - 1], PunctOrSpace)
  }

  /**
   * The company name of a block is the sentinel, or a cleaned candidate: longer than three
   * characters, not only digits and separators, led by a letter, single-spaced and with no
   * `.`, `-` or whitespace at its end.
   */
  lemma CompanyNameShape(s: string)
    ensures CompanyNameOf(s) == Sentinel || NameShape(CompanyNameOf(s))
  {
    var cs := Candidates(s);
    assert forall i :: 0 <= i < |cs| ==> cs[i] == Candidate(i, s);
    FirstValidShape(cs, 0);
  }

  /** Over letter-led candidates, the cascade gives the sentinel or a well-shaped name. */
  lemma {:induction false} FirstValidShape(cs: seq<Option<string>>, k: nat)
    requires forall i :: 0 <= i < |cs| && cs[i].Some? ==> cs[i].value != [] && IsLetter(cs[i].value[0])
    ensures FirstValid(cs, k) == Sentinel || NameShape(FirstValid(cs, k))
    decreases |cs| - k
  {
    if k < |cs| {
      if Accepted(cs[k]) {
        AcceptedShape(cs[k].value);
      } else {
        FirstValidShape(cs, k + 1);
      }
    }
  }

  /** A letter-led group whose cleaned form is accepted cleans to a well-shaped name. */
  lemma AcceptedShape(g: string)
    requires g != [] && IsLetter(g[0]) && ValidName(CleanName(g))
    ensures NameShape(CleanName(g))
  {
    CleanNameLead(g);
    CleanNameShape(g);
  }

  /** A cleaned letter-led group still starts with that letter. */
  lemma CleanNameLead(g: string)
    requires g != [] && IsLetter(g[0])
    ensures CleanName(g) != [] && CleanName(g)[0] == g[0]
  {
    StripLead(g);
    var c := Collapse(Strip(g));
    assert c[0] == g[0];
    TrimPunctLead(c);
  }

  lemma StripLead(g: string)
    requires g != [] && !IsSpace(g[0])
    ensures Strip(g) != [] && Strip(g)[0] == g[0]
  {
    RunEndIs(g, 0, 0, Space);
    TrailStartAbove(g, 0, |g|, 0);
  }

  lemma TrimPunctLead(c: string)
    requires c != [] && IsLetter(c[0])
    ensures TrimPunct(c) != [] && TrimPunct(c)[0] == c[0]
  {
    var d := DropLeading(c, PunctOrSpace);
    assert d == c;
    var e := DropTrailing(d, PunctOrSpace);
    assert e == d[..|e|];
  }

  /**
   * The digits-only check never rejects a found candidate: every pattern's group starts
   * with a letter, which the clean-up keeps, so a candidate is accepted exactly when its
   * cleaned form is longer than three characters.
   */
  lemma NumericCheckRedundant(c: Option<string>)
    requires c.Some? && c.value != [] && IsLetter(c.value[0])
    ensures Accepted(c) <==> |CleanName(c.value)| > 3
  {
    CleanNameLead(c.value);
    var n := CleanName(c.value);
    assert !InClass(n[0], NumericLike);
  }

  /** Whatever pattern 2 matches, pattern 1 matches five characters on, with the same group. */
  lemma ViewCheckIsCheck(s: string, j: nat)
    requires AfterLitAt(s, j, "View Check Allotment").Some?
    ensures AfterLitAt(s, j + 5, "Check Allotment") == AfterLitAt(s, j, "View Check Allotment")
  {
    LitAtConcat(s, j, "View ", "Check Allotment");
  }
}
