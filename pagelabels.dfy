/**
 * Page-number labels: what a List of Figures line or a running header prints
 * for a physical page, and the page-label table the outline step hands to the
 * PDF reader. Pages before the content start are front matter and are
 * labelled with lowercase roman numerals of their physical number; the others
 * are numbered 1, 2, ... from the content start.
 */
module PageLabels {
  import opened Wrappers
  import opened RubyText

  /** Physical page numbers are 1-based. */
  type PageNumber = p: int | p >= 1 witness 1

  function Max(a: int, b: int): int { if a < b then b else a }

  /*
   * The lowercase roman numerals come from the host's RomanNumeral class,
   * which is not part of this model. The model assumes its usual greedy,
   * subtractive form (iv, ix, xl, xc, cd, cm) for numbers from 1 up.
   */
  const RomanValues: seq<nat> := [1000, 900, 500, 400, 100, 90, 50, 40, 10, 9, 5, 4, 1]
  const RomanSymbols: seq<string> := ["m", "cm", "d", "cd", "c", "xc", "l", "xl", "x", "ix", "v", "iv", "i"]

  predicate IsRomanLetter(c: char) {
    c == 'i' || c == 'v' || c == 'x' || c == 'l' || c == 'c' || c == 'd' || c == 'm'
  }

  predicate IsRomanText(s: string) { forall i :: 0 <= i < |s| ==> IsRomanLetter(s[i]) }

  lemma RomanTableFacts(k: nat)
    requires k < 13
    ensures |RomanValues| == |RomanSymbols| == 13
    ensures RomanValues[k] >= 1 && IsRomanText(RomanSymbols[k]) && RomanSymbols[k] != []
    ensures RomanValues[12] == 1
  {
  }

  /** Greedy roman digits of `n`, using the table from position `k` on. */
  function RomanFrom(n: nat, k: nat): (s: string)
    requires k <= 13
    ensures IsRomanText(s)
    ensures k < 13 ==> (s == [] <==> n == 0)
    decreases 13 - k, n
  {
    if k == 13 then []
    else
      RomanTableFacts(k);
      if n >= RomanValues[k] then RomanSymbols[k] + RomanFrom(n - RomanValues[k], k)
      else RomanFrom(n, k + 1)
  }

  /** RomanNumeral.new(p, :lower).to_s */
  function Roman(p: PageNumber): (s: string)
    ensures s != [] && IsRomanText(s)
  {
    RomanFrom(p, 0)
  }

  /**
   * The label of a resolved physical page with `frontMatter` front-matter
   * pages, or "?" when the page could not be resolved. A label is all digits
   * exactly when the page lies after the front matter; otherwise it is a
   * roman numeral.
   */
  function PageLabel(physical: Option<PageNumber>, frontMatter: nat): (shown: string)
    ensures shown == "?" <==> physical.None?
    ensures AllDigits(shown) <==> physical.Some? && physical.value - frontMatter >= 1
    ensures physical.Some? && physical.value - frontMatter < 1 ==> shown != [] && IsRomanText(shown)
  {
    match physical
    case None =>
      assert !IsDigit("?"[0]);
      "?"
    case Some(p) =>
      var virtual := p - frontMatter;
      if virtual < 1 then
        var r := Roman(p);
        assert !IsDigit(r[0]);
        r
      else
        NatToString(virtual)
  }

  /** A numeric label reads back (String#to_i) as the page's number counted from the content start. */
  lemma PageLabelReadsBack(physical: Option<PageNumber>, frontMatter: nat)
    requires physical.Some? && physical.value - frontMatter >= 1
    ensures ToI(PageLabel(physical, frontMatter)) == physical.value - frontMatter
  {
    var v := physical.value - frontMatter;
    assert PageLabel(physical, frontMatter) == NatToString(v);
    ToIOfNat(v);
  }

  /**
   * The reader's page-label table: keys are 0-based page indices, the first
   * `frontMatter` get i, ii, iii, ... and the pages from there up to the last
   * page get 1, 2, 3, ...
   */
  ghost predicate IsLabelTable(labels: map<int, string>, frontMatter: nat, pageCount: int) {
    && (forall n :: n in labels <==> 0 <= n < Max(frontMatter, pageCount))
    && (forall n :: 0 <= n < frontMatter ==> n in labels && labels[n] == Roman(n + 1))
    && (forall n :: frontMatter <= n < pageCount ==> n in labels && labels[n] == NatToString(n - frontMatter + 1))
  }

  /** The counting loops of the outline step that fill the page-label table. */
  method BuildPageLabels(frontMatter: nat, pageCount: int) returns (labels: map<int, string>)
    ensures IsLabelTable(labels, frontMatter, pageCount)
  {
    labels := map[];
    var counter := 0;
    var n := 0;
    while n < frontMatter
      invariant 0 <= n <= frontMatter && counter == n
      invariant forall k :: k in labels <==> 0 <= k < n
      invariant forall k :: 0 <= k < n ==> labels[k] == Roman(k + 1)
    {
      counter := counter + 1;
      labels := labels[n := Roman(counter)];
      n := n + 1;
    }
    var i := 0;
    while n <= pageCount - 1
      invariant frontMatter <= n <= Max(frontMatter, pageCount) && i == n - frontMatter
      invariant forall k :: k in labels <==> 0 <= k < n
      invariant forall k :: 0 <= k < frontMatter ==> labels[k] == Roman(k + 1)
      invariant forall k :: frontMatter <= k < n ==> labels[k] == NatToString(k - frontMatter + 1)
    {
      labels := labels[n := NatToString(i + 1)];
      n := n + 1;
      i := i + 1;
    }
  }

  /**
   * The table agrees with the labels printed in the lists and running
   * content: index p - 1 carries the label of physical page p.
   */
  lemma LabelTableMatchesPageLabel(labels: map<int, string>, frontMatter: nat, pageCount: int, p: PageNumber)
    requires IsLabelTable(labels, frontMatter, pageCount)
    requires p <= Max(frontMatter, pageCount)
    ensures p - 1 in labels && labels[p - 1] == PageLabel(Some(p), frontMatter)
  {
  }
}
