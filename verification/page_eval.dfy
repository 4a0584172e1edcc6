/** `evalPageFonts`: the word-budgeted aggregation of one candidate's mismatch
    metric over a prefix of the page sample.  The comparison kernel that
    renders and scores a page is not part of this model; it is a parameter. */
module PageEval {
  import opened Wrappers
  import opened Fonts

  /** OCR page, binarised page image and precomputed page metrics: opaque
      to this core, only passed through to the kernel. */
  type Page(==)
  type BinaryImage(==)
  type PageMetrics(==)

  /** The four parallel arrays the loop indexes: `pageArr`, `binaryImageArr`,
      `binaryRotatedArr` and the global `pageMetricsArr`.  Only `pages` bounds
      the loop; the other three may be shorter. */
  datatype Sample = Sample(
    pages: seq<Page>,
    images: seq<BinaryImage>,
    rotated: seq<bool>,
    metrics: seq<PageMetrics>)

  /** What the kernel receives for one page; `None` is JavaScript's
      `undefined` from reading past the end of a shorter array. */
  datatype Visit = Visit(
    page: Page,
    image: Option<BinaryImage>,
    rotated: Option<bool>,
    metrics: Option<PageMetrics>)

  /** The kernel's answer for one page: `metricTotal` and `wordsTotal`. */
  datatype PageScore = PageScore(metric: int, words: int)

  /** The comparison kernel, given the font's family name and the page. */
  type Kernel = (Family, Visit) -> PageScore

  /** One kernel invocation, as recorded by the aggregation. */
  datatype Call = Call(font: Family, visit: Visit)

  /** Result of an aggregation: the raw metric sum, the word count reached
      and the kernel calls made, in order. */
  datatype Eval = Eval(metric: int, words: int, calls: seq<Call>)

  function Lookup<T>(s: seq<T>, i: nat): (r: Option<T>)
    ensures r.Some? <==> i < |s|
    ensures r.Some? ==> r.value == s[i]
  {
    if i < |s| then Some(s[i]) else None
  }

  /** The page data for index `i`: the same index selects every array. */
  function VisitAt(s: Sample, i: nat): Visit
    requires i < |s.pages|
  {
    Visit(s.pages[i], Lookup(s.images, i), Lookup(s.rotated, i), Lookup(s.metrics, i))
  }

  /** Words counted over pages `0 .. j-1`. */
  function WordsBefore(k: Kernel, font: Family, s: Sample, j: nat): int
    requires j <= |s.pages|
  {
    if j == 0 then 0 else WordsBefore(k, font, s, j - 1) + k(font, VisitAt(s, j - 1)).words
  }

  /** Metric summed over pages `0 .. j-1`. */
  function MetricBefore(k: Kernel, font: Family, s: Sample, j: nat): int
    requires j <= |s.pages|
  {
    if j == 0 then 0 else MetricBefore(k, font, s, j - 1) + k(font, VisitAt(s, j - 1)).metric
  }

  /** Reference definition of the stopping point: `j` pages are visited when
      the budget held before each of them and either the sample is exhausted
      or the words of the first `j` pages exceed `n`. */
  ghost predicate StopsAt(k: Kernel, font: Family, s: Sample, n: int, j: nat) {
    && j <= |s.pages|
    && (j == |s.pages| || WordsBefore(k, font, s, j) > n)
    && forall i :: 0 <= i < j ==> WordsBefore(k, font, s, i) <= n
  }

  /** The calls of a run over the first `j` pages, all with the same font. */
  ghost predicate CallsArePrefix(font: Family, s: Sample, calls: seq<Call>) {
    && |calls| <= |s.pages|
    && forall i :: 0 <= i < |calls| ==> calls[i] == Call(font, VisitAt(s, i))
  }

  /** The loop of `evalPageFonts` from index `i` on, with `acc` holding the
      running totals; the requires are the loop invariant. */
  function Run(k: Kernel, font: Family, s: Sample, n: int, i: nat, acc: Eval): (r: Eval)
    requires i <= |s.pages| && |acc.calls| == i
    requires CallsArePrefix(font, s, acc.calls)
    requires acc.metric == MetricBefore(k, font, s, i)
    requires acc.words == WordsBefore(k, font, s, i)
    requires forall j :: 0 <= j < i ==> WordsBefore(k, font, s, j) <= n
    ensures StopsAt(k, font, s, n, |r.calls|) && i <= |r.calls|
    ensures CallsArePrefix(font, s, r.calls)
    ensures r.metric == MetricBefore(k, font, s, |r.calls|)
    ensures r.words == WordsBefore(k, font, s, |r.calls|)
    decreases |s.pages| - i
  {
    if i == |s.pages| || acc.words > n then acc
    else
      var res := k(font, VisitAt(s, i));
      Run(k, font, s, n, i + 1,
          Eval(acc.metric + res.metric, acc.words + res.words, acc.calls + [Call(font, VisitAt(s, i))]))
  }

  /** `evalPageFonts(font, pageArr, binaryImageArr, binaryRotatedArr, n)`:
      visits exactly the pages up to the stopping point, calls the kernel
      with the same font and the same index into every array, and returns
      the unnormalised metric sum of the visited pages. */
  function EvalPageFonts(k: Kernel, font: Family, s: Sample, n: int): (r: Eval)
    ensures StopsAt(k, font, s, n, |r.calls|)
    ensures CallsArePrefix(font, s, r.calls)
    ensures r.metric == MetricBefore(k, font, s, |r.calls|)
    ensures r.words == WordsBefore(k, font, s, |r.calls|)
    ensures |s.pages| > 0 && n >= 0 ==> |r.calls| >= 1
  {
    Run(k, font, s, n, 0, Eval(0, 0, []))
  }

  /** The stopping point is unique, so the visited pages are exactly the
      shortest prefix whose word count exceeds `n` (or the whole sample). */
  lemma StopsAtUnique(k: Kernel, font: Family, s: Sample, n: int, j1: nat, j2: nat)
    requires StopsAt(k, font, s, n, j1) && StopsAt(k, font, s, n, j2)
    ensures j1 == j2
  {
  }

  /** Two word counts that agree page by page give equal prefix sums. */
  lemma {:induction false} WordsBeforeAgree(k1: Kernel, f1: Family, k2: Kernel, f2: Family, s: Sample, j: nat)
    requires j <= |s.pages|
    requires forall i :: 0 <= i < j ==> k1(f1, VisitAt(s, i)).words == k2(f2, VisitAt(s, i)).words
    ensures WordsBefore(k1, f1, s, j) == WordsBefore(k2, f2, s, j)
  {
    if j > 0 {
      WordsBeforeAgree(k1, f1, k2, f2, s, j - 1);
    }
  }

  /** Two candidates stop at the same page when the kernel's word counts do
      not depend on the font; nothing in the code guarantees that premise. */
  lemma SameStopWhenWordsFontIndependent(k1: Kernel, f1: Family, k2: Kernel, f2: Family, s: Sample, n: int)
    requires forall i :: 0 <= i < |s.pages| ==> k1(f1, VisitAt(s, i)).words == k2(f2, VisitAt(s, i)).words
    ensures |EvalPageFonts(k1, f1, s, n).calls| == |EvalPageFonts(k2, f2, s, n).calls|
  {
    var r1 := EvalPageFonts(k1, f1, s, n);
    var r2 := EvalPageFonts(k2, f2, s, n);
    forall j | 0 <= j <= |s.pages|
      ensures WordsBefore(k1, f1, s, j) == WordsBefore(k2, f2, s, j)
    {
      WordsBeforeAgree(k1, f1, k2, f2, s, j);
    }
    StopsAtUnique(k2, f2, s, n, |r1.calls|, |r2.calls|);
  }

  /** Two kernels that agree on a font give equal metric prefix sums. */
  lemma {:induction false} MetricBeforeAgree(k1: Kernel, k2: Kernel, font: Family, s: Sample, j: nat)
    requires j <= |s.pages|
    requires forall v :: k1(font, v) == k2(font, v)
    ensures MetricBefore(k1, font, s, j) == MetricBefore(k2, font, s, j)
  {
    if j > 0 {
      MetricBeforeAgree(k1, k2, font, s, j - 1);
    }
  }

  /** The aggregation reads the kernel only at its own font: kernels that
      agree on that font give the same result. */
  lemma EvalPageFontsCongruent(k1: Kernel, k2: Kernel, font: Family, s: Sample, n: int)
    requires forall v :: k1(font, v) == k2(font, v)
    ensures EvalPageFonts(k1, font, s, n) == EvalPageFonts(k2, font, s, n)
  {
    var r1 := EvalPageFonts(k1, font, s, n);
    var r2 := EvalPageFonts(k2, font, s, n);
    forall j | 0 <= j <= |s.pages|
      ensures WordsBefore(k1, font, s, j) == WordsBefore(k2, font, s, j)
      ensures MetricBefore(k1, font, s, j) == MetricBefore(k2, font, s, j)
    {
      WordsBeforeAgree(k1, font, k2, font, s, j);
      MetricBeforeAgree(k1, k2, font, s, j);
    }
    StopsAtUnique(k2, font, s, n, |r1.calls|, |r2.calls|);
    assert r1.calls == r2.calls;
  }

  /** Two pages of 40 and 30 words: a budget of 50 visits both (40, then 70
      > 50), a budget of 20 visits only the first (40 > 20). */
  lemma TwoPageBudgets(k: Kernel, font: Family, s: Sample, m0: int, m1: int)
    requires |s.pages| == 2
    requires k(font, VisitAt(s, 0)) == PageScore(m0, 40)
    requires k(font, VisitAt(s, 1)) == PageScore(m1, 30)
    ensures EvalPageFonts(k, font, s, 50).metric == m0 + m1
    ensures |EvalPageFonts(k, font, s, 50).calls| == 2
    ensures EvalPageFonts(k, font, s, 20).metric == m0
    ensures |EvalPageFonts(k, font, s, 20).calls| == 1
  {
    assert WordsBefore(k, font, s, 1) == 40;
    assert WordsBefore(k, font, s, 2) == 70;
    assert MetricBefore(k, font, s, 1) == m0;
    assert MetricBefore(k, font, s, 2) == m0 + m1;
    StopsAtUnique(k, font, s, 50, |EvalPageFonts(k, font, s, 50).calls|, 2);
    StopsAtUnique(k, font, s, 20, |EvalPageFonts(k, font, s, 20).calls|, 1);
  }
}
