/** `validateOptimizedFonts`: re-scores the active (possibly optimised)
    defaults, turns optimised fonts off, re-scores the raw candidates, and
    falls back to raw defaults where the checks say so.  The sans and serif
    checks are not symmetric; each is modelled as written. */
module OptValidate {
  import opened Wrappers
  import opened Fonts
  import opened PageEval
  import opened CandidateSelection
  import opened WorkerSync

  /** Registry after the call, the toggle calls made, and the resolved
      value (`None` when the call throws). */
  datatype Validation = Validation(reg: Registry, log: seq<Msg>, result: Option<bool>)

  /** `sansMetricOpt`: the score of the active sans default before the toggle. */
  function SansMetricOpt(reg: Registry, k: Kernel, s: Sample): int
    requires Valid(reg) && reg.active.Some?
  {
    CandidateScore(k, ActiveDefaults(reg).sans.family, s)
  }

  /** Whether the sans default falls back: the optimised metric is strictly
      greater than the best raw score (`minValueSans`). */
  predicate SansFallsBack(reg: Registry, k: Kernel, rawK: Kernel, s: Sample)
    requires Valid(reg) && reg.active.Some?
  {
    SansMetricOpt(reg, k, s) > Winner(rawK, Sans, s).score
  }

  /** Whether the serif default changes: only the raw winner's name counts. */
  predicate SerifChanges(rawK: Kernel, s: Sample) {
    Winner(rawK, Serif, s).family != NimbusRomNo9L
  }

  /** `validateOptimizedFonts(pageArr, binaryImageArr, binaryRotatedArr,
      fontAll)`.  `k` is the kernel before the toggle call, `rawK` the kernel
      after `enableDisableFontOpt(false)` has pointed the fonts at the raw data. */
  function ValidateOptimizedFonts(reg: Registry, k: Kernel, rawK: Kernel, s: Sample): (r: Validation)
    requires Valid(reg)
    ensures Valid(r.reg)
    ensures r.reg.opt.Some? == reg.opt.Some?
    // Without an active view, `fontAll.active.SansDefault` throws first.
    ensures r.result.Some? <==> reg.active.Some?
    ensures r.result.None? ==> r.reg == reg && r.log == []
    ensures r.result.Some? ==>
      var ws := Winner(rawK, Sans, s).family;
      var wr := Winner(rawK, Serif, s).family;
      var sansChange := SansFallsBack(reg, k, rawK, s);
      var serifChange := SerifChanges(rawK, s);
      // The toggle goes off once, and back on (to `true`) only if nothing changed.
      && r.log == [ToggleFontOpt(false)] + (if r.result.value then [] else [ToggleFontOpt(true)])
      && (r.result.value <==> sansChange || serifChange)
      && (!r.result.value ==> r.reg.raw == reg.raw && r.reg.opt == reg.opt)
      // Sans fallback: both views' alias point at the raw winner.
      && r.reg.raw.sans == (if sansChange then Alias(Raw, ws) else reg.raw.sans)
      && (reg.opt.Some? ==> r.reg.opt.value.sans == (if sansChange then Alias(Raw, ws) else reg.opt.value.sans))
      // Serif change: each view's alias points at its own copy of the winner.
      && r.reg.raw.serif == (if serifChange then Alias(Raw, wr) else reg.raw.serif)
      && (reg.opt.Some? ==> r.reg.opt.value.serif == (if serifChange then Alias(Opt, wr) else reg.opt.value.serif))
  {
    if reg.active.None? then Validation(reg, [], None)
    else
      var d := ActiveDefaults(reg);
      var sansMetricOpt := CandidateScore(k, d.sans.family, s);
      // Computed by the code but never read afterwards.
      var serifMetricOpt := CandidateScore(k, d.serif.family, s);
      var ws := Winner(rawK, Sans, s);
      var sansChange := sansMetricOpt > ws.score;
      var reg1 := if sansChange then SetDefault(reg, Sans, Alias(Raw, ws.family), Alias(Raw, ws.family)) else reg;
      var wr := Winner(rawK, Serif, s).family;
      var serifChange := wr != NimbusRomNo9L;
      var reg2 := if serifChange then SetDefault(reg1, Serif, Alias(Raw, wr), Alias(Opt, wr)) else reg1;
      var change := sansChange || serifChange;
      Validation(reg2, [ToggleFontOpt(false)] + (if change then [] else [ToggleFontOpt(true)]), Some(change))
  }

  /** `serifMetricOpt` is unused: the result depends on the pre-toggle
      kernel only through the active sans default's family. */
  lemma ValidateIgnoresSerifOptMetric(reg: Registry, k1: Kernel, k2: Kernel, rawK: Kernel, s: Sample)
    requires Valid(reg) && reg.active.Some?
    requires forall v :: k1(ActiveDefaults(reg).sans.family, v) == k2(ActiveDefaults(reg).sans.family, v)
    ensures ValidateOptimizedFonts(reg, k1, rawK, s) == ValidateOptimizedFonts(reg, k2, rawK, s)
  {
    EvalPageFontsCongruent(k1, k2, ActiveDefaults(reg).sans.family, s, DefaultBudget);
  }

  /** An optimised sans default that scores exactly as well as the best raw
      candidate is kept: equality is not a regression. */
  lemma SansTieKeepsOptimized(reg: Registry, k: Kernel, rawK: Kernel, s: Sample)
    requires Valid(reg) && reg.active.Some?
    requires SansMetricOpt(reg, k, s) == Winner(rawK, Sans, s).score
    ensures ValidateOptimizedFonts(reg, k, rawK, s).reg.raw.sans == reg.raw.sans
    ensures reg.opt.Some? ==> ValidateOptimizedFonts(reg, k, rawK, s).reg.opt.value.sans == reg.opt.value.sans
  {
  }

  /** No regression: the aliases are unchanged, and the toggle is switched
      off and then on — it ends enabled whatever it was before the call. */
  lemma NoRegressionReenables(reg: Registry, k: Kernel, rawK: Kernel, s: Sample)
    requires Valid(reg) && reg.active.Some?
    requires !SansFallsBack(reg, k, rawK, s) && !SerifChanges(rawK, s)
    ensures var r := ValidateOptimizedFonts(reg, k, rawK, s);
            && r.result == Some(false)
            && r.reg.raw == reg.raw && r.reg.opt == reg.opt
            && r.log == [ToggleFontOpt(false), ToggleFontOpt(true)]
  {
  }

  /** The serif rule ignores how well the optimised serif default scored: a
      raw serif winner other than NimbusRomNo9L always replaces it and
      leaves optimised fonts disabled. */
  lemma SerifWinnerForcesChange(reg: Registry, k: Kernel, rawK: Kernel, s: Sample)
    requires Valid(reg) && reg.active.Some?
    requires CandidateScore(rawK, Century, s) < MaxValue
    requires CandidateScore(rawK, Century, s) <= CandidateScore(rawK, NimbusRomNo9L, s)
    ensures var r := ValidateOptimizedFonts(reg, k, rawK, s);
            && r.result == Some(true)
            && r.log == [ToggleFontOpt(false)]
            && r.reg.raw.serif.family != NimbusRomNo9L
  {
    SerifBaselineRule(rawK, s);
  }
}
