# Default-font selection and worker font sync (scribe.js `fontEval.js`)

This project models the font-evaluation core of scribe.js in Dafny. The core
chooses the default sans and serif font families for a scanned document by
scoring each candidate family against the page images. It then checks
whether an optimised (smaller) variant of the chosen fonts is still
acceptable. It also keeps every worker's font data in line with the
registry.

The model has four parts, one module each, plus two shared modules:

- `Fonts` (`fonts.dfy`): the six families, the two default classes
  (Sans, Serif), the raw/optimised views and the font registry. Each default
  alias is a `(View, Family)` pair because the validator can make the
  optimised view's `SansDefault` point into the raw view. `MaxValue` is the
  exact integer value of `Number.MAX_VALUE`.
- `PageEval` (`page_eval.dfy`): `evalPageFonts`. It folds over the pages
  until the word budget is exceeded. The comparison kernel is a parameter
  `(Family, Visit) -> PageScore`. A `Visit` carries the page and the entries
  of the image, rotation and page-metrics arrays at the same index.
  `undefined` from a shorter array is `None`.
- `CandidateSelection` (`candidates.dfy`): scores a class's candidates in their
  declared order. The argmin is seeded with the baseline key and
  `MaxValue` and uses strict `<`.
- `WorkerSync` (`worker_sync.dfy`): `setFontAllWorker`. The `loadedRaw` and
  `loadedOpt` flags are immutable state that the function takes and returns.
  Messages to workers go in a log, one message per worker.
- `DefaultSelect` (`default_select.dfy`): `selectDefaultFontsDocument`.
- `OptValidate` (`opt_validate.dfy`): `validateOptimizedFonts`. Calls to
  `enableDisableFontOpt` are recorded as `ToggleFontOpt` entries in the log.

Every entry point is a pure function. The program's side effects become
parts of the result:

- `SetFontAllWorker` returns a `SyncResult`: the new load flags, the
  messages sent, and whether the promise resolved.
- `SelectDefaultFontsDocument` returns a `Step`: the new registry, the new
  load flags, the messages sent, and the resolved value.
- `ValidateOptimizedFonts` returns a `Validation`: the new registry, the
  toggle calls made, and the resolved value.

A resolved value of `None` means the JavaScript promise would reject.

Three behaviours of the code are easy to misread:

- **Argmin ties.** The selection loop is seeded with the baseline key and
  `Number.MAX_VALUE`, and it replaces the minimum only on a strictly smaller
  score. So a tie goes to the candidate declared first, not to the baseline:
  equal Carlito and NimbusSans scores select Carlito (`SansTieSelectsCarlito`).
- **Toggle after validation.** When nothing changed, the optimisation toggle
  is set to `true`. It is not restored to the value it had before the call
  (`NoRegressionReenables`).
- **Word counts and the font.** The word counts come from the kernel, and
  the kernel is called with the font. Candidates therefore stop at the same
  page only if the kernel's word counts do not depend on the font
  (`SameStopWhenWordsFontIndependent` takes this as a premise).

## Model

| member | source | states |
|---|---|---|
| `PageEval.EvalPageFonts` | js/fontEval.js:11-41 | Visits exactly the pages up to the unique stopping point. The budget held before each visited page, and the sample ended or the words exceeded `n` after the last one. Every kernel call uses the same font and the same index into all four arrays. The result is the unnormalised metric sum of the visited pages. A non-empty sample with `n >= 0` visits at least one page. |
| `PageEval.Run` | js/fontEval.js:17-38 | The loop from page `i` on keeps its invariant (running sums equal the prefix sums, every earlier check passed) and ends at a stopping point at or after `i`. |
| `PageEval.StopsAtUnique` | js/fontEval.js:17-18 | At most one prefix length satisfies the stopping rule, so the visited pages are the shortest prefix whose words exceed `n`, or the whole sample. |
| `PageEval.SameStopWhenWordsFontIndependent` | js/fontEval.js:26-37 | If the kernel gives two fonts the same word counts page by page, both candidates visit the same number of pages. |
| `PageEval.EvalPageFontsCongruent` | js/fontEval.js:26-28 | The aggregation reads the kernel only at its own font. Kernels that agree on that font give identical results. |
| `PageEval.TwoPageBudgets` | js/fontEval.js:17-40 | Pages of 40 and 30 words: budget 50 visits both and sums both metrics. Budget 20 visits only the first page and returns its metric. |
| `CandidateSelection.ScanPicksFirstMinimum` | js/fontEval.js:128-134 | The strict-`<` loop returns its seed when no entry scores below it. Otherwise it returns the first entry with the minimal score. |
| `CandidateSelection.Winner` | js/fontEval.js:125-134 | The selected key is always a candidate of the class, and its value never exceeds `MaxValue`. |
| `CandidateSelection.WinnerIsFirstMinimum` | js/fontEval.js:120-134 | Either every score is at least `MaxValue` and the baseline key survives with value `MaxValue`, or the winner is the first candidate whose score is minimal and below `MaxValue`. Any such first minimum is the winner, so the scores determine it. |
| `CandidateSelection.WinnerIsMinimal` | js/fontEval.js:125-134 | No candidate of the class scores strictly below the winner's value. |
| `CandidateSelection.SansWinnerRule` | js/fontEval.js:120-134 | Carlito wins iff its score is below `MaxValue` and no greater than NimbusSans's. A tie therefore selects Carlito. |
| `CandidateSelection.SerifBaselineRule` | js/fontEval.js:143-159 | NimbusRomNo9L wins iff all four serif scores are at least `MaxValue`, or its score is below `MaxValue` and strictly below each earlier candidate's. |
| `WorkerSync.BundleFor` | js/fontEval.js:66-76 | The load bundle covers all six families, each once. Each family carries its normal, italic and small-caps source from the active view. |
| `WorkerSync.SetFontAllWorker` | js/fontEval.js:43-97 | Without an active view: no messages and unchanged flags. It fails only when the active variant is not loaded, there is at least one worker, and the load is rejected. On that rejection the flags are unchanged and only the bundle round was sent. With no workers, `Promise.all([])` resolves at once, so the call succeeds. On success the active variant's flag is true and the other flag is unchanged. The log is the bundle round (only if that flag was false) followed by the round naming the active sans and serif defaults. Flags are never reset. |
| `WorkerSync.LoadsIffNotLoaded` | js/fontEval.js:57-79 | A message is a bundle load iff the active variant's flag was false and the message is among the first `workers`. |
| `WorkerSync.RepeatCallSendsNoBundle` | js/fontEval.js:57-96 | After a successful call, a second call with the same registry sends no bundle and keeps the flags. It sends the same default-name messages again. |
| `WorkerSync.EmptySchedulerAlwaysLoads` | js/fontEval.js:62-86 | With no workers, the call always resolves, marks the active variant loaded and sends no message. |
| `WorkerSync.FirstCallSendsBundle` | js/fontEval.js:43-79 | From process start (both flags false), the first `workers` messages of a call are the active variant's bundle round. |
| `DefaultSelect.PromoteWinner` | js/fontEval.js:136-141 | A non-baseline winner sets `raw.X` to the raw container and, when the optimised view exists, `opt.X` to the optimised one. A baseline winner leaves the registry untouched. The other class and `active` are unchanged, and validity is kept. |
| `DefaultSelect.PromoteWinners` | js/fontEval.js:136-165 | For each class, the alias equals the promoted winner if the winner is not the baseline, and keeps its previous value otherwise. |
| `DefaultSelect.SelectDefaultFontsDocument` | js/fontEval.js:105-170 | It resolves iff the registry is active and the first sync succeeds: the variant is already loaded, the load is acknowledged, or there are no workers. A rejected call keeps the flags. It sends only the bundle round, with no default-name round, or nothing at all without an active view. A resolved call marks exactly the active variant loaded. A rejection changes no alias. The result is true iff either class's winner differs from its baseline. On false the registry is unchanged. Aliases are updated class by class as stated for `PromoteWinners`. The registry invariant, `active` and the presence of the optimised view are kept. |
| `DefaultSelect.SelectDefaultMessages` | js/fontEval.js:110-169 | A resolved call sends at most one round of bundles, first. Then every worker is told the defaults before scoring, and then the defaults after the update. |
| `DefaultSelect.SyncPairMessages` | js/fontEval.js:112-167 | Two syncs on registries with the same active view: the second never loads. The log is the first call's bundles, then the names before the update, then the names after. |
| `DefaultSelect.PromotedFamilyIsBest` | js/fontEval.js:125-141 | An alias that changed names a non-baseline candidate scoring below `MaxValue`, and no candidate of its class scores less. |
| `DefaultSelect.SansTieSelectsCarlito` | js/fontEval.js:120-141 | Equal Carlito and NimbusSans scores below `MaxValue` make Carlito the sans default in both views, and the call returns true. |
| `OptValidate.ValidateOptimizedFonts` | js/fontEval.js:178-243 | Throws without an active view. Otherwise the toggle goes off once, and back on only if nothing changed. The sans alias falls back (to the raw winner in both views) iff the optimised metric is strictly greater than the best raw score. The serif alias changes iff the raw winner is not NimbusRomNo9L. The result is the disjunction of the two, and false leaves the aliases of both views unchanged. The presence of the optimised view is kept. |
| `OptValidate.ValidateIgnoresSerifOptMetric` | js/fontEval.js:183-184 | Pre-toggle kernels that agree on the active sans default's family give identical outcomes: the serif metric is computed but never used. |
| `OptValidate.SansTieKeepsOptimized` | js/fontEval.js:210-215 | When the optimised sans metric equals the best raw score, both sans aliases are kept. |
| `OptValidate.NoRegressionReenables` | js/fontEval.js:209-242 | With no sans fallback and no serif change, the result is false and the aliases of both views are unchanged. The toggle is set false, then true, whatever its state before the call. |
| `OptValidate.SerifWinnerForcesChange` | js/fontEval.js:224-239 | A raw Century score below `MaxValue` and no worse than NimbusRomNo9L's forces a serif change and leaves optimisation disabled, however well the optimised serif scored. |

## Left out

- The comparison kernel (`evalPageFont` from `./worker/compareOCRModule.js`, or `globalThis.gs.evalPageFont`) is not part of this model. It is a total function parameter. A kernel rejection, which would abort the aggregation, is not modelled.
- Environment branching is not modelled because it is platform plumbing feeding the same kernel: `browserMode`, the dynamic `import`, `.src` against image objects, `setFontAll` and `initCanvasNode`.
- `Promise.all` over the page images and the parallel fan-out to workers are not modelled. Each call is atomic and sequential, so the documented race on the load flags (line 81) does not arise.
- `enableDisableFontOpt` (from `./fontContainer.js`) is not part of this model. Its calls are recorded, but how it re-points `fontAll.active` is external. The validator therefore takes a separate post-toggle kernel. `ValidateOptimizedFonts` states nothing about the registry's `active` field after a call that resolves: the program leaves it at whatever `enableDisableFontOpt` selected. A call that throws never reaches the toggle, so its registry is stated unchanged.
- The outcome of the bundle load is an input, `loadOk`, and is the same for every call in one run: a partial failure is treated as a rejection. It matters only when there is at least one worker. A rejection of `setFontActiveWorker` is not modelled; that broadcast always resolves.
- Scores are integers, not IEEE-754 doubles. NaN, infinities and rounding in the running sums are not modelled. `Number.MAX_VALUE` is its exact integer value.
- Font binaries are references `Src(view, family, style)`, and a family's `normal.family` name is the `Family` value itself.
- Debug logging (`debug`, `console.log`) has no effect on the result.
