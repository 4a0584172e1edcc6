/** `selectDefaultFontsDocument`: scores every sans and serif candidate on
    the document, promotes each class's winner to the default alias when it
    is not the baseline, and brings the workers in line before and after. */
module DefaultSelect {
  import opened Wrappers
  import opened Fonts
  import opened PageEval
  import opened CandidateSelection
  import opened WorkerSync

  /** State after an entry point: the registry, the load flags, the messages
      sent, and the resolved value (`None` when the promise rejects). */
  datatype Step = Step(reg: Registry, flags: LoadFlags, log: seq<Msg>, result: Option<bool>)

  /** The alias update of one class: `raw.X := raw[w]` and, when the
      optimised view exists, `opt.X := opt[w]` — only if `w` is not the
      baseline; otherwise the existing alias stays as it is. */
  function PromoteWinner(reg: Registry, c: FontClass, w: Family): (r: Registry)
    requires Valid(reg) && InClass(c, w)
    ensures Valid(r)
    ensures r.active == reg.active && r.opt.Some? == reg.opt.Some?
    ensures w == Baseline(c) ==> r == reg
    ensures w != Baseline(c) ==> r.raw.Get(c) == Alias(Raw, w)
    ensures w != Baseline(c) && reg.opt.Some? ==> r.opt.value.Get(c) == Alias(Opt, w)
    ensures forall c' :: c' != c ==> r.raw.Get(c') == reg.raw.Get(c')
    ensures forall c' :: c' != c && reg.opt.Some? ==> r.opt.value.Get(c') == reg.opt.value.Get(c')
  {
    if w != Baseline(c) then SetDefault(reg, c, Alias(Raw, w), Alias(Opt, w)) else reg
  }

  /** Both alias updates, sans first, with each class's winner on `k`. */
  function PromoteWinners(reg: Registry, k: Kernel, s: Sample): (r: Registry)
    requires Valid(reg)
    ensures Valid(r)
    ensures r.active == reg.active && r.opt.Some? == reg.opt.Some?
    ensures forall c :: (r.raw.Get(c)
      == if Winner(k, c, s).family != Baseline(c) then Alias(Raw, Winner(k, c, s).family) else reg.raw.Get(c))
    ensures forall c :: reg.opt.Some? ==> (r.opt.value.Get(c)
      == if Winner(k, c, s).family != Baseline(c) then Alias(Opt, Winner(k, c, s).family) else reg.opt.value.Get(c))
  {
    var reg1 := PromoteWinner(reg, Sans, Winner(k, Sans, s).family);
    PromoteWinner(reg1, Serif, Winner(k, Serif, s).family)
  }

  /** `selectDefaultFontsDocument(pageArr, binaryImageArr, binaryRotatedArr,
      fontAll)` with `workers` workers, the comparison kernel `k`, and
      `loadOk` telling whether a bundle load is acknowledged by every worker. */
  function SelectDefaultFontsDocument(
    reg: Registry, flags: LoadFlags, workers: nat, loadOk: bool, k: Kernel, s: Sample): (r: Step)
    requires Valid(reg)
    ensures Valid(r.reg)
    ensures r.reg.active == reg.active && r.reg.opt.Some? == reg.opt.Some?
    ensures forall v :: flags.Loaded(v) ==> r.flags.Loaded(v)
    // It resolves iff the registry is active and the first sync succeeds;
    // a rejection leaves the registry alone.
    ensures r.result.Some? <==> reg.active.Some? && (flags.Loaded(reg.active.value) || LoadAcked(loadOk, workers))
    ensures r.result.None? ==> r.reg == reg
    // A rejected first sync keeps the flags and sends only the bundle round;
    // a resolved call marks exactly the active variant loaded.
    ensures r.result.None? ==>
      && r.flags == flags
      && r.log == (if reg.active.Some? then LoadRound(reg.active.value, workers) else [])
    ensures r.result.Some? ==> r.flags == flags.MarkLoaded(reg.active.value)
    // Returns whether either class's winner differs from its baseline.
    ensures r.result.Some? ==>
      (r.result.value <==> Winner(k, Sans, s).family != NimbusSans || Winner(k, Serif, s).family != NimbusRomNo9L)
    ensures r.result == Some(false) ==> r.reg == reg
    // Each class: a non-baseline winner is promoted in both views,
    // otherwise the alias is left as it was, not reset to the baseline.
    ensures r.result.Some? ==> forall c :: (r.reg.raw.Get(c)
      == if Winner(k, c, s).family != Baseline(c) then Alias(Raw, Winner(k, c, s).family) else reg.raw.Get(c))
    ensures r.result.Some? && reg.opt.Some? ==> forall c :: (r.reg.opt.value.Get(c)
      == if Winner(k, c, s).family != Baseline(c) then Alias(Opt, Winner(k, c, s).family) else reg.opt.value.Get(c))
  {
    var sync1 := SetFontAllWorker(flags, reg, workers, loadOk);
    if !sync1.ok || reg.active.None? then
      // A rejected load aborts; without an active view `fontAll.active.Carlito` throws.
      Step(reg, sync1.flags, sync1.log, None)
    else
      var reg2 := PromoteWinners(reg, k, s);
      var sync2 := SetFontAllWorker(sync1.flags, reg2, workers, loadOk);
      var change := Winner(k, Sans, s).family != NimbusSans || Winner(k, Serif, s).family != NimbusRomNo9L;
      assert !change ==> reg2 == reg;
      Step(reg2, sync2.flags, sync1.log + sync2.log, if sync2.ok then Some(change) else None)
  }

  /** The worker messages of a resolved call: at most one bundle round, at
      the start; then every worker is told the defaults as they were before
      scoring, and finally the defaults as they are after the update. */
  lemma SelectDefaultMessages(reg: Registry, flags: LoadFlags, workers: nat, loadOk: bool, k: Kernel, s: Sample)
    requires Valid(reg)
    requires SelectDefaultFontsDocument(reg, flags, workers, loadOk, k, s).result.Some?
    ensures var r := SelectDefaultFontsDocument(reg, flags, workers, loadOk, k, s);
      var v := reg.active.value;
      var loads := if flags.Loaded(v) then 0 else workers;
      var before := ActiveDefaults(reg);
      var after := ActiveDefaults(r.reg);
      && r.flags.Loaded(v)
      && |r.log| == loads + 2 * workers
      && (forall i :: 0 <= i < |r.log| ==> (IsLoad(r.log[i]) <==> i < loads))
      && r.log[loads..loads + workers]
         == Broadcast(workers, SetFontActive(v == Opt, before.Get(Sans).family, before.Get(Serif).family))
      && r.log[loads + workers..]
         == Broadcast(workers, SetFontActive(v == Opt, after.Get(Sans).family, after.Get(Serif).family))
  {
    var r := SelectDefaultFontsDocument(reg, flags, workers, loadOk, k, s);
    var sync1 := SetFontAllWorker(flags, reg, workers, loadOk);
    var reg2 := PromoteWinners(reg, k, s);
    assert r.reg == reg2;
    assert r.log == sync1.log + SetFontAllWorker(sync1.flags, reg2, workers, loadOk).log;
    SyncPairMessages(flags, reg, reg2, workers, loadOk);
  }

  /** Two syncs in a row on registries with the same active view: the
      second never loads, and the log is the first call's bundles (if any),
      then each registry's default names in turn. */
  lemma SyncPairMessages(flags: LoadFlags, regA: Registry, regB: Registry, workers: nat, loadOk: bool)
    requires Valid(regA) && Valid(regB) && regA.active.Some? && regB.active == regA.active
    requires SetFontAllWorker(flags, regA, workers, loadOk).ok
    ensures var s1 := SetFontAllWorker(flags, regA, workers, loadOk);
      var s2 := SetFontAllWorker(s1.flags, regB, workers, loadOk);
      var log := s1.log + s2.log;
      var v := regA.active.value;
      var loads := if flags.Loaded(v) then 0 else workers;
      var before := ActiveDefaults(regA);
      var after := ActiveDefaults(regB);
      && s2.ok
      && s2.flags.Loaded(v)
      && |log| == loads + 2 * workers
      && (forall i :: 0 <= i < |log| ==> (IsLoad(log[i]) <==> i < loads))
      && log[loads..loads + workers]
         == Broadcast(workers, SetFontActive(v == Opt, before.Get(Sans).family, before.Get(Serif).family))
      && log[loads + workers..]
         == Broadcast(workers, SetFontActive(v == Opt, after.Get(Sans).family, after.Get(Serif).family))
  {
    var s1 := SetFontAllWorker(flags, regA, workers, loadOk);
    var s2 := SetFontAllWorker(s1.flags, regB, workers, loadOk);
    var v := regA.active.value;
    var loads := if flags.Loaded(v) then [] else LoadRound(v, workers);
    var names1 := NameRound(v, ActiveDefaults(regA), workers);
    var names2 := NameRound(v, ActiveDefaults(regB), workers);
    assert s2.log == [] + names2;
    assert s1.log + s2.log == loads + names1 + names2;
    RoundsLayout(loads, names1, names2, workers);
  }

  /** Slicing a bundle round followed by two name rounds. */
  lemma RoundsLayout(loads: seq<Msg>, names1: seq<Msg>, names2: seq<Msg>, workers: nat)
    requires forall i :: 0 <= i < |loads| ==> IsLoad(loads[i])
    requires |names1| == workers && |names2| == workers
    requires forall i :: 0 <= i < workers ==> !IsLoad(names1[i]) && !IsLoad(names2[i])
    ensures var log := loads + names1 + names2;
      && |log| == |loads| + 2 * workers
      && (forall i :: 0 <= i < |log| ==> (IsLoad(log[i]) <==> i < |loads|))
      && log[|loads|..|loads| + workers] == names1
      && log[|loads| + workers..] == names2
  {
    var log := loads + names1 + names2;
    assert log[|loads|..|loads| + workers] == names1;
    assert log[|loads| + workers..] == names2;
    forall i | 0 <= i < |log| ensures IsLoad(log[i]) <==> i < |loads| {
      if i < |loads| {
        assert log[i] == loads[i];
      } else if i < |loads| + workers {
        assert log[i] == names1[i - |loads|];
      } else {
        assert log[i] == names2[i - |loads| - workers];
      }
    }
  }

  /** A non-baseline winner scores below `MaxValue` and no worse than any
      candidate of its class. */
  lemma WinnerBeatsClass(k: Kernel, c: FontClass, s: Sample, g: Family)
    requires InClass(c, g) && Winner(k, c, s).family != Baseline(c)
    ensures CandidateScore(k, Winner(k, c, s).family, s) < MaxValue
    ensures CandidateScore(k, Winner(k, c, s).family, s) <= CandidateScore(k, g, s)
  {
    var w := Winner(k, c, s);
    WinnerIsFirstMinimum(k, c, s);
    WinnerIsMinimal(k, c, s, g);
    var entries := ScoreClass(k, c, s);
    var j :| FirstMinBelow(entries, MaxValue, j) && w == entries[j];
    assert w.score == CandidateScore(k, w.family, s);
  }

  /** Only a strict improvement over every other candidate, or a tie won by
      declaration order, moves an alias: a changed alias names a candidate
      below `MaxValue` whose score no candidate of its class beats. */
  lemma PromotedFamilyIsBest(
    reg: Registry, flags: LoadFlags, workers: nat, loadOk: bool, k: Kernel, s: Sample, c: FontClass, g: Family)
    requires Valid(reg) && InClass(c, g)
    requires SelectDefaultFontsDocument(reg, flags, workers, loadOk, k, s).reg.raw.Get(c) != reg.raw.Get(c)
    ensures var f := SelectDefaultFontsDocument(reg, flags, workers, loadOk, k, s).reg.raw.Get(c).family;
            && f != Baseline(c)
            && CandidateScore(k, f, s) < MaxValue
            && CandidateScore(k, f, s) <= CandidateScore(k, g, s)
  {
    var r := SelectDefaultFontsDocument(reg, flags, workers, loadOk, k, s);
    var w := Winner(k, c, s).family;
    assert r.result.Some?;
    assert w != Baseline(c) && r.reg.raw.Get(c) == Alias(Raw, w);
    WinnerBeatsClass(k, c, s, g);
  }

  /** Equal Carlito and NimbusSans scores below `MaxValue` make Carlito the
      sans default: the tie goes to the candidate declared first, not to
      the NimbusSans baseline. */
  lemma SansTieSelectsCarlito(reg: Registry, flags: LoadFlags, workers: nat, loadOk: bool, k: Kernel, s: Sample)
    requires Valid(reg) && reg.active.Some? && (flags.Loaded(reg.active.value) || LoadAcked(loadOk, workers))
    requires CandidateScore(k, Carlito, s) == CandidateScore(k, NimbusSans, s) < MaxValue
    ensures var r := SelectDefaultFontsDocument(reg, flags, workers, loadOk, k, s);
            && r.result == Some(true)
            && r.reg.raw.sans == Alias(Raw, Carlito)
            && (reg.opt.Some? ==> r.reg.opt.value.sans == Alias(Opt, Carlito))
  {
    SansWinnerRule(k, s);
    var r := SelectDefaultFontsDocument(reg, flags, workers, loadOk, k, s);
    assert r.reg.raw.Get(Sans) == Alias(Raw, Carlito);
    if reg.opt.Some? {
      assert r.reg.opt.value.Get(Sans) == Alias(Opt, Carlito);
    }
  }
}
