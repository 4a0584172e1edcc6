/** `setFontAllWorker`: keeps every worker's font data in line with the
    registry's active view, loading each variant's bundle at most once per
    process (the `loadedRaw`/`loadedOpt` flags), and tells every worker the
    active default families on each call. */
module WorkerSync {
  import opened Wrappers
  import opened Fonts

  /** Reference to the binary `fontAll.active[family][style].src`. */
  datatype Src = Src(view: View, family: Family, style: Style)

  /** One family of the load bundle: its normal, italic and small-caps sources. */
  datatype FamilySrc = FamilySrc(family: Family, normal: Src, italic: Src, smallCaps: Src)

  /** The two worker entry points this core calls. */
  datatype WorkerCall =
    | LoadFontContainerAll(bundle: seq<FamilySrc>, opt: bool)
    | SetFontActive(opt: bool, sans: Family, serif: Family)

  /** An observable effect: a message to worker `worker`, or a call of the
      optimisation toggle `enableDisableFontOpt(enable)`. */
  datatype Msg = ToWorker(worker: nat, call: WorkerCall) | ToggleFontOpt(enable: bool)

  predicate IsLoad(m: Msg) {
    m.ToWorker? && m.call.LoadFontContainerAll?
  }

  predicate IsSetActive(m: Msg) {
    m.ToWorker? && m.call.SetFontActive?
  }

  /** The process-wide flags: whether each variant's bundle has been
      delivered to every worker. */
  datatype LoadFlags = LoadFlags(loadedRaw: bool, loadedOpt: bool) {

    function Loaded(v: View): bool {
      if v == Raw then loadedRaw else loadedOpt
    }

    function MarkLoaded(v: View): (f: LoadFlags)
      ensures f.Loaded(v)
      ensures f.Loaded(OtherView(v)) == Loaded(OtherView(v))
    {
      if v == Raw then this.(loadedRaw := true) else this.(loadedOpt := true)
    }
  }

  /** Both flags start false when the module is loaded. */
  const InitialFlags: LoadFlags := LoadFlags(false, false)

  /** Family order of the bundle object. */
  const BundleOrder: seq<Family> := [Carlito, Century, Garamond, Palatino, NimbusRomNo9L, NimbusSans]

  function FamiliesOf(b: seq<FamilySrc>): (fs: seq<Family>)
    ensures |fs| == |b|
    ensures forall i :: 0 <= i < |b| ==> fs[i] == b[i].family
  {
    seq(|b|, i requires 0 <= i < |b| => b[i].family)
  }

  lemma BundleOrderComplete()
    ensures forall f: Family :: f in BundleOrder
  {
    forall f: Family ensures f in BundleOrder {
      match f
      case Carlito => assert BundleOrder[0] == f;
      case Century => assert BundleOrder[1] == f;
      case Garamond => assert BundleOrder[2] == f;
      case Palatino => assert BundleOrder[3] == f;
      case NimbusRomNo9L => assert BundleOrder[4] == f;
      case NimbusSans => assert BundleOrder[5] == f;
    }
  }

  /** The six-family, three-style bundle of view `v`. */
  function BundleFor(v: View): (b: seq<FamilySrc>)
    ensures |b| == 6
    ensures forall f: Family :: f in FamiliesOf(b)
    ensures forall i, j :: 0 <= i < j < |b| ==> b[i].family != b[j].family
    ensures forall i :: 0 <= i < |b| ==>
      && b[i].normal == Src(v, b[i].family, Normal)
      && b[i].italic == Src(v, b[i].family, Italic)
      && b[i].smallCaps == Src(v, b[i].family, SmallCaps)
  {
    var b := seq(6, i requires 0 <= i < 6 =>
      var f := BundleOrder[i];
      FamilySrc(f, Src(v, f, Normal), Src(v, f, Italic), Src(v, f, SmallCaps)));
    assert b[0].family == Carlito && b[1].family == Century && b[2].family == Garamond;
    assert b[3].family == Palatino && b[4].family == NimbusRomNo9L && b[5].family == NimbusSans;
    assert FamiliesOf(b) == BundleOrder;
    BundleOrderComplete();
    b
  }

  /** One message per worker, worker `i` receiving the `i`-th. */
  function Broadcast(workers: nat, call: WorkerCall): (ms: seq<Msg>)
    ensures |ms| == workers
    ensures forall i :: 0 <= i < workers ==> ms[i] == ToWorker(i, call)
  {
    seq(workers, i requires 0 <= i < workers => ToWorker(i, call))
  }

  /** The bundle round: every worker gets view `v`'s full bundle. */
  function LoadRound(v: View, workers: nat): (ms: seq<Msg>)
    ensures |ms| == workers
    ensures forall i :: 0 <= i < workers ==>
      && IsLoad(ms[i])
      && ms[i] == ToWorker(i, LoadFontContainerAll(BundleFor(v), v == Opt))
  {
    Broadcast(workers, LoadFontContainerAll(BundleFor(v), v == Opt))
  }

  /** The default-name round: every worker is told the variant and the
      families the defaults `d` alias. */
  function NameRound(v: View, d: Defaults, workers: nat): (ms: seq<Msg>)
    ensures |ms| == workers
    ensures forall i :: 0 <= i < workers ==>
      && !IsLoad(ms[i]) && IsSetActive(ms[i])
      && ms[i] == ToWorker(i, SetFontActive(v == Opt, d.Get(Sans).family, d.Get(Serif).family))
  {
    Broadcast(workers, SetFontActive(v == Opt, d.sans.family, d.serif.family))
  }

  /** Whether the bundle round resolves: `Promise.all` over no workers
      resolves at once, so only a non-empty scheduler can reject the load. */
  predicate LoadAcked(loadOk: bool, workers: nat) {
    loadOk || workers == 0
  }

  /** Outcome of one call: the new flags, the messages sent, and whether the
      returned promise resolved (`false` when a worker rejected the load). */
  datatype SyncResult = SyncResult(flags: LoadFlags, log: seq<Msg>, ok: bool)

  /** `setFontAllWorker(scheduler, fontAll)` with `workers` workers;
      `loadOk` is whether every worker acknowledged the bundle load. */
  function SetFontAllWorker(flags: LoadFlags, reg: Registry, workers: nat, loadOk: bool): (r: SyncResult)
    requires Valid(reg)
    // No active view: nothing happens.
    ensures reg.active.None? ==> r == SyncResult(flags, [], true)
    // Flags are never reset.
    ensures forall v :: flags.Loaded(v) ==> r.flags.Loaded(v)
    ensures reg.active.Some? ==>
      var v := reg.active.value;
      var need := !flags.Loaded(v);
      // The call fails only on a rejected load, and then changes no flag
      // and tells no worker the defaults.
      && (r.ok <==> !need || LoadAcked(loadOk, workers))
      && (!r.ok ==> r.flags == flags && r.log == LoadRound(v, workers))
      // On success the active variant is loaded, the other flag is
      // untouched, and the bundle round (only if the variant was not yet
      // loaded) is followed by the round naming the active defaults.
      && (r.ok ==>
            && r.flags.Loaded(v)
            && r.flags.Loaded(OtherView(v)) == flags.Loaded(OtherView(v))
            && r.log == (if need then LoadRound(v, workers) else []) + NameRound(v, ActiveDefaults(reg), workers))
  {
    if reg.active.None? then SyncResult(flags, [], true)
    else
      var v := reg.active.value;
      var opt := v == Opt;
      var loads := if flags.Loaded(v) then [] else Broadcast(workers, LoadFontContainerAll(BundleFor(v), opt));
      if !flags.Loaded(v) && !LoadAcked(loadOk, workers) then SyncResult(flags, loads, false)
      else
        var flags' := if flags.Loaded(v) then flags else flags.MarkLoaded(v);
        var d := ActiveDefaults(reg);
        var names := Broadcast(workers, SetFontActive(opt, d.sans.family, d.serif.family));
        SyncResult(flags', loads + names, true)
  }

  /** The bundle is sent iff the active variant's flag was false: exactly
      the first `workers` messages are loads when it was, none otherwise. */
  lemma LoadsIffNotLoaded(flags: LoadFlags, reg: Registry, workers: nat, loadOk: bool)
    requires Valid(reg) && reg.active.Some?
    ensures var r := SetFontAllWorker(flags, reg, workers, loadOk);
            var need := !flags.Loaded(reg.active.value);
            forall i :: 0 <= i < |r.log| ==> (IsLoad(r.log[i]) <==> need && i < workers)
  {
    var r := SetFontAllWorker(flags, reg, workers, loadOk);
    var v := reg.active.value;
    var loads := if flags.Loaded(v) then [] else LoadRound(v, workers);
    if r.ok {
      var names := NameRound(v, ActiveDefaults(reg), workers);
      forall i | 0 <= i < |r.log| ensures IsLoad(r.log[i]) <==> !flags.Loaded(v) && i < workers {
        if i < |loads| {
          assert r.log[i] == loads[i];
        } else {
          assert r.log[i] == names[i - |loads|];
        }
      }
    }
  }

  /** A second call with the same active variant sends no bundle, sends the
      same default-name messages, and leaves the flags as they are. */
  lemma RepeatCallSendsNoBundle(flags: LoadFlags, reg: Registry, workers: nat, ok1: bool, ok2: bool)
    requires Valid(reg) && reg.active.Some?
    requires SetFontAllWorker(flags, reg, workers, ok1).ok
    ensures var r1 := SetFontAllWorker(flags, reg, workers, ok1);
            var r2 := SetFontAllWorker(r1.flags, reg, workers, ok2);
            && r2.ok
            && r2.flags == r1.flags
            && (forall i :: 0 <= i < |r2.log| ==> !IsLoad(r2.log[i]))
            && r2.log == r1.log[|r1.log| - workers..]
  {
    var r1 := SetFontAllWorker(flags, reg, workers, ok1);
    var v := reg.active.value;
    var names := NameRound(v, ActiveDefaults(reg), workers);
    var r2 := SetFontAllWorker(r1.flags, reg, workers, ok2);
    assert r2.log == [] + names;
    assert r1.log[|r1.log| - workers..] == names;
  }

  /** With no workers there is nothing to reject: the call always resolves,
      marks the active variant loaded and sends nothing. */
  lemma EmptySchedulerAlwaysLoads(flags: LoadFlags, reg: Registry, loadOk: bool)
    requires Valid(reg) && reg.active.Some?
    ensures var r := SetFontAllWorker(flags, reg, 0, loadOk);
            && r.ok
            && r.flags.Loaded(reg.active.value)
            && r.log == []
  {
  }

  /** The first call after the module is loaded sends the active variant's
      bundle to every worker before naming the defaults. */
  lemma FirstCallSendsBundle(reg: Registry, workers: nat, loadOk: bool)
    requires Valid(reg) && reg.active.Some?
    ensures var r := SetFontAllWorker(InitialFlags, reg, workers, loadOk);
            && |r.log| >= workers
            && r.log[..workers] == LoadRound(reg.active.value, workers)
  {
    var r := SetFontAllWorker(InitialFlags, reg, workers, loadOk);
    var loads := LoadRound(reg.active.value, workers);
    if r.ok {
      assert r.log[..workers] == loads;
    }
  }
}
