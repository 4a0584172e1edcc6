/** The font registry of fontEval.js: the six families, the two default
    classes, the raw and optimised views and the view-tagged default aliases. */
module Fonts {
  import opened Wrappers

  /** The closed set of concrete font families. */
  datatype Family = Carlito | NimbusSans | Century | Palatino | Garamond | NimbusRomNo9L

  /** The two default slots, `SansDefault` and `SerifDefault`. */
  datatype FontClass = Sans | Serif

  /** Which variant of the font binaries a container holds. */
  datatype View = Raw | Opt

  /** The three style slots of a family. */
  datatype Style = Normal | Italic | SmallCaps

  function OtherView(v: View): (w: View)
    ensures w != v
  {
    if v == Raw then Opt else Raw
  }

  /** `Number.MAX_VALUE` as an exact integer: (2^53 - 1) * 2^971. */
  const MaxValue: int := 179769313486231570814527423731704356798070567525844996598917476803157260780028538760589558632766878171540458953514382464234321326889464182768467546703537516986049910576551282076245490090389328944075868508455133942304583236903222948165808559332123348274797826204144723168738177180919299881250404026184124858368

  /** The default word budget `n` of `evalPageFonts`. */
  const DefaultBudget: int := 500

  /** Candidates of a class in the order the metric objects declare them. */
  function Candidates(c: FontClass): (r: seq<Family>)
    ensures |r| >= 2
    ensures forall i, j :: 0 <= i < j < |r| ==> r[i] != r[j]
  {
    match c
    case Sans => [Carlito, NimbusSans]
    case Serif => [Century, Palatino, Garamond, NimbusRomNo9L]
  }

  /** The key the argmin is seeded with; it is also the last candidate. */
  function Baseline(c: FontClass): (r: Family)
    ensures r == Candidates(c)[|Candidates(c)| - 1]
  {
    match c
    case Sans => NimbusSans
    case Serif => NimbusRomNo9L
  }

  predicate InClass(c: FontClass, f: Family) {
    f in Candidates(c)
  }

  /** A default alias: the container `view[family]` it points at.  The view
      tag matters because the validator can make an optimised-view alias
      point into the raw view. */
  datatype Alias = Alias(view: View, family: Family)

  /** The `SansDefault` and `SerifDefault` aliases of one view. */
  datatype Defaults = Defaults(sans: Alias, serif: Alias) {

    function Get(c: FontClass): Alias {
      match c
      case Sans => sans
      case Serif => serif
    }

    function Set(c: FontClass, a: Alias): (d: Defaults)
      ensures d.Get(c) == a
      ensures forall c' :: c' != c ==> d.Get(c') == Get(c')
    {
      match c
      case Sans => this.(sans := a)
      case Serif => this.(serif := a)
    }
  }

  /** The process-wide font registry `fontAll`: the raw view, the optional
      optimised view, and which of them `active` points at (absent before
      the registry is activated). */
  datatype Registry = Registry(raw: Defaults, opt: Option<Defaults>, active: Option<View>)

  predicate DefaultsValid(d: Defaults) {
    forall c :: InClass(c, d.Get(c).family)
  }

  /** Registry invariant: each default aliases a family of its own class, the
      raw view's aliases stay inside the raw view, and `active` only points
      at a view that exists. */
  predicate Valid(reg: Registry) {
    && DefaultsValid(reg.raw)
    && (forall c :: reg.raw.Get(c).view == Raw)
    && (reg.opt.Some? ==> DefaultsValid(reg.opt.value))
    && (reg.active.Some? && reg.active.value == Opt ==> reg.opt.Some?)
  }

  /** The aliases seen through `fontAll.active`. */
  function ActiveDefaults(reg: Registry): (d: Defaults)
    requires Valid(reg) && reg.active.Some?
    ensures DefaultsValid(d)
    ensures reg.active == Some(Raw) ==> d == reg.raw
    ensures reg.active == Some(Opt) ==> reg.opt == Some(d)
  {
    if reg.active.value == Raw then reg.raw else reg.opt.value
  }

  /** Rewrites one class's alias: `raw.X := rawAlias`, and `opt.X := optAlias`
      only when the optimised view exists. */
  function SetDefault(reg: Registry, c: FontClass, rawAlias: Alias, optAlias: Alias): (r: Registry)
    ensures r.active == reg.active && r.opt.Some? == reg.opt.Some?
    ensures r.raw.Get(c) == rawAlias
    ensures reg.opt.Some? ==> r.opt.value.Get(c) == optAlias
    ensures forall c' :: c' != c ==> r.raw.Get(c') == reg.raw.Get(c')
    ensures forall c' :: c' != c && reg.opt.Some? ==> r.opt.value.Get(c') == reg.opt.value.Get(c')
    ensures (Valid(reg) && rawAlias.view == Raw && InClass(c, rawAlias.family)
             && InClass(c, optAlias.family)) ==> Valid(r)
  {
    var opt := if reg.opt.Some? then Some(reg.opt.value.Set(c, optAlias)) else None;
    Registry(reg.raw.Set(c, rawAlias), opt, reg.active)
  }
}
