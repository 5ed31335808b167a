/** The plugin's options: the `defaults` record of index.js and the merge of
    user options over it. */
module Settings {
  import opened Wrappers

  /** An entry of `selectorBlackList`: a plain string, or a regular expression
      (kept as its source text; how it matches is left to the caller). */
  datatype BlacklistEntry = Literal(text: string) | Pattern(source: string)

  datatype Config = Config(
    viewportWidth: real,
    unitPrecision: nat,
    viewportUnit: string,
    selectorBlackList: seq<BlacklistEntry>,
    propList: seq<string>,
    minPixelValue: real,
    mediaQuery: bool)

  /** index.js `defaults` (the unused `viewportHeight` is not modelled). */
  const Defaults := Config(
    viewportWidth := 320.0,
    unitPrecision := 5,
    viewportUnit := "vw",
    selectorBlackList := [],
    propList := [],
    minPixelValue := 1.0,
    mediaQuery := false)

  /** The options a user passes; `None` is an option left out. */
  datatype Overrides = Overrides(
    viewportWidth: Option<real>,
    unitPrecision: Option<nat>,
    viewportUnit: Option<string>,
    selectorBlackList: Option<seq<BlacklistEntry>>,
    propList: Option<seq<string>>,
    minPixelValue: Option<real>,
    mediaQuery: Option<bool>)

  const NoOverrides := Overrides(None, None, None, None, None, None, None)

  function Pick<T>(o: Option<T>, d: T): T {
    match o
    case Some(v) => v
    case None => d
  }

  /** `objectAssign({}, defaults, options)`: each option given wins, every
      other field keeps its default. */
  function Merge(o: Overrides): (c: Config)
    ensures o.viewportWidth.Some? ==> c.viewportWidth == o.viewportWidth.value
    ensures o.viewportWidth.None? ==> c.viewportWidth == Defaults.viewportWidth
    ensures o.unitPrecision.Some? ==> c.unitPrecision == o.unitPrecision.value
    ensures o.unitPrecision.None? ==> c.unitPrecision == Defaults.unitPrecision
    ensures o.viewportUnit.Some? ==> c.viewportUnit == o.viewportUnit.value
    ensures o.viewportUnit.None? ==> c.viewportUnit == Defaults.viewportUnit
    ensures o.selectorBlackList.Some? ==> c.selectorBlackList == o.selectorBlackList.value
    ensures o.selectorBlackList.None? ==> c.selectorBlackList == []
    ensures o.propList.Some? ==> c.propList == o.propList.value
    ensures o.propList.None? ==> c.propList == []
    ensures o.minPixelValue.Some? ==> c.minPixelValue == o.minPixelValue.value
    ensures o.minPixelValue.None? ==> c.minPixelValue == Defaults.minPixelValue
    ensures o.mediaQuery.Some? ==> c.mediaQuery == o.mediaQuery.value
    ensures o.mediaQuery.None? ==> !c.mediaQuery
  {
    Config(
      Pick(o.viewportWidth, Defaults.viewportWidth),
      Pick(o.unitPrecision, Defaults.unitPrecision),
      Pick(o.viewportUnit, Defaults.viewportUnit),
      Pick(o.selectorBlackList, Defaults.selectorBlackList),
      Pick(o.propList, Defaults.propList),
      Pick(o.minPixelValue, Defaults.minPixelValue),
      Pick(o.mediaQuery, Defaults.mediaQuery))
  }

  /** With no options the configuration is the defaults, and the defaults
      convert with a positive width. */
  lemma MergeNothingIsDefaults()
    ensures Merge(NoOverrides) == Defaults
    ensures Defaults.viewportWidth > 0.0
  {
  }
}
