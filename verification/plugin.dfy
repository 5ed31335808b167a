/** The plugin body of index.js: the per-declaration gate and the
    media-query pass, over one declaration or one at-rule at a time. */
module Plugin {
  import opened Strings
  import opened Settings
  import opened Converter
  import opened Filters

  /** A declaration `prop: value` inside a rule. */
  datatype Declaration = Declaration(prop: string, value: string)

  /** What one declaration of a rule becomes: itself when a gate rejects it;
      otherwise a clone carrying the original value, inserted before it, and
      the declaration with its value converted. The clone is inserted even when
      conversion leaves the value as it was. */
  function ProcessDecl(cfg: Config, lists: PropLists, patternMatches: (string, string) -> bool,
                       d: Declaration, selector: SelectorValue): (r: seq<Declaration>)
    requires cfg.viewportWidth > 0.0
    ensures |r| == 1 || |r| == 2
    ensures |r| == 2
        <==> Contains(d.value, "px")
             && SatisfyPropList(cfg.propList, lists, d.prop)
             && !BlacklistedSelector(cfg.selectorBlackList, selector, patternMatches)
    ensures |r| == 1 ==> r == [d]
    ensures |r| == 2 ==> r[0] == d && r[1] == Declaration(d.prop, ConvertValue(cfg, d.value))
  {
    if IndexOf(d.value, "px") == -1 then [d]
    else if !SatisfyPropList(cfg.propList, lists, d.prop) then [d]
    else if BlacklistedSelector(cfg.selectorBlackList, selector, patternMatches) then [d]
    else
      var value := d.value;
      var clone := Declaration(d.prop, value);
      [clone, Declaration(d.prop, ConvertValue(cfg, value))]
  }

  /** The quick `px` test is case-sensitive although the pattern is not: a
      value spelling its unit only as `PX` (or `Px`, `pX`) is never converted. */
  lemma UpperCaseUnitIsSkipped(cfg: Config, lists: PropLists, patternMatches: (string, string) -> bool,
                               d: Declaration, selector: SelectorValue)
    requires cfg.viewportWidth > 0.0
    requires !Contains(d.value, "px")
    ensures ProcessDecl(cfg, lists, patternMatches, d, selector) == [d]
  {
  }

  /** A rejected declaration, and the clone of an accepted one, both carry the
      original value; only the last declaration of the result may differ. */
  lemma OriginalValueKept(cfg: Config, lists: PropLists, patternMatches: (string, string) -> bool,
                          d: Declaration, selector: SelectorValue)
    requires cfg.viewportWidth > 0.0
    ensures var r := ProcessDecl(cfg, lists, patternMatches, d, selector);
            r[0] == d && forall i :: 0 <= i < |r| ==> r[i].prop == d.prop
  {
  }

  /** The `@media` pass: with `mediaQuery` on, the parameters of a `media`
      at-rule containing lower-case `px` are converted like a value. */
  function ProcessMediaParams(cfg: Config, name: string, params: string): (r: string)
    requires cfg.viewportWidth > 0.0
    ensures !cfg.mediaQuery || name != "media" || !Contains(params, "px") ==> r == params
    ensures cfg.mediaQuery && name == "media" && Contains(params, "px") ==> r == ConvertValue(cfg, params)
  {
    if cfg.mediaQuery && name == "media" && IndexOf(params, "px") != -1 then
      ConvertValue(cfg, params)
    else
      params
  }

  /** With the default options media queries are never touched. */
  lemma DefaultsLeaveMediaQueries(name: string, params: string)
    ensures ProcessMediaParams(Merge(NoOverrides), name, params) == params
  {
    MergeNothingIsDefaults();
  }
}
