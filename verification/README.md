# postcss-px-to-viewport: the value-rewriting core in Dafny

postcss-px-to-viewport is a PostCSS plugin. It rewrites pixel lengths in
stylesheet values (`100px`) into viewport lengths (`31.25vw`). It leaves
quoted strings, `url(...)` arguments and other units alone. This project
models the plugin's core in `index.js` and proves properties of it:

- the scan `value.replace(pxRegex, pxReplace)` with the pattern
  `"[^"]+"|'[^']+'|url\([^\)]+\)|(\d*\.?\d+)px` (flags `i` and `g`);
- the replacement callback `createPxReplace`;
- the two-step rounding `toFixed`;
- the property matcher `createPropListMatcher`;
- the selector test `blacklistedSelector`;
- the declaration gate and the `@media` pass of the plugin body;
- the `defaults` record and how options merge over it.

Modules:

- `Wrappers`: `Option`.
- `Strings`: JavaScript `indexOf`. Its contract says it returns the first
  occurrence, and -1 exactly when there is none.
- `Decimal`: the numerals of `\d*\.?\d+` and their `parseFloat` value, as an
  exact rational. Also the decimal text of a number on a 10^-n grid.
- `Rounding`: `toFixed` over exact reals.
- `Scanner`: the leftmost scan. At each position it takes the first
  alternative that matches; otherwise it copies one character. It produces
  segments.
- `Converter`: the callback, and the rewrite of a whole value.
- `Filters`: the property matcher and the selector blacklist.
- `Settings`: the options and their defaults.
- `Plugin`: what one declaration, and one `@media` at-rule, becomes.
- `Scenarios`: concrete conversions worked through the model.

Three details of `index.js` shape the model:

- `Math.round` (index.js:82) is `floor(x + 0.5)`, so a tie goes towards
  +infinity. On the non-negative values the plugin reaches, this is rounding
  half away from zero, because a pixel numeral has no sign.
- The threshold test is `pixels <= minPixelValue` (index.js:73). With the
  default `minPixelValue` of 1 (index.js:22), `1px` therefore stays `1px`.
  `1px` at width 375 and precision 2 becomes `0.27vw` only when
  `minPixelValue` is below 1, and `Scenarios.NarrowOnePixel` requires that.
- The ends-with test of the property matcher (index.js:116 and 122) is
  `prop.indexOf(m) === prop.length - m.length`, which differs from a true
  suffix test. It looks only at the first occurrence of `m`. It also
  accepts any property that lacks `m` when `m` is exactly one character
  longer than the property. The model keeps this test as written.

## Model

| member | source | states |
|---|---|---|
| Strings.IndexOf | index.js:41 | `s.indexOf(t)` is the first index where `t` occurs in `s`, and -1 exactly when `t` occurs nowhere |
| Decimal.NumberValue | index.js:72 | `parseFloat` of a numeral the pattern captures is a non-negative exact rational; `Decimal.Render` is its right inverse on every grid point |
| Decimal.Render | index.js:75 | the text of k / 10^n is a numeral whose `parseFloat` value is exactly k / 10^n; it has no trailing zero after a point, does not start with a point, and starts with `0` only as `0` itself or before the point |
| Converter.FormatNumber | index.js:75 | the string a converted length is concatenated as reads back as the same number; it has no trailing fractional zero and no superfluous leading zero or bare leading point |
| Rounding.ToFixed | index.js:79-83 | `toFixed` over exact reals; what it computes is stated by the `Rounding.ToFixed*` lemmas below |
| Rounding.ToFixedIsHalfUp | index.js:79-83 | truncating at precision + 1 digits and then rounding by tens equals rounding the exact value half up at `precision` digits |
| Rounding.ToFixedOnGrid | index.js:79-83 | the result of `toFixed` is a whole multiple of 10^-precision |
| Rounding.ToFixedNearest | index.js:79-83 | the result is the grid point nearest to the input, a tie going up |
| Rounding.ToFixedExactOnGrid | index.js:79-83 | a value already on the grid comes back unchanged |
| Rounding.ToFixedIdempotent | index.js:79-83 | applying `toFixed` twice is the same as applying it once |
| Rounding.ToFixedMonotone | index.js:79-83 | `toFixed` preserves order |
| Rounding.ToFixedNonNegative | index.js:79-83 | a non-negative input gives a non-negative result |
| Converter.ViewportValue | index.js:75 | `toFixed(p / viewportWidth * 100, unitPrecision)` of a non-negative length is non-negative and lies on the precision's grid |
| Scanner.MatchQuoted | index.js:13 | the quoted alternative matches at the start exactly when some prefix is a quote, one or more non-quotes and the same quote, and it takes that prefix |
| Scanner.MatchUrl | index.js:13 | `url(`, in any case, then one or more characters other than `)`, then `)`; there is at most one such prefix, and it is the one taken |
| Scanner.MatchPixel | index.js:13 | the pixel alternative matches a prefix that is a numeral followed by `px` in any case |
| Scanner.MatchAt | index.js:13 | what matches at a position is a prefix the whole pattern matches, classified by its first character; any such prefix is the one returned |
| Scanner.Scan | index.js:13 | the segments of a value concatenate back to the value; each is a quoted span, a url span, a pixel token or one unmatched character; and the segmentation is leftmost-first: a character is copied alone exactly when no alternative matches at its position, and otherwise the segment is a prefix of the rest that the pattern matches, classified by its first character |
| Scanner.LeftmostScanUnique | index.js:13 | there is only one leftmost-first segmentation of a value, so `Scanner.Scan` is the scan `replace` performs |
| Scanner.ScanSpanFirst | index.js:13 | a span the pattern matches at the front is taken whole, and the scan resumes after it |
| Scanner.ScanLiteralIffNoMatch | index.js:13 | a character is copied alone exactly when no alternative matches at its position |
| Converter.ReplaceMatch | index.js:69-76 | a segment without a capture, or a pixel token at most `minPixelValue`, comes back as matched; a larger pixel token becomes a numeral whose value is the converted length, followed by `viewportUnit` |
| Converter.ConvertValue | index.js:49 | a value without `px` in any case, or whose pixel tokens are all at most `minPixelValue`, comes back unchanged; the four lemmas below determine the result span by span |
| Converter.ConvertCopiesQuotedAndUrl | index.js:13 | a quoted or `url(...)` span is copied as written, even when it contains pixel tokens |
| Converter.ConvertCopiesUnmatched | index.js:13 | a character at which nothing matches is copied, and the rewrite continues after it |
| Converter.ConvertCopiesPlainChar | index.js:13 | a character that cannot open any alternative is copied, whatever follows it |
| Converter.ConvertKeepsSmallPixels | index.js:69-74 | a pixel token whose value is at most `minPixelValue` is kept exactly as written, unit case included |
| Converter.ConvertScalesLargePixels | index.js:72-75 | a pixel token above `minPixelValue` becomes the text of `toFixed(p / viewportWidth * 100, unitPrecision)` followed by `viewportUnit` |
| Filters.ContainTestMeaning | index.js:111-112 | the contain test `prop.indexOf(m) > -1` holds exactly when `m` is a substring of `prop` |
| Filters.StartTestMeaning | index.js:113-114 | the starts-with test `prop.indexOf(m) === 0` holds exactly when `m` is a prefix of `prop` |
| Filters.EndTestMeaning | index.js:115-116 | the ends-with test holds exactly when `m` ends `prop` and occurs nowhere earlier, or `m` is one character longer than `prop` |
| Filters.EndTestSeesFirstOccurrenceOnly | index.js:115-116 | `abab` fails the ends-with test for `ab` although it ends with `ab` |
| Filters.EndTestPassesLongerByOne | index.js:115-116 | a string one character longer than the property, and absent from it, passes the ends-with test |
| Filters.EndsWithRuleAcceptsShorterProperty | index.js:108-124 | with only the ends-with rule `-width`, the property `color` is eligible |
| Filters.SatisfyPropList | index.js:108-124 | the matcher `createPropListMatcher` returns; its meaning is stated by `Filters.OnlyWildcardMatchesAll` and `Filters.EligibleIff` |
| Filters.OnlyWildcardMatchesAll | index.js:96-97 | `propList` equal to `["*"]` makes every property eligible |
| Filters.EligibleIff | index.js:108-124 | when `propList` is not exactly `["*"]`, a property is eligible exactly when (`*` is listed or a positive rule matches) and no negative rule matches, each rule stated without `indexOf` |
| Filters.NegativeRuleOverrides | index.js:117-123 | a matching negative rule makes a property ineligible, even with `*` or a matching positive rule |
| Filters.NothingWithoutPositives | index.js:111-116 | with no `*` and no positive rules nothing is eligible, so an empty `propList` converts no property |
| Filters.WildcardWithNegatedPrefix | index.js:108-124 | with `["*", "!font*"]`, `width` is eligible and `font-size` is not |
| Filters.AnyEntryMatches | index.js:88-92 | `blacklist.some(...)` holds exactly when some entry matches the selector |
| Filters.BlacklistedSelector | index.js:85-93 | a selector is blacklisted exactly when it is a string and some entry matches it: a string entry as a substring, a pattern entry by `match` |
| Filters.NotBlacklistedTrivially | index.js:85-93 | a non-string selector, or an empty blacklist, never blacklists |
| Filters.StringEntriesMatchBySubstring | index.js:88-90 | with string entries only, a selector is blacklisted exactly when one entry is a substring of it |
| Filters.BlacklistOrderIrrelevant | index.js:88-92 | two blacklists with the same entries decide every selector alike |
| Filters.IgnoreExample | index.js:85-93 | the entry `.ignore` blacklists `.ignore-me` and not `.keep` |
| Settings.Merge | index.js:15-28 | each option given overrides its default; every other field keeps the value in `defaults` |
| Settings.MergeNothingIsDefaults | index.js:15-28 | without options the configuration is the defaults, whose width is positive |
| Plugin.ProcessDecl | index.js:41-51 | a declaration is rewritten exactly when its value holds lower-case `px`, its property is eligible and its selector is not blacklisted; then a clone with the original value goes before the converted declaration, and otherwise the declaration stays as it is |
| Plugin.UpperCaseUnitIsSkipped | index.js:41-42 | a value with no lower-case `px` is never rewritten, even if it holds `PX` |
| Plugin.OriginalValueKept | index.js:48-51 | the first declaration of the result is the original, and every result keeps the property name |
| Plugin.ProcessMediaParams | index.js:57-62 | `media` parameters are converted exactly when `mediaQuery` is on and they contain lower-case `px`; otherwise they stay as they are |
| Plugin.DefaultsLeaveMediaQueries | index.js:23 | with the default options media queries are never touched |
| Scenarios.HundredPixels | index.js:68-83 | with the defaults, `100px` becomes `31.25vw` |
| Scenarios.FiftyPixels | index.js:68-83 | with the defaults, `50px` becomes `15.625vw` |
| Scenarios.TiePixel | index.js:79-83 | `1.01px` gives 0.315625, a tie at five digits, which rounds up to `0.31563vw` |
| Scenarios.ThresholdBoundary | index.js:73-74 | with `minPixelValue` 1, `1px` and `0.5px` stay as written and `1.01px` is converted |
| Scenarios.NarrowOnePixel | index.js:68-83 | `1px` at width 375 and precision 2 becomes `0.27vw` once `minPixelValue` is below 1 |
| Scenarios.QuotedKeptNeighbourConverted | index.js:13 | `"100px" 50px` becomes `"100px" 15.625vw` |
| Scenarios.PercentUntouched | index.js:13 | the value `10%` is left as it is |
| Scenarios.UpperCaseUnitConverts | index.js:13 | the pattern ignores case: `10PX` alone converts to `3.125vw` |
| Scenarios.UpperCaseDeclarationSkipped | index.js:41-42 | a declaration whose value is `10PX` is not rewritten, although the pattern alone would convert it |
| Scenarios.LowerPxWithoutNumber | index.js:41-51 | `width: apx` passes the quick `px` test, but the pattern finds no pixel token, so the rule gets a clone and an identical declaration |
| Scenarios.DefaultOptionsConvertHundredPixels | index.js:15-28 | with no options at all, `100px` becomes `31.25vw` |
| Scenarios.CloneEvenWhenUnchanged | index.js:48-51 | `border-width: 1px` under the defaults with `propList` `["*"]` gives two identical declarations |

## Left out

- Tree walking (`walkRules`, `rule.each`, `walkAtRules`, `insertBefore`): the model processes one declaration, and one at-rule, at a time. It does not model the indices in the rule's list.
- `lib/filter-prop-list`: it is not part of this model. The eight lists it derives from `propList` are inputs (`Filters.PropLists`).
- Regular-expression blacklist entries: `selector.match(regex)` is the parameter `patternMatches`. The model does not interpret regular expressions.
- IEEE-754 doubles: lengths, `parseFloat` and `toFixed` work over exact reals, so floating-point error is not modelled.
- JavaScript number-to-string: only plain decimal text is modelled. The exponent form, which JavaScript uses below 1e-6 and from 1e21, is not.
- `viewportHeight`: declared in `defaults` but unused by the code.
- `viewportWidth`: every member that converts requires it to be positive. The code would divide by zero, or by a negative width.
- `Settings.Merge`: an option is either given or absent. Extra keys, and values of the wrong JavaScript type that `objectAssign` would copy, are not modelled.
- Filters.EndTest: characters are Unicode scalar values, while JavaScript's `length` and `indexOf` count UTF-16 code units. Outside the Basic Multilingual Plane the two counts differ: for the property `--😀` and the ends-with entry `abcd`, JavaScript sees lengths 4 and 4 and the model sees 3 and 4, so the one-longer quirk fires only in the model. `Strings.IndexOf` counts positions the same way.
- `Plugin.ProcessDecl`: the selector is a `SelectorValue`, and the `patternMatches` parameter stands for a JavaScript `RegExp`, as above.
