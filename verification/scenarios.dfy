/** Worked conversions of concrete values, derived from the span-by-span
    characterisation of ConvertValue and the toFixed lemmas. */
module Scenarios {
  import opened Strings
  import opened Decimal
  import opened Rounding
  import opened Scanner
  import opened Settings
  import opened Converter
  import opened Filters
  import opened Plugin

  // Generic steps, stated over symbolic values.

  lemma Numeral(s: string, v: nat)
    requires |s| >= 1 && AllDigits(s) && DigitsValue(s) == v
    ensures IsNumber(s) && NumberValue(s) == v as real
  {
    DigitsAreNumber(s);
  }

  /** A value whose scaled value is the integer k lies on the grid. */
  lemma GridPoint(x: real, n: nat, k: nat)
    requires k as real == x * Scale(n)
    ensures OnGrid(x, n)
  {
    assert (x * Scale(n)).Floor == k;
  }

  /** The text of a grid value whose scaled integer k normalises to m / 10^e
      with a fraction. */
  lemma FormatPointed(x: real, n: nat, k: nat, m: nat, e: nat, s: string)
    requires x >= 0.0 && k as real == x * Scale(n)
    requires Normalize(k, n) == (m, e) && e >= 1 && m % 10 != 0 && RenderPointed(m, e) == s
    ensures OnGrid(x, n) && FormatNumber(x, n) == s
  {
    GridPoint(x, n, k);
    assert (x * Scale(n)).Floor == k;
  }

  /** The pointed text assembled from its integer and fraction digits. */
  lemma RenderFrom(m: nat, e: nat, q: nat, r: nat, ip: string, fd: string, fp: string, s: string)
    requires e >= 1 && m % 10 != 0
    requires m / Pow10(e) == q && m % Pow10(e) == r
    requires NatToDigits(q) == ip && NatToDigits(r) == fd
    requires PadZeros(fd, e) == fp && s == ip + "." + fp
    ensures RenderPointed(m, e) == s
  {
  }

  lemma ScaleTwo()
    ensures Pow10(2) == 100 && Scale(2) == 100.0
  {
  }

  lemma ScaleThree()
    ensures Pow10(3) == 1000
  {
  }

  lemma ScaleFive()
    ensures Pow10(5) == 100000 && Scale(5) == 100000.0
  {
  }

  /** A length already on the grid of the precision is not rounded. */
  lemma ExactViewport(cfg: Config, p: real, v: real)
    requires cfg.viewportWidth > 0.0 && p >= 0.0
    requires p / cfg.viewportWidth * 100.0 == v && OnGrid(v, cfg.unitPrecision)
    ensures ViewportValue(cfg, p) == v
  {
    ToFixedExactOnGrid(v, cfg.unitPrecision);
  }

  lemma ConvertEmpty(cfg: Config)
    requires cfg.viewportWidth > 0.0
    ensures ConvertValue(cfg, "") == ""
  {
    assert Scan("") == [];
  }

  /** A value made of one pixel token above the threshold. */
  lemma LonePixel(cfg: Config, number: string, unit: string, text: string)
    requires cfg.viewportWidth > 0.0 && IsPxUnit(unit)
    requires IsNumber(number) && NumberValue(number) > cfg.minPixelValue
    requires FormatNumber(ViewportValue(cfg, NumberValue(number)), cfg.unitPrecision) == text
    ensures ConvertValue(cfg, number + unit) == text + cfg.viewportUnit
  {
    ConvertScalesLargePixels(cfg, number, unit, "");
    assert number + unit + "" == number + unit;
    ConvertEmpty(cfg);
  }

  /** A value made of one pixel token at or below the threshold. */
  lemma LoneSmallPixel(cfg: Config, number: string)
    requires cfg.viewportWidth > 0.0
    requires IsNumber(number) && NumberValue(number) <= cfg.minPixelValue
    ensures ConvertValue(cfg, number + "px") == number + "px"
  {
    assert IsPxUnit("px");
    ConvertKeepsSmallPixels(cfg, number, "px", "");
    assert number + "px" + "" == number + "px";
    ConvertEmpty(cfg);
  }

  /** The numeric settings of the defaults: a 320px viewport, five digits,
      vw, threshold 1. */
  predicate DefaultScale(cfg: Config) {
    && cfg.viewportWidth == 320.0 && cfg.unitPrecision == 5
    && cfg.viewportUnit == "vw" && cfg.minPixelValue == 1.0
  }

  lemma DefaultsScale()
    ensures DefaultScale(Defaults)
  {
  }

  // Numerals.

  lemma NumeralOne()
    ensures IsNumber("1") && NumberValue("1") == 1.0
  {
    Numeral("1", 1);
  }

  lemma NumeralTen()
    ensures IsNumber("10") && NumberValue("10") == 10.0
  {
    assert "10"[..1] == "1";
    Numeral("10", 10);
  }

  lemma NumeralFifty()
    ensures IsNumber("50") && NumberValue("50") == 50.0
  {
    assert "50"[..1] == "5";
    Numeral("50", 50);
  }

  lemma NumeralHundred()
    ensures IsNumber("100") && NumberValue("100") == 100.0
  {
    assert "100"[..2] == "10" && "10"[..1] == "1";
    Numeral("100", 100);
  }

  lemma NumeralHalf()
    ensures IsNumber("0.5") && NumberValue("0.5") == 0.5
  {
    assert "0" + "." + "5" == "0.5";
    PointedNumber("0", "5");
  }

  lemma NumeralTie()
    ensures IsNumber("1.01") && NumberValue("1.01") == 1.01
  {
    assert "1" + "." + "01" == "1.01";
    assert "01"[..1] == "0";
    ScaleTwo();
    PointedNumber("1", "01");
  }

  // Renderings. Each literal computation sits in a lemma of its own; the
  // lemmas above it take their arguments as parameters.

  lemma DigitsOfThirtyOne()
    ensures 3125 / Pow10(2) == 31 && 3125 % Pow10(2) == 25
    ensures NatToDigits(31) == "31" && NatToDigits(25) == "25"
    ensures PadZeros("25", 2) == "25"
  {
    ScaleTwo();
  }

  lemma FormatThirtyOne(x: real, n: nat)
    requires x == 31.25 && n == 5
    ensures OnGrid(x, n) && FormatNumber(x, n) == "31.25"
  {
    ScaleFive();
    assert Normalize(3125000, 5) == (3125, 2);
    DigitsOfThirtyOne();
    RenderFrom(3125, 2, 31, 25, "31", "25", "25", "31.25");
    FormatPointed(x, n, 3125000, 3125, 2, "31.25");
  }

  lemma DigitsOfFifteen()
    ensures 15625 / Pow10(3) == 15 && 15625 % Pow10(3) == 625
    ensures NatToDigits(15) == "15" && NatToDigits(625) == "625"
    ensures PadZeros("625", 3) == "625"
  {
    ScaleThree();
  }

  lemma FormatFifteen(x: real, n: nat)
    requires x == 15.625 && n == 5
    ensures OnGrid(x, n) && FormatNumber(x, n) == "15.625"
  {
    ScaleFive();
    assert Normalize(1562500, 5) == (15625, 3);
    DigitsOfFifteen();
    RenderFrom(15625, 3, 15, 625, "15", "625", "625", "15.625");
    FormatPointed(x, n, 1562500, 15625, 3, "15.625");
  }

  lemma DigitsOfThree()
    ensures 3125 / Pow10(3) == 3 && 3125 % Pow10(3) == 125
    ensures NatToDigits(3) == "3" && NatToDigits(125) == "125"
    ensures PadZeros("125", 3) == "125"
  {
    ScaleThree();
  }

  lemma FormatThree(x: real, n: nat)
    requires x == 3.125 && n == 5
    ensures OnGrid(x, n) && FormatNumber(x, n) == "3.125"
  {
    ScaleFive();
    assert Normalize(312500, 5) == (3125, 3);
    DigitsOfThree();
    RenderFrom(3125, 3, 3, 125, "3", "125", "125", "3.125");
    FormatPointed(x, n, 312500, 3125, 3, "3.125");
  }

  lemma DigitsOfTie()
    ensures 31563 / Pow10(5) == 0 && 31563 % Pow10(5) == 31563
    ensures NatToDigits(0) == "0" && NatToDigits(31563) == "31563"
    ensures PadZeros("31563", 5) == "31563"
  {
    ScaleFive();
    DigitsOfTieNumerator();
  }

  lemma DigitsOfTieNumerator()
    ensures NatToDigits(31563) == "31563"
  {
    DigitsOfTiePrefix();
    assert NatToDigits(3156) == "3156";
  }

  lemma DigitsOfTiePrefix()
    ensures NatToDigits(315) == "315"
  {
    assert NatToDigits(3) == "3";
    assert NatToDigits(31) == "31";
  }

  lemma FormatTie(x: real, n: nat)
    requires x == 0.31563 && n == 5
    ensures FormatNumber(x, n) == "0.31563"
  {
    ScaleFive();
    assert Normalize(31563, 5) == (31563, 5);
    DigitsOfTie();
    RenderFrom(31563, 5, 0, 31563, "0", "31563", "31563", "0.31563");
    FormatPointed(x, n, 31563, 31563, 5, "0.31563");
  }

  lemma DigitsOfNarrow()
    ensures 27 / Pow10(2) == 0 && 27 % Pow10(2) == 27
    ensures NatToDigits(0) == "0" && NatToDigits(27) == "27"
    ensures PadZeros("27", 2) == "27"
  {
    ScaleTwo();
  }

  lemma FormatNarrow(x: real, n: nat)
    requires x == 0.27 && n == 2
    ensures FormatNumber(x, n) == "0.27"
  {
    ScaleTwo();
    assert Normalize(27, 2) == (27, 2);
    DigitsOfNarrow();
    RenderFrom(27, 2, 0, 27, "0", "27", "27", "0.27");
    FormatPointed(x, n, 27, 27, 2, "0.27");
  }

  // Converted lengths: p / viewportWidth * 100 through toFixed.

  lemma HundredViewport(cfg: Config)
    requires DefaultScale(cfg)
    ensures ViewportValue(cfg, 100.0) == 31.25
  {
    ScaleFive();
    GridPoint(31.25, 5, 3125000);
    ExactViewport(cfg, 100.0, 31.25);
  }

  lemma FiftyViewport(cfg: Config)
    requires DefaultScale(cfg)
    ensures ViewportValue(cfg, 50.0) == 15.625
  {
    ScaleFive();
    GridPoint(15.625, 5, 1562500);
    ExactViewport(cfg, 50.0, 15.625);
  }

  lemma TenViewport(cfg: Config)
    requires DefaultScale(cfg)
    ensures ViewportValue(cfg, 10.0) == 3.125
  {
    ScaleFive();
    GridPoint(3.125, 5, 312500);
    ExactViewport(cfg, 10.0, 3.125);
  }

  /** 1.01 / 320 * 100 = 0.315625 lies exactly half-way between two grid
      points at five digits; the tie goes up. */
  lemma TieViewport(cfg: Config)
    requires DefaultScale(cfg)
    ensures ViewportValue(cfg, 1.01) == 0.31563
  {
    var raw := 1.01 / 320.0 * 100.0;
    assert raw == 0.315625;
    ToFixedIsHalfUp(raw, 5);
    ScaleFive();
    assert raw * Scale(5) == 31562.5;
    assert JsRound(raw * Scale(5)) == 31563;
  }

  /** 1 / 375 * 100 = 0.2666... at two digits. */
  lemma NarrowViewport(cfg: Config)
    requires cfg.viewportWidth == 375.0 && cfg.unitPrecision == 2
    ensures ViewportValue(cfg, 1.0) == 0.27
  {
    var raw := 1.0 / 375.0 * 100.0;
    ToFixedIsHalfUp(raw, 2);
    ScaleTwo();
    assert raw * 100.0 == 8000.0 / 300.0;
    assert JsRound(raw * 100.0) == 27;
  }

  // Whole values. Each conversion first collects its numeric facts in a
  // lemma of its own, then assembles the text.

  lemma HundredText(cfg: Config)
    requires DefaultScale(cfg)
    ensures IsNumber("100") && NumberValue("100") > cfg.minPixelValue
    ensures FormatNumber(ViewportValue(cfg, NumberValue("100")), cfg.unitPrecision) == "31.25"
  {
    NumeralHundred();
    HundredViewport(cfg);
    FormatThirtyOne(ViewportValue(cfg, NumberValue("100")), cfg.unitPrecision);
  }

  lemma HundredPixelsPieces()
    ensures "100" + "px" == "100px"
    ensures "31.25" + "vw" == "31.25vw"
  {
  }

  /** With the default scale, 100px is 31.25vw. */
  lemma HundredPixels(cfg: Config)
    requires DefaultScale(cfg)
    ensures ConvertValue(cfg, "100px") == "31.25vw"
  {
    HundredPixelsPieces();
    HundredText(cfg);
    assert IsPxUnit("px");
    LonePixel(cfg, "100", "px", "31.25");
  }

  lemma NarrowText(cfg: Config)
    requires cfg.viewportWidth == 375.0 && cfg.unitPrecision == 2 && cfg.minPixelValue < 1.0
    ensures IsNumber("1") && NumberValue("1") > cfg.minPixelValue
    ensures FormatNumber(ViewportValue(cfg, NumberValue("1")), cfg.unitPrecision) == "0.27"
  {
    NumeralOne();
    NarrowViewport(cfg);
    FormatNarrow(ViewportValue(cfg, NumberValue("1")), cfg.unitPrecision);
  }

  lemma NarrowOnePixelPieces()
    ensures "1" + "px" == "1px"
    ensures "0.27" + "vw" == "0.27vw"
  {
  }

  /** 1px on a 375px viewport at two digits: 0.2666... rounds to 0.27. (With
      the default `minPixelValue` of 1 the value would stay 1px.) */
  lemma NarrowOnePixel(cfg: Config)
    requires cfg.viewportWidth == 375.0 && cfg.unitPrecision == 2
    requires cfg.viewportUnit == "vw" && cfg.minPixelValue < 1.0
    ensures ConvertValue(cfg, "1px") == "0.27vw"
  {
    NarrowOnePixelPieces();
    NarrowText(cfg);
    assert IsPxUnit("px");
    LonePixel(cfg, "1", "px", "0.27");
  }

  lemma OnePixelStaysPieces()
    ensures "1" + "px" == "1px"
  {
  }

  lemma OnePixelStays(cfg: Config)
    requires DefaultScale(cfg)
    ensures ConvertValue(cfg, "1px") == "1px"
  {
    OnePixelStaysPieces();
    NumeralOne();
    LoneSmallPixel(cfg, "1");
  }

  lemma HalfPixelStaysPieces()
    ensures "0.5" + "px" == "0.5px"
  {
  }

  lemma HalfPixelStays(cfg: Config)
    requires DefaultScale(cfg)
    ensures ConvertValue(cfg, "0.5px") == "0.5px"
  {
    HalfPixelStaysPieces();
    NumeralHalf();
    LoneSmallPixel(cfg, "0.5");
  }

  lemma TieText(cfg: Config)
    requires DefaultScale(cfg)
    ensures IsNumber("1.01") && NumberValue("1.01") > cfg.minPixelValue
    ensures FormatNumber(ViewportValue(cfg, NumberValue("1.01")), cfg.unitPrecision) == "0.31563"
  {
    NumeralTie();
    TieViewport(cfg);
    FormatTie(ViewportValue(cfg, NumberValue("1.01")), cfg.unitPrecision);
  }

  lemma TiePixelPieces()
    ensures "1.01" + "px" == "1.01px"
    ensures "0.31563" + "vw" == "0.31563vw"
  {
  }

  lemma TiePixel(cfg: Config)
    requires DefaultScale(cfg)
    ensures ConvertValue(cfg, "1.01px") == "0.31563vw"
  {
    TiePixelPieces();
    TieText(cfg);
    assert IsPxUnit("px");
    LonePixel(cfg, "1.01", "px", "0.31563");
  }

  /** The threshold is inclusive: with `minPixelValue` 1, 1px and 0.5px stay
      as written and 1.01px is converted. */
  lemma ThresholdBoundary(cfg: Config)
    requires DefaultScale(cfg)
    ensures ConvertValue(cfg, "1px") == "1px"
    ensures ConvertValue(cfg, "0.5px") == "0.5px"
    ensures ConvertValue(cfg, "1.01px") == "0.31563vw"
  {
    OnePixelStays(cfg);
    HalfPixelStays(cfg);
    TiePixel(cfg);
  }

  lemma FiftyText(cfg: Config)
    requires DefaultScale(cfg)
    ensures IsNumber("50") && NumberValue("50") > cfg.minPixelValue
    ensures FormatNumber(ViewportValue(cfg, NumberValue("50")), cfg.unitPrecision) == "15.625"
  {
    NumeralFifty();
    FiftyViewport(cfg);
    FormatFifteen(ViewportValue(cfg, NumberValue("50")), cfg.unitPrecision);
  }

  lemma FiftyPixelsPieces()
    ensures "50" + "px" == "50px"
    ensures "15.625" + "vw" == "15.625vw"
  {
  }

  lemma FiftyPixels(cfg: Config)
    requires DefaultScale(cfg)
    ensures ConvertValue(cfg, "50px") == "15.625vw"
  {
    FiftyPixelsPieces();
    FiftyText(cfg);
    assert IsPxUnit("px");
    LonePixel(cfg, "50", "px", "15.625");
  }

  lemma QuotedPieces()
    ensures IsQuotedSpan("\"100px\"", '"')
    ensures "\"100px\"" + ([' '] + "50px") == "\"100px\" 50px"
    ensures "\"100px\"" + ([' '] + "15.625vw") == "\"100px\" 15.625vw"
  {
  }

  /** A quoted string is kept byte for byte while a bare length next to it
      is converted: `"100px" 50px` becomes `"100px" 15.625vw`. */
  lemma QuotedKeptNeighbourConverted(cfg: Config)
    requires DefaultScale(cfg)
    ensures ConvertValue(cfg, "\"100px\" 50px") == "\"100px\" 15.625vw"
  {
    QuotedPieces();
    ConvertCopiesQuotedAndUrl(cfg, "\"100px\"", [' '] + "50px");
    ConvertCopiesPlainChar(cfg, ' ', "50px");
    FiftyPixels(cfg);
  }

  /** A value with no `px` in any case is returned unchanged. */
  lemma PercentUntouched(cfg: Config, value: string)
    requires cfg.viewportWidth > 0.0 && value == "10%"
    ensures ConvertValue(cfg, value) == value
  {
    NoPxInPercent();
  }

  lemma NoPxInPercent()
    ensures !HasPxAnyCase("10%")
  {
    assert forall i :: !PxAt("10%", i);
  }

  lemma UpperTenText(cfg: Config)
    requires DefaultScale(cfg)
    ensures IsNumber("10") && NumberValue("10") > cfg.minPixelValue
    ensures FormatNumber(ViewportValue(cfg, NumberValue("10")), cfg.unitPrecision) == "3.125"
  {
    NumeralTen();
    TenViewport(cfg);
    FormatThree(ViewportValue(cfg, NumberValue("10")), cfg.unitPrecision);
  }

  lemma UpperCaseUnitConvertsPieces()
    ensures "10" + "PX" == "10PX"
    ensures "3.125" + "vw" == "3.125vw"
  {
  }

  /** The pattern itself is case-insensitive: `10PX` on its own converts to
      `3.125vw`, the upper-case unit replaced by the viewport unit. */
  lemma UpperCaseUnitConverts(cfg: Config)
    requires DefaultScale(cfg)
    ensures ConvertValue(cfg, "10PX") == "3.125vw"
  {
    UpperCaseUnitConvertsPieces();
    UpperTenText(cfg);
    assert IsPxUnit("PX");
    LonePixel(cfg, "10", "PX", "3.125");
  }

  lemma NoLowerPxInUpperTen()
    ensures !Contains("10PX", "px")
  {
    forall i ensures !OccursAt("10PX", "px", i) {
      if 0 <= i <= 2 {
        assert "10PX"[i..i + 2][0] == "10PX"[i] != 'p';
      }
    }
  }

  /** ... but the declaration gate tests for lower-case `px` first, so a
      declaration whose value is `10PX` is left alone. */
  lemma UpperCaseDeclarationSkipped(cfg: Config, lists: PropLists, patternMatches: (string, string) -> bool,
                                    selector: SelectorValue)
    requires DefaultScale(cfg)
    ensures ProcessDecl(cfg, lists, patternMatches, Declaration("width", "10PX"), selector)
         == [Declaration("width", "10PX")]
    ensures ConvertValue(cfg, "10PX") != "10PX"
  {
    NoLowerPxInUpperTen();
    UpperCaseUnitConverts(cfg);
    assert "3.125vw"[0] != "10PX"[0];
  }

  /** A declaration whose pixels all stay as written is still cloned: the
      rule receives a copy carrying the same value before it. */
  lemma CloneEvenWhenUnchanged(cfg: Config, lists: PropLists, patternMatches: (string, string) -> bool,
                               selector: SelectorValue)
    requires DefaultScale(cfg) && cfg.propList == ["*"] && cfg.selectorBlackList == []
    ensures var d := Declaration("border-width", "1px");
            ProcessDecl(cfg, lists, patternMatches, d, selector) == [d, d]
  {
    assert OccursAt("1px", "px", 1);
    OnlyWildcardMatchesAll(cfg.propList, lists, "border-width");
    OnePixelStays(cfg);
  }

  lemma LowerPxWithoutNumberPieces()
    ensures "apx" == ['a'] + "px" && "px" == ['p'] + "x" && "x" == ['x'] + ""
  {
  }

  /** `apx` holds no pixel token: every character is copied. */
  lemma NoPixelTokenInApx(cfg: Config)
    requires cfg.viewportWidth > 0.0
    ensures ConvertValue(cfg, "apx") == "apx"
  {
    LowerPxWithoutNumberPieces();
    ConvertEmpty(cfg);
    ConvertCopiesPlainChar(cfg, 'x', "");
    ConvertCopiesPlainChar(cfg, 'p', "x");
    ConvertCopiesPlainChar(cfg, 'a', "px");
  }

  lemma LowerPxInApx()
    ensures Contains("apx", "px")
  {
    assert OccursAt("apx", "px", 1);
  }

  /** The quick test sees a lower-case `px` in `apx`, so the declaration gets
      through the gate, but the pattern finds no pixel token in it: the rule
      receives a clone and a declaration with the same value. */
  lemma LowerPxWithoutNumber(cfg: Config, lists: PropLists, patternMatches: (string, string) -> bool,
                             selector: SelectorValue, d: Declaration)
    requires cfg.viewportWidth > 0.0 && cfg.propList == ["*"] && cfg.selectorBlackList == []
    requires d == Declaration("width", "apx")
    ensures Contains(d.value, "px") && ConvertValue(cfg, d.value) == d.value
    ensures ProcessDecl(cfg, lists, patternMatches, d, selector) == [d, d]
  {
    LowerPxInApx();
    NoPixelTokenInApx(cfg);
    OnlyWildcardMatchesAll(cfg.propList, lists, d.prop);
  }

  /** With no options at all, `100px` becomes `31.25vw`. */
  lemma DefaultOptionsConvertHundredPixels()
    ensures ConvertValue(Merge(NoOverrides), "100px") == "31.25vw"
  {
    MergeNothingIsDefaults();
    DefaultsScale();
    HundredPixels(Merge(NoOverrides));
  }
}
