/** `createPxReplace` and the value rewrite `value.replace(pxRegex, pxReplace)`
    of index.js. */
module Converter {
  import opened Strings
  import opened Decimal
  import opened Rounding
  import opened Scanner
  import opened Settings

  /** The text JavaScript gives a non-negative number on the 10^-n grid when
      it is concatenated with a string. */
  function FormatNumber(x: real, n: nat): (s: string)
    requires x >= 0.0 && OnGrid(x, n)
    ensures IsNumber(s) && NumberValue(s) == x
    ensures '.' in s ==> s[|s| - 1] != '0'
    ensures s[0] != '.' && (s[0] == '0' ==> |s| == 1 || s[1] == '.')
  {
    GridScaled(x, n);
    Render((x * Scale(n)).Floor, n)
  }

  lemma GridScaled(x: real, n: nat)
    requires x >= 0.0 && OnGrid(x, n)
    ensures (x * Scale(n)).Floor >= 0
    ensures (x * Scale(n)).Floor as real / Pow10(n) as real == x
  {
    GridScaledAt(x, Scale(n), (x * Scale(n)).Floor);
    assert Pow10(n) as real == Scale(n);
  }

  lemma GridScaledAt(x: real, p: real, f: int)
    requires x >= 0.0 && p >= 1.0 && OnGridAt(x, p) && f == (x * p).Floor
    ensures f >= 0 && f as real / p == x
  {
    assert f as real == x * p;
    MulMonotone(0.0, x, p);
    MulDiv(x, p);
  }

  /** The converted length of p pixels: `toFixed(p / viewportSize * 100, unitPrecision)`. */
  function ViewportValue(cfg: Config, p: real): (v: real)
    requires cfg.viewportWidth > 0.0 && p >= 0.0
    ensures v >= 0.0 && OnGrid(v, cfg.unitPrecision)
  {
    var raw := p / cfg.viewportWidth * 100.0;
    DivMonotone(0.0, p, cfg.viewportWidth);
    ToFixedNonNegative(raw, cfg.unitPrecision);
    ToFixedOnGrid(raw, cfg.unitPrecision);
    ToFixed(raw, cfg.unitPrecision)
  }

  /** The replacement callback of `createPxReplace` for one segment: quoted
      and url spans (no capture) come back as matched; a pixel token at or
      below `minPixelValue` comes back as written; a larger one becomes the
      rounded viewport length followed by `viewportUnit`. */
  function ReplaceMatch(cfg: Config, seg: Segment): (out: string)
    requires cfg.viewportWidth > 0.0 && WellFormed(seg)
    ensures !seg.Pixel? || NumberValue(seg.number) <= cfg.minPixelValue ==> out == Text(seg)
    ensures seg.Pixel? && NumberValue(seg.number) > cfg.minPixelValue ==>
              && |out| > |cfg.viewportUnit|
              && out[|out| - |cfg.viewportUnit|..] == cfg.viewportUnit
              && IsNumber(out[..|out| - |cfg.viewportUnit|])
              && NumberValue(out[..|out| - |cfg.viewportUnit|]) == ViewportValue(cfg, NumberValue(seg.number))
  {
    match seg
    case Pixel(number, unit) =>
      var pixels := NumberValue(number);
      if pixels <= cfg.minPixelValue then number + unit
      else
        var text := FormatNumber(ViewportValue(cfg, pixels), cfg.unitPrecision);
        var out := text + cfg.viewportUnit;
        assert out[..|text|] == text && out[|text|..] == cfg.viewportUnit;
        out
    case _ => Text(seg)
  }

  function ReplaceAll(cfg: Config, segs: seq<Segment>): string
    requires cfg.viewportWidth > 0.0
    requires forall i :: 0 <= i < |segs| ==> WellFormed(segs[i])
    decreases |segs|
  {
    if |segs| == 0 then [] else ReplaceMatch(cfg, segs[0]) + ReplaceAll(cfg, segs[1..])
  }

  /** `value.replace(pxRegex, pxReplace)`. A value without `px` in any case,
      and a value whose pixel tokens all stay as written, come back unchanged. */
  function ConvertValue(cfg: Config, value: string): (r: string)
    requires cfg.viewportWidth > 0.0
    ensures !HasPxAnyCase(value) ==> r == value
    ensures NothingToConvert(cfg, Scan(value)) ==> r == value
  {
    ScanUnchanged(cfg, value);
    ReplaceAll(cfg, Scan(value))
  }

  lemma ScanUnchanged(cfg: Config, value: string)
    requires cfg.viewportWidth > 0.0
    ensures !HasPxAnyCase(value) ==> NothingToConvert(cfg, Scan(value))
    ensures NothingToConvert(cfg, Scan(value)) ==> ReplaceAll(cfg, Scan(value)) == value
  {
    var segs := Scan(value);
    if exists i :: 0 <= i < |segs| && segs[i].Pixel? {
      PixelSegmentHasPx(segs);
    }
    if NothingToConvert(cfg, segs) {
      ReplaceAllIdentity(cfg, segs);
    }
  }

  // ConvertValue described span by span, without reference to the scanner's
  // segments. The empty value has no `px` and comes back empty; a non-empty
  // value starts with a quoted or url span, a pixel token, or a character at
  // which nothing matches, so these four lemmas determine ConvertValue on
  // every input.

  /** Quoted and url spans at the front are copied unchanged, even when they
      hold pixel tokens. */
  lemma ConvertCopiesQuotedAndUrl(cfg: Config, t: string, rest: string)
    requires cfg.viewportWidth > 0.0
    requires IsQuotedSpan(t, '"') || IsQuotedSpan(t, '\'') || IsUrlSpan(t)
    ensures ConvertValue(cfg, t + rest) == t + ConvertValue(cfg, rest)
  {
    ScanSpanFirst(t, rest);
    SpanOpeningCases(t);
    assert ([ClassifySpan(t)] + Scan(rest))[1..] == Scan(rest);
  }

  /** A pixel token at or below `minPixelValue` is kept exactly as written,
      including the case of its unit. */
  lemma ConvertKeepsSmallPixels(cfg: Config, number: string, unit: string, rest: string)
    requires cfg.viewportWidth > 0.0
    requires IsNumber(number) && IsPxUnit(unit) && NumberValue(number) <= cfg.minPixelValue
    ensures ConvertValue(cfg, number + unit + rest) == number + unit + ConvertValue(cfg, rest)
  {
    PixelSpanFirst(cfg, number, unit, rest);
  }

  /** A pixel token above `minPixelValue` becomes the decimal text of
      `toFixed(p / viewportWidth * 100, unitPrecision)` followed by `viewportUnit`. */
  lemma ConvertScalesLargePixels(cfg: Config, number: string, unit: string, rest: string)
    requires cfg.viewportWidth > 0.0
    requires IsNumber(number) && IsPxUnit(unit) && NumberValue(number) > cfg.minPixelValue
    ensures ConvertValue(cfg, number + unit + rest)
         == FormatNumber(ViewportValue(cfg, NumberValue(number)), cfg.unitPrecision)
            + cfg.viewportUnit + ConvertValue(cfg, rest)
  {
    PixelSpanFirst(cfg, number, unit, rest);
  }

  lemma PixelSpanFirst(cfg: Config, number: string, unit: string, rest: string)
    requires cfg.viewportWidth > 0.0
    requires IsNumber(number) && IsPxUnit(unit)
    ensures ConvertValue(cfg, number + unit + rest)
         == ReplaceMatch(cfg, Pixel(number, unit)) + ConvertValue(cfg, rest)
  {
    var t := number + unit;
    assert t[..|t| - 2] == number && t[|t| - 2..] == unit;
    assert IsPixelSpan(t);
    assert number + unit + rest == t + rest;
    ScanSpanFirst(t, rest);
    SpanOpeningCases(t);
    assert t[0] == number[0];
    assert ClassifySpan(t) == Pixel(number, unit);
    assert ([ClassifySpan(t)] + Scan(rest))[1..] == Scan(rest);
  }

  /** A character at which no alternative matches is copied, and conversion
      carries on after it. */
  lemma ConvertCopiesUnmatched(cfg: Config, s: string)
    requires cfg.viewportWidth > 0.0
    requires |s| > 0 && forall k :: 0 < k <= |s| ==> !IsSpan(s[..k])
    ensures ConvertValue(cfg, s) == [s[0]] + ConvertValue(cfg, s[1..])
  {
    ScanNoMatchFirst(s);
    assert ([Lit(s[0])] + Scan(s[1..]))[1..] == Scan(s[1..]);
  }

  /** A character that cannot begin any alternative (not a quote, not `u`/`U`,
      not a digit or point) is copied, whatever follows it. */
  lemma ConvertCopiesPlainChar(cfg: Config, c: char, rest: string)
    requires cfg.viewportWidth > 0.0
    requires !IsSpanOpening(c) && !IsNumberChar(c)
    ensures ConvertValue(cfg, [c] + rest) == [c] + ConvertValue(cfg, rest)
  {
    var s := [c] + rest;
    forall k | 0 < k <= |s| ensures !IsSpan(s[..k]) {
      if IsSpan(s[..k]) {
        SpanOpeningCases(s[..k]);
      }
    }
    ConvertCopiesUnmatched(cfg, s);
    assert s[1..] == rest;
  }

  /** Nothing changes when every pixel token the scan finds is at or below
      `minPixelValue`. */
  predicate NothingToConvert(cfg: Config, segs: seq<Segment>) {
    forall i :: 0 <= i < |segs| ==> StaysAsWritten(cfg, segs[i])
  }

  /** A segment the callback returns as matched. */
  predicate StaysAsWritten(cfg: Config, seg: Segment) {
    seg.Pixel? && IsNumber(seg.number) ==> NumberValue(seg.number) <= cfg.minPixelValue
  }

  lemma {:induction false} ReplaceAllIdentity(cfg: Config, segs: seq<Segment>)
    requires cfg.viewportWidth > 0.0
    requires forall i :: 0 <= i < |segs| ==> WellFormed(segs[i])
    requires NothingToConvert(cfg, segs)
    ensures ReplaceAll(cfg, segs) == Flatten(segs)
    decreases |segs|
  {
    if |segs| > 0 {
      assert NothingToConvert(cfg, segs[1..]) by {
        forall i | 0 <= i < |segs| - 1 ensures StaysAsWritten(cfg, segs[1..][i]) {
          assert segs[1..][i] == segs[i + 1];
        }
      }
      ReplaceAllIdentity(cfg, segs[1..]);
    }
  }

  /** `px` in either case somewhere in s. */
  ghost predicate HasPxAnyCase(s: string) {
    exists i :: PxAt(s, i)
  }

  predicate PxAt(s: string, i: int) {
    0 <= i <= |s| - 2 && IsPxUnit(s[i..i + 2])
  }

  lemma HasPxInConcat(a: string, b: string)
    ensures HasPxAnyCase(a) ==> HasPxAnyCase(a + b)
    ensures HasPxAnyCase(b) ==> HasPxAnyCase(a + b)
  {
    if HasPxAnyCase(a) {
      var i :| PxAt(a, i);
      assert (a + b)[i..i + 2] == a[i..i + 2];
      assert PxAt(a + b, i);
    }
    if HasPxAnyCase(b) {
      var i :| PxAt(b, i);
      assert (a + b)[|a| + i..|a| + i + 2] == b[i..i + 2];
      assert PxAt(a + b, |a| + i);
    }
  }

  lemma {:induction false} PixelSegmentHasPx(segs: seq<Segment>)
    requires forall i :: 0 <= i < |segs| ==> WellFormed(segs[i])
    requires exists i :: 0 <= i < |segs| && segs[i].Pixel?
    ensures HasPxAnyCase(Flatten(segs))
    decreases |segs|
  {
    if segs[0].Pixel? {
      var d := segs[0].number;
      var u := segs[0].unit;
      assert (d + u)[|d|..|d| + 2] == u;
      assert PxAt(d + u, |d|);
      HasPxInConcat(d + u, Flatten(segs[1..]));
    } else {
      var i :| 0 <= i < |segs| && segs[i].Pixel?;
      assert segs[1..][i - 1] == segs[i];
      PixelSegmentHasPx(segs[1..]);
      HasPxInConcat(Text(segs[0]), Flatten(segs[1..]));
    }
  }
}
