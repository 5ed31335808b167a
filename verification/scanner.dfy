/** The scan `value.replace(pxRegex, ...)` performs in index.js: from left to
    right, at each position the first alternative of
      "[^"]+" | '[^']+' | url\([^\)]+\) | (\d*\.?\d+)px      (flags i, g)
    that matches is taken and the scan resumes after it; a position where
    none matches is copied as a single character. */
module Scanner {
  import opened Wrappers
  import opened Strings
  import opened Decimal

  /** One piece of the scanned text. */
  datatype Segment =
    | Lit(c: char)                          // a character no alternative matches at
    | Quoted(text: string)                  // a quoted span, quotes included
    | Url(text: string)                     // a url(...) span, parentheses included
    | Pixel(number: string, unit: string)   // a pixel token: its numeral and its `px` as written

  /** The characters of the input a segment covers. */
  function Text(seg: Segment): string {
    match seg
    case Lit(c) => [c]
    case Quoted(t) => t
    case Url(t) => t
    case Pixel(d, u) => d + u
  }

  function Flatten(segs: seq<Segment>): string
    decreases |segs|
  {
    if |segs| == 0 then [] else Text(segs[0]) + Flatten(segs[1..])
  }

  // The languages of the four alternatives, stated declaratively.

  /** `"[^"]+"` (q = '"') or `'[^']+'` (q = '\''): a quote, at least one
      other character, and the same quote. */
  predicate IsQuotedSpan(t: string, q: char) {
    && |t| >= 3
    && t[0] == q
    && t[|t| - 1] == q
    && forall i :: 0 < i < |t| - 1 ==> t[i] != q
  }

  /** `url(` under the case-insensitive flag. */
  predicate IsUrlOpening(t: string) {
    && |t| >= 4
    && (t[0] == 'u' || t[0] == 'U')
    && (t[1] == 'r' || t[1] == 'R')
    && (t[2] == 'l' || t[2] == 'L')
    && t[3] == '('
  }

  /** `url\([^\)]+\)`: the opening, at least one character other than `)`, and `)`. */
  predicate IsUrlSpan(t: string) {
    && |t| >= 6
    && IsUrlOpening(t)
    && t[|t| - 1] == ')'
    && forall i :: 4 <= i < |t| - 1 ==> t[i] != ')'
  }

  /** `px` under the case-insensitive flag. */
  predicate IsPxUnit(u: string) {
    |u| == 2 && (u[0] == 'p' || u[0] == 'P') && (u[1] == 'x' || u[1] == 'X')
  }

  /** `(\d*\.?\d+)px`. */
  predicate IsPixelSpan(t: string) {
    |t| >= 3 && IsNumber(t[..|t| - 2]) && IsPxUnit(t[|t| - 2..])
  }

  /** A text some alternative of the pattern matches in full. */
  predicate IsSpan(t: string) {
    IsQuotedSpan(t, '"') || IsQuotedSpan(t, '\'') || IsUrlSpan(t) || IsPixelSpan(t)
  }

  /** The segment a matched span becomes; its first character decides the alternative. */
  function ClassifySpan(t: string): (seg: Segment)
    requires IsSpan(t)
    ensures Text(seg) == t && !seg.Lit?
  {
    if t[0] == '"' || t[0] == '\'' then Quoted(t)
    else if IsUrlSpan(t) then Url(t)
    else Pixel(t[..|t| - 2], t[|t| - 2..])
  }

  /** A segment the scan can produce. */
  predicate WellFormed(seg: Segment) {
    && (seg.Quoted? ==> IsQuotedSpan(seg.text, '"') || IsQuotedSpan(seg.text, '\''))
    && (seg.Url? ==> IsUrlSpan(seg.text))
    && (seg.Pixel? ==> IsNumber(seg.number) && IsPxUnit(seg.unit))
  }

  lemma SingleCharOccurs(s: string, c: char, i: int)
    ensures OccursAt(s, [c], i) <==> 0 <= i < |s| && s[i] == c
  {
    if 0 <= i < |s| {
      assert s[i..i + 1] == [s[i]];
    }
  }

  // The matchers, one per alternative, each tried at the start of `s`.

  /** The quoted alternative with quote character q at the start of s. */
  function MatchQuoted(s: string, q: char): (r: Option<Segment>)
    ensures r.Some? ==> |s| > 0 && s[0] == q
    ensures r.Some? ==> |Text(r.value)| <= |s| && r.value == Quoted(s[..|Text(r.value)|])
                        && IsQuotedSpan(Text(r.value), q)
    ensures forall k :: 0 < k <= |s| && IsQuotedSpan(s[..k], q) ==> r == Some(Quoted(s[..k]))
  {
    if |s| > 0 && s[0] == q then
      var j := IndexOf(s[1..], [q]);
      QuotedResult(s, q, j);
      if j >= 1 then Some(Quoted(s[..j + 2])) else None
    else None
  }

  lemma QuotedResult(s: string, q: char, j: int)
    requires |s| > 0 && s[0] == q && j == IndexOf(s[1..], [q])
    ensures j >= 1 ==> j + 2 <= |s| && IsQuotedSpan(s[..j + 2], q)
    ensures forall k :: 0 < k <= |s| && IsQuotedSpan(s[..k], q) ==> j == k - 2
  {
    var b := s[1..];
    if j >= 0 {
      SingleCharOccurs(b, q, j);
      forall i | 0 <= i < j ensures b[i] != q {
        SingleCharOccurs(b, q, i);
      }
    }
    if j >= 1 {
      var t := s[..j + 2];
      forall i | 0 < i < |t| - 1 ensures t[i] != q {
        assert t[i] == b[i - 1];
      }
    }
    forall k | 0 < k <= |s| && IsQuotedSpan(s[..k], q) ensures j == k - 2 {
      var t := s[..k];
      assert b[k - 2] == t[k - 1];
      SingleCharOccurs(b, q, k - 2);
      forall i | 0 <= i < k - 2 ensures b[i] != q {
        assert b[i] == t[i + 1];
      }
    }
  }

  /** The url(...) alternative at the start of s. */
  function MatchUrl(s: string): (r: Option<Segment>)
    ensures r.Some? ==> IsUrlOpening(s)
    ensures r.Some? ==> |Text(r.value)| <= |s| && r.value == Url(s[..|Text(r.value)|])
                        && IsUrlSpan(Text(r.value))
    ensures forall k :: 0 < k <= |s| && IsUrlSpan(s[..k]) ==> r == Some(Url(s[..k]))
  {
    if IsUrlOpening(s) then
      var j := IndexOf(s[4..], ")");
      UrlResult(s, j);
      if j >= 1 then Some(Url(s[..j + 5])) else None
    else None
  }

  lemma UrlResult(s: string, j: int)
    requires IsUrlOpening(s) && j == IndexOf(s[4..], ")")
    ensures j >= 1 ==> j + 5 <= |s| && IsUrlSpan(s[..j + 5])
    ensures forall k :: 0 < k <= |s| && IsUrlSpan(s[..k]) ==> j == k - 5
  {
    var b := s[4..];
    if j >= 0 {
      SingleCharOccurs(b, ')', j);
      forall i | 0 <= i < j ensures b[i] != ')' {
        SingleCharOccurs(b, ')', i);
      }
    }
    if j >= 1 {
      var t := s[..j + 5];
      forall i | 4 <= i < |t| - 1 ensures t[i] != ')' {
        assert t[i] == b[i - 4];
      }
    }
    forall k | 0 < k <= |s| && IsUrlSpan(s[..k]) ensures j == k - 5 {
      var t := s[..k];
      assert b[k - 5] == t[k - 1];
      SingleCharOccurs(b, ')', k - 5);
      forall i | 0 <= i < k - 5 ensures b[i] != ')' {
        assert b[i] == t[i + 4];
      }
    }
  }

  /** The length of the longest prefix of s made of digits and points. */
  function NumberRun(s: string): (k: nat)
    ensures k <= |s|
    ensures forall i :: 0 <= i < k ==> IsNumberChar(s[i])
    ensures k < |s| ==> !IsNumberChar(s[k])
    decreases |s|
  {
    if |s| > 0 && IsNumberChar(s[0]) then 1 + NumberRun(s[1..]) else 0
  }

  /** The pixel alternative at the start of s. The numeral of a match is
      made of digits and points and is followed by `p`, so it is exactly the
      run of such characters at the start. */
  function MatchPixel(s: string): (r: Option<Segment>)
    ensures r.Some? ==> |s| > 0 && IsNumberChar(s[0])
    ensures r.Some? ==> |Text(r.value)| <= |s| && s[..|Text(r.value)|] == Text(r.value)
                        && IsPixelSpan(Text(r.value)) && r.value == ClassifySpan(Text(r.value))
    ensures forall k :: 0 < k <= |s| && IsPixelSpan(s[..k]) ==> r == Some(ClassifySpan(s[..k]))
  {
    var k := NumberRun(s);
    PixelResult(s, k);
    PixelAfterRun(s, k)
  }

  /** The pixel match once the run of number characters is known to be k long. */
  function PixelAfterRun(s: string, k: nat): Option<Segment>
    requires k <= |s|
  {
    if k + 2 <= |s| && IsNumber(s[..k]) && IsPxUnit(s[k..k + 2]) then
      Some(Pixel(s[..k], s[k..k + 2]))
    else
      None
  }

  lemma PixelResult(s: string, k: nat)
    requires k == NumberRun(s)
    ensures var r := PixelAfterRun(s, k);
            r.Some? ==> |s| > 0 && IsNumberChar(s[0])
                        && |Text(r.value)| <= |s| && s[..|Text(r.value)|] == Text(r.value)
                        && IsPixelSpan(Text(r.value)) && r.value == ClassifySpan(Text(r.value))
    ensures forall n :: 0 < n <= |s| && IsPixelSpan(s[..n]) ==>
              PixelAfterRun(s, k) == Some(ClassifySpan(s[..n]))
  {
    if k + 2 <= |s| && IsNumber(s[..k]) && IsPxUnit(s[k..k + 2]) {
      PixelSpanClassified(s, k);
    }
    forall n | 0 < n <= |s| && IsPixelSpan(s[..n])
      ensures PixelAfterRun(s, k) == Some(ClassifySpan(s[..n]))
    {
      assert RunEndsAt(s, k);
      PixelSpanIsRun(s, k, n);
      PixelSpanClassified(s, k);
    }
  }

  /** The span made of the run and a px unit is a pixel span, classified as
      the run and the unit. */
  lemma PixelSpanClassified(s: string, k: nat)
    requires k == NumberRun(s)
    requires k + 2 <= |s| && IsNumber(s[..k]) && IsPxUnit(s[k..k + 2])
    ensures var t := s[..k + 2];
            IsPixelSpan(t) && t == s[..k] + s[k..k + 2] && |s| > 0 && IsNumberChar(s[0])
            && ClassifySpan(t) == Pixel(s[..k], s[k..k + 2])
  {
    var t := s[..k + 2];
    RunThenUnit(s, k);
    assert t[0] == s[..k][0];
    assert IsNumberChar(t[0]);
  }

  /** The first k + 2 characters of s, cut after k. */
  lemma RunThenUnit(s: string, k: nat)
    requires k + 2 <= |s|
    ensures var t := s[..k + 2];
            && |t| == k + 2 && t[..k] == s[..k] && t[k..] == s[k..k + 2]
            && t[..|t| - 2] == s[..k] && t[|t| - 2..] == s[k..k + 2]
            && t == s[..k] + s[k..k + 2]
  {
    var t := s[..k + 2];
    assert t[..k] == s[..k];
    assert t[k..] == s[k..k + 2];
    assert t == t[..k] + t[k..];
  }

  /** A pixel span at the start of s ends two characters after the run. */
  lemma PixelSpanIsRun(s: string, k: nat, n: nat)
    requires RunEndsAt(s, k)
    requires 0 < n <= |s| && IsPixelSpan(s[..n])
    ensures n == k + 2 && IsNumber(s[..k]) && IsPxUnit(s[k..k + 2])
  {
    PrefixCut(s, n, n - 2);
    NumberPrefixChars(s, n - 2);
    assert !IsNumberChar(s[n - 2]) by {
      assert s[n - 2] == s[n - 2..n][0];
    }
    RunStops(s, k, n - 2);
  }

  /** k is where the run of number characters at the start of s stops. */
  predicate RunEndsAt(s: string, k: nat) {
    && k <= |s|
    && (forall i :: 0 <= i < k ==> IsNumberChar(s[i]))
    && (k < |s| ==> !IsNumberChar(s[k]))
  }

  /** Cutting the prefix s[..n] at m. */
  lemma PrefixCut(s: string, n: nat, m: nat)
    requires m <= n <= |s|
    ensures |s[..n]| == n && s[..n][..m] == s[..m] && s[..n][m..] == s[m..n]
  {
  }

  /** A numeral at the start of s is made of number characters. */
  lemma NumberPrefixChars(s: string, m: nat)
    requires m <= |s| && IsNumber(s[..m])
    ensures forall i :: 0 <= i < m ==> IsNumberChar(s[i])
  {
    forall i | 0 <= i < m ensures IsNumberChar(s[i]) {
      assert s[i] == s[..m][i];
    }
  }

  /** The run of number characters stops at the first character that is not one. */
  lemma RunStops(s: string, k: nat, j: nat)
    requires RunEndsAt(s, k) && j < |s|
    requires forall i :: 0 <= i < j ==> IsNumberChar(s[i])
    requires !IsNumberChar(s[j])
    ensures k == j
  {
  }

  /** A character that opens a quoted or url span. */
  predicate IsSpanOpening(c: char) {
    c == '"' || c == '\'' || c == 'u' || c == 'U'
  }

  lemma SpanOpeningCases(t: string)
    requires IsSpan(t)
    ensures IsQuotedSpan(t, '"') <==> t[0] == '"'
    ensures IsQuotedSpan(t, '\'') <==> t[0] == '\''
    ensures IsUrlSpan(t) <==> (t[0] == 'u' || t[0] == 'U')
    ensures IsPixelSpan(t) <==> IsNumberChar(t[0])
  {
    if IsPixelSpan(t) {
      assert t[0] == t[..|t| - 2][0];
    }
  }

  /** The first alternative of the pattern that matches at the start of s.
      At most one can: they begin with different characters. */
  function MatchAt(s: string): (r: Option<Segment>)
    ensures r.Some? ==> 0 < |Text(r.value)| <= |s| && s[..|Text(r.value)|] == Text(r.value)
                        && IsSpan(Text(r.value)) && r.value == ClassifySpan(Text(r.value))
    ensures forall k :: 0 < k <= |s| && IsSpan(s[..k]) ==> r == Some(ClassifySpan(s[..k]))
  {
    var dq := MatchQuoted(s, '"');
    var sq := MatchQuoted(s, '\'');
    var url := MatchUrl(s);
    var px := MatchPixel(s);
    forall k | 0 < k <= |s| && IsSpan(s[..k])
      ensures (if dq.Some? then dq else if sq.Some? then sq else if url.Some? then url else px)
              == Some(ClassifySpan(s[..k]))
    {
      SpanOpeningCases(s[..k]);
    }
    if dq.Some? then dq
    else if sq.Some? then sq
    else if url.Some? then url
    else px
  }

  /** No alternative of the pattern matches at the start of s. */
  ghost predicate NoSpanAtStart(s: string) {
    forall k :: 0 < k <= |s| ==> !IsSpan(s[..k])
  }

  /** seg is what a leftmost scan emits at the start of s: it covers the
      first characters of s; it is a literal exactly when no alternative
      matches there, and otherwise the span the pattern matches, classified. */
  ghost predicate FirstOfScan(s: string, seg: Segment) {
    var t := Text(seg);
    && 0 < |t| <= |s| && s[..|t|] == t
    && (seg.Lit? <==> NoSpanAtStart(s))
    && (!seg.Lit? ==> IsSpan(t) && seg == ClassifySpan(t))
  }

  /** segs is a leftmost scan of s: every segment is what the scan emits at
      the position where the previous one ends. */
  ghost predicate IsLeftmostScan(s: string, segs: seq<Segment>)
    decreases |segs|
  {
    if |segs| == 0 then |s| == 0
    else FirstOfScan(s, segs[0]) && IsLeftmostScan(s[|Text(segs[0])|..], segs[1..])
  }

  /** The segment the scan emits at the start of a non-empty s. */
  function FirstSegment(s: string): (seg: Segment)
    requires |s| > 0
    ensures FirstOfScan(s, seg) && WellFormed(seg)
    ensures seg.Lit? ==> seg == Lit(s[0])
    ensures forall k :: 0 < k <= |s| && IsSpan(s[..k]) ==> seg == ClassifySpan(s[..k])
  {
    match MatchAt(s)
    case Some(seg) =>
      ClassifiedWellFormed(Text(seg));
      assert !NoSpanAtStart(s) by {
        assert s[..|Text(seg)|] == Text(seg);
      }
      seg
    case None =>
      assert s[..1] == [s[0]];
      Lit(s[0])
  }

  /** The segments of s, in order. */
  function Scan(s: string): (segs: seq<Segment>)
    ensures Flatten(segs) == s
    ensures forall i :: 0 <= i < |segs| ==> WellFormed(segs[i])
    ensures IsLeftmostScan(s, segs)
    decreases |s|
  {
    if |s| == 0 then []
    else
      var seg := FirstSegment(s);
      var rest := Scan(s[|Text(seg)|..]);
      ScanCons(s, seg, rest);
      [seg] + rest
  }

  lemma ScanCons(s: string, seg: Segment, rest: seq<Segment>)
    requires FirstOfScan(s, seg) && WellFormed(seg)
    requires Flatten(rest) == s[|Text(seg)|..] && IsLeftmostScan(s[|Text(seg)|..], rest)
    requires forall i :: 0 <= i < |rest| ==> WellFormed(rest[i])
    ensures Flatten([seg] + rest) == s
    ensures forall i :: 0 <= i < |[seg] + rest| ==> WellFormed(([seg] + rest)[i])
    ensures IsLeftmostScan(s, [seg] + rest)
  {
    var segs := [seg] + rest;
    assert segs[0] == seg && segs[1..] == rest;
    assert s == Text(seg) + s[|Text(seg)|..];
  }

  /** Two segments a leftmost scan could emit at the start of s are the same. */
  lemma FirstOfScanUnique(s: string, a: Segment, b: Segment)
    requires FirstOfScan(s, a) && FirstOfScan(s, b)
    ensures a == b
  {
    var ta := Text(a);
    var tb := Text(b);
    if a.Lit? {
      assert ta[0] == s[0] && tb[0] == s[0];
    } else {
      var r := MatchAt(s);
      assert r == Some(ClassifySpan(s[..|ta|]));
      assert r == Some(ClassifySpan(s[..|tb|]));
    }
  }

  /** A leftmost scan is unique: Scan is the only segmentation of s with
      that property. */
  lemma {:induction false} LeftmostScanUnique(s: string, a: seq<Segment>, b: seq<Segment>)
    requires IsLeftmostScan(s, a) && IsLeftmostScan(s, b)
    ensures a == b
    decreases |a|
  {
    if |a| == 0 {
      LeftmostScanOfEmpty(s, b);
    } else if |b| == 0 {
      LeftmostScanOfEmpty(s, a);
    } else {
      LeftmostScanStep(s, a);
      LeftmostScanStep(s, b);
      FirstOfScanUnique(s, a[0], b[0]);
      LeftmostScanUnique(s[|Text(a[0])|..], a[1..], b[1..]);
      SameHeadSameTail(a, b);
    }
  }

  lemma SameHeadSameTail<T>(a: seq<T>, b: seq<T>)
    requires |a| > 0 && |b| > 0 && a[0] == b[0] && a[1..] == b[1..]
    ensures a == b
  {
    assert a == [a[0]] + a[1..];
    assert b == [b[0]] + b[1..];
  }

  /** Only the empty scan covers the empty value, and a non-empty value has
      no empty scan. */
  lemma LeftmostScanOfEmpty(s: string, segs: seq<Segment>)
    requires IsLeftmostScan(s, segs)
    ensures |s| == 0 <==> |segs| == 0
  {
    if |segs| > 0 {
      assert FirstOfScan(s, segs[0]);
    }
  }

  /** A non-empty leftmost scan is its first segment followed by a leftmost
      scan of what that segment leaves. */
  lemma LeftmostScanStep(s: string, segs: seq<Segment>)
    requires |segs| > 0 && IsLeftmostScan(s, segs)
    ensures FirstOfScan(s, segs[0]) && |Text(segs[0])| <= |s|
    ensures IsLeftmostScan(s[|Text(segs[0])|..], segs[1..])
  {
  }

  lemma ClassifiedWellFormed(t: string)
    requires IsSpan(t)
    ensures WellFormed(ClassifySpan(t))
  {
    SpanOpeningCases(t);
  }

  /** The scan emits a literal character exactly where no alternative matches. */
  lemma ScanLiteralIffNoMatch(s: string)
    requires |s| > 0
    ensures Scan(s)[0] == Lit(s[0]) <==> forall k :: 0 < k <= |s| ==> !IsSpan(s[..k])
  {
  }

  /** A span at the start of the text is taken whole, whatever follows it. */
  lemma ScanSpanFirst(t: string, rest: string)
    requires IsSpan(t)
    ensures Scan(t + rest) == [ClassifySpan(t)] + Scan(rest)
  {
    var s := t + rest;
    assert s[..|t|] == t;
    assert s[|t|..] == rest;
  }

  /** A character no alternative matches at is copied alone. */
  lemma ScanNoMatchFirst(s: string)
    requires |s| > 0
    requires forall k :: 0 < k <= |s| ==> !IsSpan(s[..k])
    ensures Scan(s) == [Lit(s[0])] + Scan(s[1..])
  {
  }
}
