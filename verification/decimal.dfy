/** Decimal numerals: the value `parseFloat` gives a pixel magnitude, and the
    text a non-negative number on a decimal grid is rendered as. */
module Decimal {
  import opened Strings

  function Pow10(n: nat): (r: nat)
    ensures r >= 1
  {
    if n == 0 then 1 else 10 * Pow10(n - 1)
  }

  predicate AllDigits(d: string) {
    forall i :: 0 <= i < |d| ==> IsDigit(d[i])
  }

  function DigitValue(c: char): nat
    requires IsDigit(c)
  {
    c as int - '0' as int
  }

  function DigitChar(v: nat): (c: char)
    requires v < 10
    ensures IsDigit(c) && DigitValue(c) == v
  {
    ('0' as int + v) as char
  }

  /** The value of a (possibly empty) digit string read in base ten. */
  function DigitsValue(d: string): nat
    requires AllDigits(d)
    decreases |d|
  {
    if |d| == 0 then 0 else 10 * DigitsValue(d[..|d| - 1]) + DigitValue(d[|d| - 1])
  }

  predicate IsNumberChar(c: char) {
    IsDigit(c) || c == '.'
  }

  /** The numerals of the regular expression `\d*\.?\d+`: digits and at most
      one point, ending in a digit. */
  predicate IsNumber(t: string) {
    && |t| >= 1
    && IsDigit(t[|t| - 1])
    && (forall i :: 0 <= i < |t| ==> IsNumberChar(t[i]))
    && (forall j :: FirstDot(t) < j < |t| ==> t[j] != '.')
  }

  /** The index of the first point in `t`, or |t| when there is none. */
  function FirstDot(t: string): (k: nat)
    ensures k <= |t|
    ensures forall i :: 0 <= i < k ==> t[i] != '.'
    ensures k < |t| ==> t[k] == '.'
    decreases |t|
  {
    if |t| == 0 || t[0] == '.' then 0 else 1 + FirstDot(t[1..])
  }

  /** `parseFloat` of a numeral of `\d*\.?\d+`, as an exact rational: the
      digits before the point are the integer part, the ones after it the
      fraction. */
  function NumberValue(t: string): (v: real)
    requires IsNumber(t)
    ensures v >= 0.0
  {
    var k := FirstDot(t);
    NumberParts(t);
    if k == |t| then DigitsValue(t) as real
    else FractionValue(t[..k], t[k + 1..])
  }

  /** The value of integer digits `ip`, a point, and fraction digits `fp`. */
  function FractionValue(ip: string, fp: string): (v: real)
    requires AllDigits(ip) && AllDigits(fp)
    ensures v >= 0.0
  {
    NonNegativeRatio(DigitsValue(fp), Pow10(|fp|));
    DigitsValue(ip) as real + DigitsValue(fp) as real / Pow10(|fp|) as real
  }

  /** The two digit runs of a numeral, around its point. */
  lemma NumberParts(t: string)
    requires IsNumber(t)
    ensures AllDigits(t[..FirstDot(t)])
    ensures FirstDot(t) == |t| ==> AllDigits(t)
    ensures FirstDot(t) < |t| ==> AllDigits(t[FirstDot(t) + 1..])
  {
    var k := FirstDot(t);
    forall i | 0 <= i < k ensures IsDigit(t[..k][i]) {
      assert IsNumberChar(t[i]);
    }
    if k == |t| {
      assert t[..k] == t;
    } else {
      var u := t[k + 1..];
      forall i | 0 <= i < |u| ensures IsDigit(u[i]) {
        assert u[i] == t[k + 1 + i] && IsNumberChar(t[k + 1 + i]);
      }
    }
  }

  lemma NonNegativeRatio(a: nat, b: nat)
    requires b >= 1
    ensures a as real / b as real >= 0.0
  {
  }

  /** The shortest decimal digit string of `v` ("0" for zero). */
  function NatToDigits(v: nat): (d: string)
    ensures |d| >= 1 && AllDigits(d)
    ensures DigitsValue(d) == v
    ensures d[|d| - 1] == DigitChar(v % 10)
    ensures d[0] == '0' ==> v == 0 && d == "0"
    decreases v
  {
    if v < 10 then [DigitChar(v)]
    else
      var h := NatToDigits(v / 10);
      var d := h + [DigitChar(v % 10)];
      assert d[..|d| - 1] == h;
      assert d[0] == h[0];
      d
  }

  lemma {:induction false} NatToDigitsLength(v: nat, e: nat)
    requires e >= 1 && v < Pow10(e)
    ensures |NatToDigits(v)| <= e
    decreases v
  {
    if v >= 10 {
      assert Pow10(1) == 10;
      assert v / 10 < Pow10(e - 1);
      NatToDigitsLength(v / 10, e - 1);
    }
  }

  lemma {:induction false} LeadingZero(d: string)
    requires AllDigits(d)
    ensures AllDigits("0" + d) && DigitsValue("0" + d) == DigitsValue(d)
    decreases |d|
  {
    var z := "0" + d;
    assert AllDigits(z) by {
      forall i | 0 <= i < |z| ensures IsDigit(z[i]) {
        if i > 0 { assert z[i] == d[i - 1]; }
      }
    }
    if |d| > 0 {
      assert z[..|z| - 1] == "0" + d[..|d| - 1];
      LeadingZero(d[..|d| - 1]);
    }
  }

  /** `d` with zeros added on the left until it is `w` long. */
  function PadZeros(d: string, w: nat): (r: string)
    requires |d| >= 1 && AllDigits(d)
    ensures |r| == if |d| >= w then |d| else w
    ensures AllDigits(r) && DigitsValue(r) == DigitsValue(d)
    ensures r[|r| - 1] == d[|d| - 1]
    decreases w - |d|
  {
    if |d| >= w then d
    else
      LeadingZero(d);
      PadZeros("0" + d, w)
  }

  /** Strips trailing zero fractional digits from the value k / 10^n. */
  function Normalize(k: nat, n: nat): (r: (nat, nat))
    ensures r.1 <= n
    ensures k * Pow10(r.1) == r.0 * Pow10(n)
    ensures r.1 == 0 || r.0 % 10 != 0
    decreases n
  {
    if n > 0 && k % 10 == 0 then
      var r := Normalize(k / 10, n - 1);
      assert k == 10 * (k / 10);
      ScaleByTen(k / 10, Pow10(r.1), r.0, Pow10(n - 1));
      r
    else (k, n)
  }

  lemma ScaleByTen(q: int, a: int, b: int, c: int)
    requires q * a == b * c
    ensures (10 * q) * a == b * (10 * c)
  {
    calc {
      (10 * q) * a;
      10 * (q * a);
      10 * (b * c);
      b * (10 * c);
    }
  }

  lemma ModPow10Mod10(m: nat, e: nat)
    requires e >= 1
    ensures (m % Pow10(e)) % 10 == m % 10
  {
    var big := Pow10(e);
    var p := Pow10(e - 1);
    assert big == 10 * p;
    var q := m / big;
    var r := m % big;
    DivModParts(m, big);
    assert q * big == 10 * (q * p) by { MulAssocTen(q, p); }
    ModTenShift(q * p, r);
  }

  lemma DivModParts(m: nat, d: nat)
    requires d >= 1
    ensures m == (m / d) * d + m % d && m / d >= 0 && 0 <= m % d < d
  {
  }

  lemma MulAssocTen(q: int, p: int)
    ensures q * (10 * p) == 10 * (q * p)
  {
  }

  lemma ModTenShift(k: nat, x: nat)
    ensures (10 * k + x) % 10 == x % 10
  {
  }

  lemma QuotientPlusFraction(m: nat, p: nat)
    requires p >= 1
    ensures (m / p) as real + (m % p) as real / p as real == m as real / p as real
  {
    assert m == (m / p) * p + m % p;
    assert (m / p) as real * p as real + (m % p) as real == m as real;
  }

  lemma CrossDivide(x: real, y: real, z: real, w: real)
    requires y > 0.0 && w > 0.0 && x * w == z * y
    ensures x / y == z / w
  {
    assert x / y == (x * w) / (y * w);
    assert z / w == (z * y) / (w * y);
  }

  lemma ProductAsReal(a: int, b: int)
    ensures (a * b) as real == a as real * b as real
  {
  }

  lemma ScaledEqual(k: nat, n: nat, m: nat, e: nat)
    requires k * Pow10(e) == m * Pow10(n)
    ensures m as real / Pow10(e) as real == k as real / Pow10(n) as real
  {
    var pe := Pow10(e);
    var pn := Pow10(n);
    ProductAsReal(k, pe);
    ProductAsReal(m, pn);
    CrossDivide(m as real, pe as real, k as real, pn as real);
  }

  /** An integral rendering is a plain digit string with no point. */
  lemma DigitsAreNumber(s: string)
    requires |s| >= 1 && AllDigits(s)
    ensures IsNumber(s) && FirstDot(s) == |s| && '.' !in s
    ensures NumberValue(s) == DigitsValue(s) as real
  {
    forall i | 0 <= i < |s| ensures IsNumberChar(s[i]) && s[i] != '.' {
      assert IsDigit(s[i]);
    }
  }

  /** A rendering with a fraction: integer digits, a point, fraction digits. */
  lemma PointedShape(ip: string, fp: string)
    requires |ip| >= 1 && AllDigits(ip) && |fp| >= 1 && AllDigits(fp)
    ensures IsNumber(ip + "." + fp)
    ensures FirstDot(ip + "." + fp) == |ip|
    ensures (ip + "." + fp)[..|ip|] == ip && (ip + "." + fp)[|ip| + 1..] == fp
  {
    var s := ip + "." + fp;
    assert s[|ip|] == '.';
    assert forall i :: 0 <= i < |ip| ==> s[i] == ip[i];
    assert forall i :: |ip| < i < |s| ==> s[i] == fp[i - |ip| - 1];
    assert forall i :: 0 <= i < |s| && i != |ip| ==> IsDigit(s[i]);
    assert IsDigit(s[|s| - 1]);
  }

  lemma PointedNumber(ip: string, fp: string)
    requires |ip| >= 1 && AllDigits(ip) && |fp| >= 1 && AllDigits(fp)
    ensures IsNumber(ip + "." + fp)
    ensures NumberValue(ip + "." + fp)
         == DigitsValue(ip) as real + DigitsValue(fp) as real / Pow10(|fp|) as real
  {
    var s := ip + "." + fp;
    PointedShape(ip, fp);
    PointedValue(s, ip, fp);
  }

  /** The value of a numeral with a point, once its two digit runs are known. */
  lemma PointedValue(s: string, ip: string, fp: string)
    requires IsNumber(s) && FirstDot(s) == |ip| && |s| == |ip| + 1 + |fp|
    requires s[..|ip|] == ip && s[|ip| + 1..] == fp && AllDigits(ip) && AllDigits(fp)
    ensures NumberValue(s) == FractionValue(ip, fp)
  {
    assert FirstDot(s) != |s|;
  }

  /** The text of m / 10^e for e >= 1 when m has no trailing zero digit. */
  function RenderPointed(m: nat, e: nat): (s: string)
    requires e >= 1 && m % 10 != 0
    ensures IsNumber(s) && '.' in s
    ensures NumberValue(s) == m as real / Pow10(e) as real
    ensures s[|s| - 1] != '0'
    ensures s[0] != '.' && (s[0] == '0' ==> s[1] == '.')
  {
    var p := Pow10(e);
    DivModParts(m, p);
    var ip := NatToDigits(m / p);
    var fd := NatToDigits(m % p);
    NatToDigitsLength(m % p, e);
    var fp := PadZeros(fd, e);
    PointedDigitsValue(m, e, ip, fp);
    PointedLastDigit(m, e, fd);
    LastDigitNotZero(ip, fp, fd);
    LeadingDigit(ip, fp);
    ip + "." + fp
  }

  /** The integer part of a pointed rendering starts the text, and it is a
      lone zero when it starts with zero. */
  lemma LeadingDigit(ip: string, fp: string)
    requires |ip| >= 1 && AllDigits(ip) && (ip[0] == '0' ==> ip == "0")
    ensures var s := ip + "." + fp;
            s[0] != '.' && (s[0] == '0' ==> s[1] == '.')
  {
    var s := ip + "." + fp;
    assert s[0] == ip[0] && IsDigit(ip[0]);
    if ip[0] == '0' {
      assert s[1] == '.';
    }
  }

  /** Integer digits of m / 10^e, a point, and e fraction digits of m % 10^e
      read back as m / 10^e. */
  lemma PointedDigitsValue(m: nat, e: nat, ip: string, fp: string)
    requires e >= 1
    requires |ip| >= 1 && AllDigits(ip) && DigitsValue(ip) == m / Pow10(e)
    requires |fp| == e && AllDigits(fp) && DigitsValue(fp) == m % Pow10(e)
    ensures IsNumber(ip + "." + fp)
    ensures NumberValue(ip + "." + fp) == m as real / Pow10(e) as real
  {
    PointedNumber(ip, fp);
    QuotientPlusFraction(m, Pow10(e));
  }

  /** The last digit of m % 10^e is the last digit of m. */
  lemma PointedLastDigit(m: nat, e: nat, fd: string)
    requires e >= 1 && m % 10 != 0
    requires fd == NatToDigits(m % Pow10(e))
    ensures |fd| >= 1 && fd[|fd| - 1] != '0'
  {
    ModPow10Mod10(m, e);
    assert fd[|fd| - 1] == DigitChar(m % 10);
    assert DigitValue(DigitChar(m % 10)) == m % 10;
  }

  lemma LastDigitNotZero(ip: string, fp: string, fd: string)
    requires |fp| >= 1 && |fd| >= 1 && fp[|fp| - 1] == fd[|fd| - 1]
    requires fd[|fd| - 1] != '0'
    ensures '.' in ip + "." + fp && (ip + "." + fp)[|ip + "." + fp| - 1] != '0'
  {
    assert (ip + "." + fp)[|ip|] == '.';
  }

  /** The decimal text of k / 10^n, with no trailing zero fractional digits
      and no point when the value is integral. */
  function Render(k: nat, n: nat): (s: string)
    ensures IsNumber(s)
    ensures NumberValue(s) == k as real / Pow10(n) as real
    ensures '.' in s ==> s[|s| - 1] != '0'
    ensures s[0] != '.' && (s[0] == '0' ==> |s| == 1 || s[1] == '.')
  {
    var (m, e) := Normalize(k, n);
    ScaledEqual(k, n, m, e);
    if e == 0 then
      var s := NatToDigits(m);
      DigitsAreNumber(s);
      s
    else
      RenderPointed(m, e)
  }
}
