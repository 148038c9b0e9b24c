/** Version strings go through `parseFloat` and `Number.prototype.toFixed(1)`.
    Numbers are modelled as exact decimals `num / 10^scale` rather than binary
    floating point, together with `NaN` and the two infinities. */
module Versions {
  import opened Strings

  datatype JsNumber = NaN | Infinity(negative: bool) | Finite(num: int, scale: nat)

  function Pow10(k: nat): (r: nat)
    ensures r >= 1
  {
    if k == 0 then 1 else 10 * Pow10(k - 1)
  }

  /** The value of a digit character. */
  function DigitValue(c: char): int {
    c as int - '0' as int
  }

  function DigitChar(d: nat): (c: char)
    requires d < 10
    ensures IsDigit(c) && DigitValue(c) == d
  {
    ('0' as int + d) as char
  }


  /** The number written by a string of digits. */
  function DigitsValue(s: string): int {
    if s == [] then 0 else DigitsValue(s[..|s| - 1]) * 10 + DigitValue(s[|s| - 1])
  }

  /** The decimal digits of `n`, with no leading zero (`"0"` for zero). */
  function NatToString(n: nat): string {
    if n < 10 then [DigitChar(n)] else NatToString(n / 10) + [DigitChar(n % 10)]
  }

  /** `NatToString` writes the digits of `n` without a leading zero. */
  lemma {:induction false} NatToStringDigits(n: nat)
    ensures var s := NatToString(n); s != [] && AllDigits(s) && DigitsValue(s) == n
    ensures |NatToString(n)| > 1 ==> NatToString(n)[0] != '0'
  {
    if n >= 10 {
      NatToStringDigits(n / 10);
      var s := NatToString(n);
      assert s[..|s| - 1] == NatToString(n / 10);
    }
  }


  // ---------------------------------------------------------------- parseFloat

  /** `parseFloat`: leading whitespace is skipped, then the longest prefix of the form
      `[+-]Infinity`, `[+-]digits[.digits]` or `[+-].digits` is read; anything else
      is `NaN`. Trailing text is ignored (`"1.2.3"` reads as 1.2). */
  function ParseFloat(s: string): JsNumber {
    ParseSigned(TrimStart(s))
  }

  /** An optional sign, then the unsigned number. */
  function ParseSigned(t: string): JsNumber {
    if t != [] && (t[0] == '+' || t[0] == '-') then ParseUnsigned(t[0] == '-', t[1..])
    else ParseUnsigned(false, t)
  }

  /** `Infinity`, or digits with an optional fraction, or a fraction alone. */
  function ParseUnsigned(negative: bool, u: string): JsNumber {
    if StartsWith(u, "Infinity") then Infinity(negative)
    else
      var i := DigitRun(u);
      var whole := DigitsValue(u[..i]);
      if i < |u| && u[i] == '.' then
        var f := DigitRun(u[i + 1..]);
        var fraction := DigitsValue(u[i + 1..][..f]);
        if i == 0 && f == 0 then NaN
        else Finite(Signed(negative, whole * Pow10(f) + fraction), f)
      else if i == 0 then NaN
      else Finite(Signed(negative, whole), 0)
  }

  function Signed(negative: bool, n: int): int {
    if negative then -n else n
  }

  /** `x || 0`: `NaN` and zero are falsy and become 0. */
  function OrZero(x: JsNumber): (r: JsNumber)
    ensures r.Finite? || r.Infinity?
  {
    match x
    case NaN => Finite(0, 0)
    case Finite(num, _) => if num == 0 then Finite(0, 0) else x
    case Infinity(_) => x
  }

  /** `x / 10^k` rounded down, one decimal digit at a time. */
  function DivPow10(x: int, k: nat): (r: int)
    ensures x >= 0 ==> 0 <= r <= x
  {
    if k == 0 then x else DivPow10(x, k - 1) / 10
  }

  /** `Math.floor` of a finite number. */
  function Floor(num: int, scale: nat): int {
    DivPow10(num, scale)
  }

  function AddOne(x: JsNumber): JsNumber {
    match x
    case Finite(num, k) => Finite(num + Pow10(k), k)
    case _ => x
  }

  // ---------------------------------------------------------------- toFixed(1)

  /** `n` tenths written with one decimal: `15` gives `"1.5"`, `3` gives `"0.3"`. */
  function FormatTenths(negative: bool, n: nat): string {
    var m := NatToString(n);
    var padded := if |m| <= 1 then "0" + m else m;
    (if negative then "-" else "") + padded[..|padded| - 1] + "." + padded[|padded| - 1..]
  }

  /** `a / 10^k` rounded to tenths, a tie going to the larger tenth: the digit after the
      tenths decides. */
  function RoundTenths(a: nat, k: nat): nat {
    if k == 0 then 10 * a
    else if k == 1 then a
    else (DivPow10(a, k - 2) + 5) / 10
  }

  lemma MulNonneg(x: int, y: int)
    requires x >= 0 && y >= 0
    ensures x * y >= 0
  {
  }

  /** `x.toFixed(1)`: a negative number is written with `-` and its magnitude rounded
      (so `-0.04` gives `"-0.0"`); `NaN` and the infinities are written out. */
  function ToFixed1(x: JsNumber): string {
    match x
    case NaN => "NaN"
    case Infinity(negative) => if negative then "-Infinity" else "Infinity"
    case Finite(num, k) =>
      FormatTenths(num < 0, RoundTenths(if num < 0 then -num else num, k))
  }

  // ---------------------------------------------------------------- the version rules

  /** The next major version: `(Math.floor(parseFloat(v) || 0) + 1).toFixed(1)`. */
  function MajorVersion(v: string): string {
    NextMajor(ParseFloat(v))
  }

  /** The major rule applied to the number read from the version. */
  function NextMajor(x: JsNumber): string {
    match OrZero(x)
    case Finite(num, k) => ToFixed1(Finite(Floor(num, k) + 1, 0))
    case y => ToFixed1(y)
  }

  /** The next minor version: `((parseFloat(v) || 0) + 0.1).toFixed(1)`. */
  function MinorVersion(v: string): string {
    NextMinor(ParseFloat(v))
  }

  /** The minor rule applied to the number read from the version. */
  function NextMinor(x: JsNumber): string {
    match OrZero(x)
    case Finite(num, k) => ToFixed1(Finite(10 * num + Pow10(k), k + 1))
    case y => ToFixed1(y)
  }

  // ---------------------------------------------------------------- lemmas

  lemma {:induction false} DigitsValueLeadingZero(s: string)
    requires AllDigits(s)
    ensures AllDigits("0" + s) && DigitsValue("0" + s) == DigitsValue(s)
    decreases |s|
  {
    var z := "0" + s;
    if s != [] {
      assert z[..|z| - 1] == "0" + s[..|s| - 1];
      DigitsValueLeadingZero(s[..|s| - 1]);
    } else {
      assert z[..|z| - 1] == [];
    }
  }

  /** `parseFloat` reads `digits.d` as the digits with one decimal. */
  lemma ParseUnsignedTenths(negative: bool, w: string, d: char)
    requires w != [] && AllDigits(w) && IsDigit(d)
    ensures ParseUnsigned(negative, w + "." + [d]) == Finite(Signed(negative, DigitsValue(w) * 10 + DigitValue(d)), 1)
  {
    var u := w + "." + [d];
    assert u[0] == w[0];
    DiffersAt(u, "Infinity", 0);
    TenthsPieces(w, d);
    OneDigit(d);
    assert Pow10(1) == 10;
  }

  lemma TenthsPieces(w: string, d: char)
    requires AllDigits(w)
    ensures DigitRun(w + "." + [d]) == |w| && (w + "." + [d])[|w|] == '.'
    ensures (w + "." + [d])[..|w|] == w && (w + "." + [d])[|w| + 1..] == [d]
  {
    var u := w + "." + [d];
    assert u == w + ("." + [d]);
    DigitRunOf(w, "." + [d]);
    assert u[..|w|] == w;
    assert u[|w| + 1..] == [d];
  }

  lemma OneDigit(d: char)
    requires IsDigit(d)
    ensures DigitRun([d]) == 1 && [d][..1] == [d] && DigitsValue([d]) == DigitValue(d)
  {
    DigitRunOf([d], []);
    assert [d] + [] == [d];
    assert [d][..0] == [];
  }

  /** What `toFixed(1)` writes is a sign, digits, a point and one digit. */
  lemma FormatTenthsShape(negative: bool, n: nat) returns (w: string, d: char)
    ensures w != [] && AllDigits(w) && IsDigit(d) && DigitsValue(w) * 10 + DigitValue(d) == n
    ensures FormatTenths(negative, n) == (if negative then "-" else "") + (w + "." + [d])
  {
    var padded := Padded(n);
    w := padded[..|padded| - 1];
    d := padded[|padded| - 1];
    assert padded[|padded| - 1..] == [d];
    LastDigit(padded);
    var sign := if negative then "-" else "";
    assert FormatTenths(negative, n) == sign + w + "." + [d];
    Regroup(sign, w, ".", [d]);
  }

  /** The digits of `n` padded with a leading zero to at least two digits. */
  lemma Padded(n: nat) returns (padded: string)
    ensures padded == (if |NatToString(n)| <= 1 then "0" + NatToString(n) else NatToString(n))
    ensures |padded| >= 2 && AllDigits(padded) && DigitsValue(padded) == n
  {
    var m := NatToString(n);
    NatToStringDigits(n);
    padded := if |m| <= 1 then "0" + m else m;
    if |m| <= 1 {
      DigitsValueLeadingZero(m);
    }
  }

  lemma LastDigit(s: string)
    requires s != [] && AllDigits(s)
    ensures AllDigits(s[..|s| - 1]) && IsDigit(s[|s| - 1])
    ensures DigitsValue(s) == DigitsValue(s[..|s| - 1]) * 10 + DigitValue(s[|s| - 1])
  {
  }

  /** Reading back what `toFixed(1)` wrote gives the rounded value exactly: `parseFloat`
      and `toFixed(1)` are inverse on numbers of tenths. */
  lemma ParseFormatTenths(negative: bool, n: nat)
    ensures ParseFloat(FormatTenths(negative, n)) == Finite(Signed(negative, n), 1)
  {
    var w, d := FormatTenthsShape(negative, n);
    var u := w + "." + [d];
    var s := FormatTenths(negative, n);
    ParseUnsignedTenths(negative, w, d);
    assert u[0] == w[0];
    if negative {
      assert s == ['-'] + u;
      assert s[0] == '-' && s[1..] == u;
      assert ParseSigned(s) == ParseUnsigned(true, u);
    } else {
      assert s == u;
      assert ParseSigned(s) == ParseUnsigned(false, u);
    }
    assert !IsWhitespace(s[0]);
    assert TrimStart(s) == s;
  }

  /** `toFixed(1)` of an integer `n` writes `n` followed by `.0`. */
  lemma ToFixedWhole(n: int)
    ensures ToFixed1(Finite(n, 0)) == FormatTenths(n < 0, 10 * (if n < 0 then -n else n))
  {
  }

  /** A major revision reads back as `floor(v) + 1`, or as 1 for a version that is
      not a number. */
  lemma MajorVersionReadsBack(x: JsNumber, num: int, k: nat)
    requires OrZero(x) == Finite(num, k)
    ensures ParseFloat(NextMajor(x)) == Finite(10 * (Floor(num, k) + 1), 1)
  {
    assert NextMajor(x) == ToFixed1(Finite(Floor(num, k) + 1, 0));
    ParseWhole(Floor(num, k) + 1);
  }

  /** `toFixed(1)` of a whole number reads back as that number. */
  lemma ParseWhole(f: int)
    ensures ParseFloat(ToFixed1(Finite(f, 0))) == Finite(10 * f, 1)
  {
    var a := if f < 0 then -f else f;
    ToFixedWhole(f);
    ParseFormatTenths(f < 0, 10 * a);
    assert Signed(f < 0, 10 * a) == 10 * f;
  }

  /** Dividing `t * 10^k` by ten `j` times leaves `t * 10^(k - j)`. */
  lemma {:induction false} DivPow10OfMultiple(t: int, k: nat, j: nat)
    requires j <= k
    ensures DivPow10(t * Pow10(k), j) == t * Pow10(k - j)
  {
    if j > 0 {
      DivPow10OfMultiple(t, k, j - 1);
      var q := Pow10(k - j);
      assert Pow10(k - (j - 1)) == 10 * q;
      TimesTen(t, q);
    }
  }

  lemma TimesTen(t: int, q: int)
    ensures t * (10 * q) == 10 * (t * q) && (10 * (t * q)) / 10 == t * q
  {
  }

  /** For a version with at most one decimal, a minor revision adds exactly one tenth. */
  lemma MinorVersionAddsTenth(x: JsNumber)
    requires OrZero(x).Finite? && OrZero(x).scale <= 1
    ensures var old_ := OrZero(x);
      ParseFloat(NextMinor(x)) == Finite(old_.num * Pow10(1 - old_.scale) + 1, 1)
  {
    var old_ := OrZero(x);
    var t := old_.num * Pow10(1 - old_.scale) + 1;
    MinorVersionText(x, old_.num, old_.scale);
    var n := if t < 0 then -t else t;
    ParseFormatTenths(t < 0, n);
    assert Signed(t < 0, n) == t;
    assert ParseFloat(FormatTenths(t < 0, n)) == Finite(t, 1);
  }

  /** A number that is a whole count of tenths rounds to itself. */
  lemma RoundExact(t: nat, k: nat)
    ensures RoundTenths(t * Pow10(k), k + 1) == t
  {
    MulNonneg(t, Pow10(k));
    if k > 0 {
      DivPow10OfMultiple(t, k, k - 1);
      assert Pow10(1) == 10;
    }
  }

  lemma MulMono(a: int, b: int, y: int)
    requires a >= b && y > 0
    ensures a * y >= b * y
  {
    assert a * y == b * y + (a - b) * y;
  }

  /** The seed document's version `"A.0"` is not a number, so its major revision is `"1.0"`. */
  lemma MajorOfNonNumber()
    ensures ParseFloat("A.0") == NaN
    ensures MajorVersion("A.0") == "1.0"
  {
    var s := "A.0";
    assert TrimStart(s) == s;
    assert !StartsWith(s, "Infinity");
    assert DigitRun(s) == 0;
    assert NatToString(10) == "10";
  }

  lemma ParseOnePointFive()
    ensures ParseFloat("1.5") == Finite(15, 1)
  {
    assert NatToString(15) == "15";
    assert FormatTenths(false, 15) == "1.5";
    ParseFormatTenths(false, 15);
  }

  lemma ParseOnePointZero()
    ensures ParseFloat("1.0") == Finite(10, 1)
  {
    assert NatToString(10) == "10";
    assert FormatTenths(false, 10) == "1.0";
    ParseFormatTenths(false, 10);
  }

  /** The text of a major revision: `floor(v) + 1` with `.0`. */
  lemma MajorVersionText(x: JsNumber, num: int, k: nat)
    requires OrZero(x) == Finite(num, k)
    ensures var f := Floor(num, k) + 1;
      NextMajor(x) == FormatTenths(f < 0, 10 * (if f < 0 then -f else f))
  {
    ToFixedWhole(Floor(num, k) + 1);
  }

  /** The text of a minor revision of a version with at most one decimal. */
  lemma MinorVersionText(x: JsNumber, num: int, k: nat)
    requires OrZero(x) == Finite(num, k) && k <= 1
    ensures var t := num * Pow10(1 - k) + 1;
      NextMinor(x) == FormatTenths(t < 0, if t < 0 then -t else t)
  {
    var t := num * Pow10(1 - k) + 1;
    var x := 10 * num + Pow10(k);
    TenthsOfMinor(num, k);
    ToFixedTenths(x, k, if t < 0 then -t else t);
  }

  lemma TenthsOfMinor(num: int, k: nat)
    requires k <= 1
    ensures var t := num * Pow10(1 - k) + 1;
      var x := 10 * num + Pow10(k);
      (x < 0 <==> t < 0) && (if x < 0 then -x else x) == (if t < 0 then -t else t) * Pow10(k)
  {
    assert Pow10(1) == 10;
    assert Pow10(0) == 1;
  }

  /** `toFixed(1)` of a number that is a whole count `t` of tenths writes `t` tenths. */
  lemma ToFixedTenths(x: int, k: nat, t: nat)
    requires (if x < 0 then -x else x) == t * Pow10(k)
    ensures ToFixed1(Finite(x, k + 1)) == FormatTenths(x < 0, t)
  {
    RoundExact(t, k);
  }

  lemma MajorOfOneAndAHalf(x: JsNumber)
    requires OrZero(x) == Finite(15, 1)
    ensures NextMajor(x) == "2.0"
  {
    MajorVersionText(x, 15, 1);
    FloorOfOneAndAHalf();
    assert NatToString(20) == "20";
  }

  lemma FloorOfOneAndAHalf()
    ensures Floor(15, 1) == 1
  {
    assert DivPow10(15, 1) == 1;
  }

  /** A fractional version's major revision drops the fraction: `"1.5"` gives `"2.0"`. */
  lemma MajorOfFraction()
    ensures MajorVersion("1.5") == "2.0"
  {
    ParseOnePointFive();
    MajorOfOneAndAHalf(ParseFloat("1.5"));
  }

  lemma MinorOfOne(x: JsNumber)
    requires OrZero(x) == Finite(10, 1)
    ensures NextMinor(x) == "1.1"
  {
    MinorVersionText(x, 10, 1);
    assert Pow10(0) == 1;
    assert NatToString(11) == "11";
  }

  /** A minor revision of `"1.0"` is `"1.1"`. */
  lemma MinorOfWhole()
    ensures MinorVersion("1.0") == "1.1"
  {
    ParseOnePointZero();
    MinorOfOne(ParseFloat("1.0"));
  }

  // ---------------------------------------------------------------- the revise button's label

  /** The label of the editor's revise button as written: `(parseFloat(v) + 1).toFixed(1)`,
      with neither the `|| 0` nor the `Math.floor` of the revision rule. */
  function ReviseLabelAsWritten(v: string): string {
    ReviseLabelOf(ParseFloat(v))
  }

  /** The label's rule applied to the number read from the version. */
  function ReviseLabelOf(x: JsNumber): string {
    ToFixed1(AddOne(x))
  }

  /** On a whole-numbered version the label shows the version the revision gets. */
  lemma LabelAgreesOnWholeVersions(f: int, k: nat)
    ensures ReviseLabelOf(Finite(f * Pow10(k), k)) == NextMajor(Finite(f * Pow10(k), k))
  {
    MajorOfWhole(f * Pow10(k), k, f);
    LabelOfWhole(f * Pow10(k), k, f);
  }


  lemma MajorOfWhole(num: int, k: nat, f: int)
    requires num == f * Pow10(k)
    ensures NextMajor(Finite(num, k)) == ToFixed1(Finite(f + 1, 0))
  {
    DivPow10OfMultiple(f, k, k);
    assert Pow10(0) == 1;
    if num == 0 {
      assert f == DivPow10(0, k) == 0;
    }
  }

  lemma LabelOfWhole(num: int, k: nat, f: int)
    requires num == f * Pow10(k)
    ensures ReviseLabelOf(Finite(num, k)) == ToFixed1(Finite(f + 1, 0))
  {
    var p := Pow10(k);
    assert AddOne(Finite(num, k)) == Finite(num + p, k);
    assert num + p == (f + 1) * p;
    ToFixedOfWhole(num + p, k, f + 1);
  }


  /** `toFixed(1)` of `g * 10^k / 10^k` writes what it writes for the whole number `g`. */
  lemma ToFixedOfWhole(x: int, k: nat, g: int)
    requires x == g * Pow10(k)
    ensures ToFixed1(Finite(x, k)) == ToFixed1(Finite(g, 0))
  {
    var a: nat := if g < 0 then -g else g;
    SignOfProduct(g, Pow10(k));
    RoundWhole(a, k);
    ToFixedWhole(g);
  }


  lemma SignOfProduct(g: int, p: int)
    requires p > 0
    ensures (g * p < 0 <==> g < 0)
    ensures (if g * p < 0 then -(g * p) else g * p) == (if g < 0 then -g else g) * p
  {
    if g < 0 {
      MulMono(-g, 1, p);
      assert -(g * p) == (-g) * p;
    } else {
      MulNonneg(g, p);
    }
  }

  /** A whole number `a` is `10 * a` tenths. */
  lemma RoundWhole(a: nat, k: nat)
    ensures RoundTenths(a * Pow10(k), k) == 10 * a
  {
    MulNonneg(a, Pow10(k));
    if k >= 2 {
      DivPow10OfMultiple(a, k, k - 2);
      assert Pow10(2) == 100;
    } else if k == 1 {
      assert Pow10(1) == 10;
    }
  }

  /** The label reads `NaN` for the seed document's version `"A.0"`, whose revision is `"1.0"`. */
  lemma LabelOfNonNumber()
    ensures ReviseLabelAsWritten("A.0") == "NaN"
    ensures MajorVersion("A.0") == "1.0"
  {
    MajorOfNonNumber();
  }

  lemma LabelOfOneAndAHalf()
    ensures ReviseLabelOf(Finite(15, 1)) == "2.5"
  {
    assert Pow10(1) == 10;
    assert AddOne(Finite(15, 1)) == Finite(25, 1);
    assert NatToString(25) == "25";
  }

  /** The label reads `"2.5"` for version `"1.5"`, whose revision is `"2.0"`. */
  lemma LabelOfFraction()
    ensures ReviseLabelAsWritten("1.5") == "2.5"
    ensures MajorVersion("1.5") == "2.0"
  {
    ParseOnePointFive();
    LabelOfOneAndAHalf();
    MajorOfFraction();
  }
}
