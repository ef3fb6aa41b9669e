/** modp_numtoa.c: numbers written backwards into a buffer, then reversed in place. */
module NumToA {
  import opened JsonValue
  import opened Lexemes
  import opened Texts

  // ---------- rounding ----------

  /** A value as modp_dtoa is about to write it. */
  datatype Parts = Parts(neg: bool, whole: nat, frac: nat)

  /** The value is exactly half way above an all-nines fraction. */
  predicate TieAtNines(value: real, prec: nat) {
    var v := Abs(value);
    prec >= 1 && Scaled(v, prec) == Pow10(prec) as real - 0.5
  }

  function Times(x: real, p: nat): real { x * p as real }

  lemma TimesBounds(x: real, p: nat)
    requires 0.0 <= x < 1.0 && p > 0
    ensures 0.0 <= Times(x, p) < p as real
  {
  }

  /** The fraction of a non-negative value in units of 10^-prec. */
  function Scaled(v: real, prec: nat): (r: real)
    requires v >= 0.0
    ensures 0.0 <= r < Pow10(prec) as real
  {
    TimesBounds(v - v.Floor as real, Pow10(prec));
    Times(v - v.Floor as real, Pow10(prec))
  }

  /** Sign, whole part and fraction after rounding. */
  function Round(value: real, prec: nat): (p: Parts)
    ensures p.neg == (value < 0.0)
  {
    var v := Abs(value);
    var whole: nat := v.Floor;
    var tmp := Scaled(v, prec);
    var frac: nat := tmp.Floor;
    var diff := tmp - frac as real;
    var up := diff > 0.5 && frac + 1 >= Pow10(prec);
    var whole1 := if up then whole + 1 else whole;
    var tie := diff == 0.5 && (frac == 0 || frac % 2 == 1);
    var frac1 := if up then 0 else if diff > 0.5 || tie then frac + 1 else frac;
    if prec == 0 then
      var rest := v - whole1 as real;
      Parts(value < 0.0, if rest > 0.5 || (rest == 0.5 && whole1 % 2 == 1) then whole1 + 1 else whole1, 0)
    else Parts(value < 0.0, whole1, frac1)
  }

  /** The digits of the fraction: at least prec of them. */
  function FracText(frac: nat, prec: nat): (s: string)
    ensures AllDigits(s) && |s| >= prec
  {
    var d := Numeral(frac);
    if |d| >= prec then d else Zeros(prec - |d|) + d
  }

  function Zeros(k: nat): (s: string)
    ensures |s| == k && AllDigits(s)
  {
    seq(k, _ => '0')
  }

  function PartsText(p: Parts, prec: nat): string {
    (if p.neg then "-" else "") + Numeral(p.whole) + (if prec == 0 then "" else "." + FracText(p.frac, prec))
  }

  // ---------- what the text denotes ----------

  lemma {:induction false} NumeralPadded(n: nat, k: nat)
    requires n < Pow10(k) && k >= 1
    ensures |Numeral(n)| <= k && Zeros(k - |Numeral(n)|) + Numeral(n) == Padded(n, k)
    decreases k
  {
    if n < 10 {
      PaddedZero(k - 1);
      assert Padded(n, k) == Padded(0, k - 1) + [DigitChar(n)];
    } else {
      NumeralPadded(n / 10, k - 1);
      assert Zeros(k - |Numeral(n)|) + Numeral(n) == Zeros(k - |Numeral(n)|) + Numeral(n / 10) + [DigitChar(n % 10)];
    }
  }

  lemma {:induction false} PaddedZero(k: nat)
    ensures Padded(0, k) == Zeros(k)
  {
    if k > 0 {
      PaddedZero(k - 1);
      assert Zeros(k) == Zeros(k - 1) + ['0'];
    }
  }

  /** A fraction below 10^prec is printed with exactly prec digits that denote it. */
  lemma {:induction false} FracDigits(frac: nat, prec: nat)
    requires prec >= 1 && frac < Pow10(prec)
    ensures |FracText(frac, prec)| == prec && NatOf(FracText(frac, prec)) == frac
  {
    NumeralPadded(frac, prec);
    NatOfPadded(frac, prec);
    SmallMod(frac, Pow10(prec));
    assert Zeros(0) + Numeral(frac) == Numeral(frac);
  }

  lemma SmallMod(a: nat, m: nat)
    requires a < m
    ensures a % m == a
  {
  }

  /** The number written: whole part and fraction digits, with the sign. */
  function Denoted(p: Parts, prec: nat): real {
    var f := FracText(p.frac, prec);
    var a := p.whole as real + (if prec == 0 then 0.0 else Fraction(f));
    if p.neg then -a else a
  }

  /** The text is read back as the number it denotes. */
  lemma TextDenotes(p: Parts, prec: nat)
    ensures ScanDouble(PartsText(p, prec)) == Some(Denoted(p, prec))
  {
    hide FracText, NatOf, Fraction, Numeral, ScanDouble, ScanMantissa;
    var w, f := Numeral(p.whole), FracText(p.frac, prec);
    var r := if prec == 0 then w else w + "." + f;
    assert r[0] == w[0];
    NatOfNumeral(p.whole);
    if prec > 0 {
      ScanPointed(w, f);
    } else {
      ScanWhole(w);
    }
    ScanSigned(p.neg, r, p.whole as real + (if prec == 0 then 0.0 else Fraction(f)));
    assert PartsText(p, prec) == (if p.neg then "-" else "") + r;
  }

  // ---------- the error bound ----------

  lemma Quotient(a: real, b: real, p: real)
    requires p > 0.0
    ensures (a / p - b / p) * p == a - b
    ensures a / p * p == a
  {
  }

  lemma HalfUnit(e: real, p: nat)
    requires p > 0
    ensures Abs(e) <= 0.5 / p as real <==> -0.5 <= Times(e, p) <= 0.5
  {
    HalfUnitReal(e, p as real);
  }

  lemma HalfUnitReal(e: real, p: real)
    requires p > 0.0
    ensures Abs(e) <= 0.5 / p <==> -0.5 <= e * p <= 0.5
  {
    var u := 0.5 / p;
    assert u * p == 0.5;
    ScaleOrder(e, u, p);
    ScaleOrder(-u, e, p);
    assert (-u) * p == -0.5;
  }

  lemma ScaleOrder(a: real, b: real, p: real)
    requires p > 0.0
    ensures a <= b <==> a * p <= b * p
  {
    assert (b - a) * p == b * p - a * p;
  }

  /** The rounding error in units of 10^-prec, when no tie at all nines is involved. */
  lemma {:induction false} RoundingError(value: real, prec: nat)
    requires 1 <= prec && !TieAtNines(value, prec)
    ensures var p := Round(value, prec);
            && p.frac < Pow10(prec)
            && -0.5 <= (p.whole - Abs(value).Floor) as real * Pow10(prec) as real
                + p.frac as real - Scaled(Abs(value), prec) <= 0.5
  {
    hide Scaled;
    var tmp := Scaled(Abs(value), prec);
    var frac := tmp.Floor;
    assert frac < Pow10(prec);
    if frac + 1 == Pow10(prec) {
      NinesOdd(prec);
    }
  }

  lemma {:induction false} NinesOdd(prec: nat)
    requires prec >= 1
    ensures (Pow10(prec) - 1) % 2 == 1
  {
    assert Pow10(prec) - 1 == 2 * (5 * Pow10(prec - 1) - 1) + 1;
  }

  lemma {:induction false} NumeralOfPower(k: nat)
    ensures |Numeral(Pow10(k))| == k + 1
  {
    if k > 0 {
      NumeralOfPower(k - 1);
      assert Pow10(k) / 10 == Pow10(k - 1);
    }
  }

  /** A tie at all nines is written with one digit too many: a fraction of one tenth. */
  lemma {:induction false} TieText(value: real, prec: nat)
    requires TieAtNines(value, prec)
    ensures var p := Round(value, prec);
            && p.frac == Pow10(prec) && p.whole == Abs(value).Floor
            && |FracText(p.frac, prec)| == prec + 1 && Fraction(FracText(p.frac, prec)) == 0.1
  {
    NinesOdd(prec);
    var p := Round(value, prec);
    assert Scaled(Abs(value), prec).Floor == Pow10(prec) - 1;
    NumeralOfPower(prec);
    NatOfNumeral(Pow10(prec));
    Tenth(Pow10(prec) as real);
  }

  lemma Tenth(p: real)
    requires p > 0.0
    ensures p / (10.0 * p) == 0.1
  {
  }

  /** The distance of a value from a decimal, in units of p. */
  lemma UnitsApart(v: real, whole: int, f: real, p: nat, frac: real)
    requires p > 0 && f * p as real == frac
    ensures Times(whole as real + f - v, p) ==
            (whole - v.Floor) as real * p as real + frac - Times(v - v.Floor as real, p)
  {
    var x, q := v - v.Floor as real, p as real;
    assert whole as real + f - v == (whole - v.Floor) as real + f - x;
    Distribute((whole - v.Floor) as real, f, x, q);
  }

  lemma Distribute(a: real, b: real, c: real, q: real)
    ensures (a + b - c) * q == a * q + b * q - c * q
  {
  }

  /** What is written is within half a unit of the last place of the value. */
  predicate WithinHalfUnit(value: real, prec: nat) {
    Abs(Denoted(Round(value, prec), prec) - value) <= 0.5 / Pow10(prec) as real
  }

  lemma {:induction false} Unsigned(value: real, prec: nat)
    requires prec >= 1
    ensures WithinHalfUnit(value, prec) <==> -0.5 <= Times(Error(value, prec), Pow10(prec)) <= 0.5
  {
    hide Round, Fraction, FracText;
    var p := Round(value, prec);
    HalfUnit(Error(value, prec), Pow10(prec));
    SameDistance(p.whole as real + Fraction(FracText(p.frac, prec)), value, p.neg);
  }

  lemma SameDistance(a: real, value: real, neg: bool)
    requires neg == (value < 0.0)
    ensures Abs((if neg then -a else a) - value) == Abs(a - Abs(value))
  {
  }

  /** modp_dtoa rounds correctly exactly when the value is no tie above an all-nines fraction. */
  lemma CorrectlyRoundedIff(value: real, prec: nat)
    ensures WithinHalfUnit(value, prec) <==> !TieAtNines(value, prec)
  {
    if prec > 0 {
      hide WithinHalfUnit;
      Unsigned(value, prec);
      if TieAtNines(value, prec) {
        TieIsFar(value, prec);
      } else {
        RoundedIsNear(value, prec);
      }
    }
  }

  /** The rounding error of the written digits. */
  function Error(value: real, prec: nat): real
    requires prec >= 1
  {
    var p := Round(value, prec);
    p.whole as real + Fraction(FracText(p.frac, prec)) - Abs(value)
  }

  lemma {:induction false} TieIsFar(value: real, prec: nat)
    requires TieAtNines(value, prec)
    ensures Times(Error(value, prec), Pow10(prec)) < -0.5
  {
    hide Round, FracText, Fraction, Scaled, Times;
    var v, ten := Abs(value), Pow10(prec);
    TieText(value, prec);
    ScaledIs(value, prec);
    assert Pow10(prec) == 10 * Pow10(prec - 1);
    TieUnits(v, ten);
    var e := v.Floor as real + 0.1 - v;
    assert Error(value, prec) == e;
  }

  lemma TieUnits(v: real, p: nat)
    requires p >= 10 && Times(v - v.Floor as real, p) == p as real - 0.5
    ensures Times(v.Floor as real + 0.1 - v, p) < -0.5
  {
    UnitsApart(v, v.Floor, 0.1, p, 0.1 * p as real);
    assert (v.Floor - v.Floor) as real * p as real == 0.0;
  }

  lemma {:induction false} RoundedIsNear(value: real, prec: nat)
    requires prec >= 1 && !TieAtNines(value, prec)
    ensures -0.5 <= Times(Error(value, prec), Pow10(prec)) <= 0.5
  {
    hide Round, FracText, Fraction, Scaled, TieAtNines;
    var p, ten := Round(value, prec), Pow10(prec);
    RoundingError(value, prec);
    FracDigits(p.frac, prec);
    FractionTimes(FracText(p.frac, prec));
    UnitsApart(Abs(value), p.whole, Fraction(FracText(p.frac, prec)), ten, p.frac as real);
    ScaledIs(value, prec);
  }

  lemma {:induction false} ScaledIs(value: real, prec: nat)
    ensures Scaled(Abs(value), prec) == Times(Abs(value) - Abs(value).Floor as real, Pow10(prec))
  {
  }

  lemma {:induction false} FractionTimes(f: string)
    requires AllDigits(f)
    ensures Fraction(f) * Pow10(|f|) as real == NatOf(f) as real
  {
    Quotient(NatOf(f) as real, 0.0, Pow10(|f|) as real);
  }

  /** Such a tie: 0.95 with one digit is written as 0.10. */
  lemma TieExample()
    ensures TieAtNines(0.95, 1) && PartsText(Round(0.95, 1), 1) == "0.10"
  {
    assert Pow10(1) == 10;
    var p := Round(0.95, 1);
    assert p == Parts(false, 0, 10);
    assert Numeral(0) == "0" && Numeral(10) == "10";
    assert FracText(10, 1) == "10";
  }

  /** The parts of a text: at most ten digits, and as many fraction digits as asked for but for the tie. */
  lemma {:induction false} RoundedFits(value: real, prec: nat)
    requires Abs(value) <= 2147483647.0 && prec <= 9
    ensures var p := Round(value, prec);
            && |Numeral(p.whole)| <= 10
            && (prec > 0 ==> |FracText(p.frac, prec)| == prec + if TieAtNines(value, prec) then 1 else 0)
  {
    var p := Round(value, prec);
    AtMostTen(p.whole);
    if prec > 0 {
      if TieAtNines(value, prec) {
        TieText(value, prec);
      } else {
        RoundingError(value, prec);
        FracDigits(p.frac, prec);
      }
    }
  }

  /** The longest text: a sign, ten digits, the point and nine digits; a tie at all nines has one more. */
  lemma {:induction false} TextLength(value: real, prec: nat)
    requires Abs(value) <= 2147483647.0 && prec <= 9
    ensures |PartsText(Round(value, prec), prec)| <= 12 + prec + if TieAtNines(value, prec) then 1 else 0
  {
    hide Round, Numeral, FracText, TieAtNines;
    RoundedFits(value, prec);
  }

  // ---------- what the text says ----------

  /** The reference: the nearest whole number of units of the last place. A tie goes up from an odd number and,
      which the code calls strange, from an all-zero fraction. */
  function Units(value: real, prec: nat): nat {
    var y := Times(Abs(value), Pow10(prec));
    var f: nat := y.Floor;
    if y - f as real < 0.5 then f
    else if y - f as real > 0.5 then f + 1
    else if f % 2 == 1 || (prec > 0 && f % Pow10(prec) == 0) then f + 1 else f
  }

  /** Whole part and fraction, counted in units. */
  lemma SplitUnits(v: real, p: nat)
    requires v >= 0.0 && p > 0
    ensures var x := Times(v - v.Floor as real, p);
            && Times(v, p) == (v.Floor * p) as real + x && Times(v, p).Floor == v.Floor * p + x.Floor
            && 0 <= x.Floor < p && Times(v, p) - Times(v, p).Floor as real == x - x.Floor as real
  {
    TimesBounds(v - v.Floor as real, p);
    Distribute(v, -(v.Floor as real), 0.0, p as real);
    WholeTimes(v.Floor, p);
  }

  lemma WholeTimes(a: int, b: int)
    ensures a as real * b as real == (a * b) as real
  {
  }

  /** An even number of units to the whole does not change parity, and the remainder is the fraction. */
  lemma UnitsApartFrom(whole: nat, f: nat, prec: nat)
    requires prec > 0 && f < Pow10(prec)
    ensures (whole * Pow10(prec) + f) % Pow10(prec) == f && (whole * Pow10(prec) + f) % 2 == f % 2
  {
    assert Pow10(prec) == 2 * (5 * Pow10(prec - 1));
    EvenUnits(whole, f, 5 * Pow10(prec - 1));
  }

  lemma EvenUnits(whole: nat, f: nat, half: nat)
    requires f < 2 * half
    ensures (whole * (2 * half) + f) % (2 * half) == f && (whole * (2 * half) + f) % 2 == f % 2
  {
    ModUnique(whole * (2 * half) + f, 2 * half, whole, f);
    assert whole * (2 * half) == 2 * (whole * half);
  }

  /** But for ties at all nines the code rounds as the reference does. */
  lemma {:induction false} RoundIsUnits(value: real, prec: nat)
    requires !TieAtNines(value, prec)
    ensures var p := Round(value, prec);
            p.whole * Pow10(prec) + p.frac == Units(value, prec) && (prec > 0 ==> p.frac < Pow10(prec))
  {
    if prec == 0 {
      WholeIsUnits(value);
    } else {
      var v, ten := Abs(value), Pow10(prec);
      SplitUnits(v, ten);
      ScaledIs(value, prec);
      RoundingError(value, prec);
      UnitsApartFrom(v.Floor, Scaled(v, prec).Floor, prec);
      NinesOdd(prec);
      hide Times, Scaled;
      assert (v.Floor + 1) * ten == v.Floor * ten + ten;
    }
  }

  lemma {:induction false} WholeIsUnits(value: real)
    ensures Pow10(0) == 1 && Round(value, 0).whole == Units(value, 0) && Round(value, 0).frac == 0
  {
    SplitUnits(Abs(value), 1);
  }

  /** A text read as a number, within half a unit of the last place of the value. */
  ghost predicate ReadsNear(t: string, value: real, prec: nat) {
    ScanDouble(t).Some? && Abs(ScanDouble(t).value - value) <= 0.5 / Pow10(prec) as real
  }

  /** A text with so many digits behind its point, or without a point. */
  ghost predicate PointForm(t: string, neg: bool, digits: nat) {
    var start := if neg then 1 else 0;
    && (neg ==> t != "" && t[0] == '-')
    && if digits == 0 then |t| > start && forall i :: start <= i < |t| ==> IsDigit(t[i])
       else |t| > start + 1 + digits && t[|t| - 1 - digits] == '.'
            && forall i :: start <= i < |t| && i != |t| - 1 - digits ==> IsDigit(t[i])
  }

  /** What is written is read back as the reference, unless it is a tie at all nines. */
  lemma {:induction false} ReadsAsUnits(value: real, prec: nat)
    requires !TieAtNines(value, prec)
    ensures var x := Units(value, prec) as real / Pow10(prec) as real;
            ScanDouble(PartsText(Round(value, prec), prec)) == Some(if value < 0.0 then -x else x)
  {
    hide Round, Units, Numeral, FracText, TieAtNines, ScanDouble, PartsText;
    var p, ten := Round(value, prec), Pow10(prec);
    TextDenotes(p, prec);
    RoundIsUnits(value, prec);
    WholeTimes(p.whole, ten);
    if prec > 0 {
      FracDigits(p.frac, prec);
      SumOfParts(p.whole, p.frac, ten);
    } else {
      NoFraction(value);
    }
  }

  lemma NoFraction(value: real)
    ensures Round(value, 0).frac == 0 && Pow10(0) == 1
  {
  }

  lemma SumOfParts(whole: nat, frac: nat, p: nat)
    requires p > 0
    ensures whole as real + frac as real / p as real == (whole * p + frac) as real / p as real
  {
    WholeTimes(whole, p);
    SameProduct(whole as real + frac as real / p as real, (whole * p + frac) as real / p as real, p as real);
  }

  lemma SameProduct(x: real, y: real, p: real)
    requires p > 0.0 && x * p == y * p
    ensures x == y
  {
    assert (x - y) * p == 0.0;
  }

  lemma {:induction false} ReadsNearIff(value: real, prec: nat)
    ensures ReadsNear(PartsText(Round(value, prec), prec), value, prec) <==> !TieAtNines(value, prec)
  {
    hide Round, Numeral, FracText, TieAtNines, ScanDouble, PartsText, Denoted;
    TextDenotes(Round(value, prec), prec);
    CorrectlyRoundedIff(value, prec);
  }

  lemma {:induction false} HasPointForm(value: real, prec: nat)
    requires Abs(value) <= 2147483647.0 && prec <= 9
    ensures PointForm(PartsText(Round(value, prec), prec), value < 0.0,
                      if prec > 0 && TieAtNines(value, prec) then prec + 1 else prec)
  {
    hide Round, Numeral, FracText, TieAtNines;
    RoundedFits(value, prec);
    var p := Round(value, prec);
    var w, f, t := Numeral(p.whole), FracText(p.frac, prec), PartsText(p, prec);
    var start := if p.neg then 1 else 0;
    assert forall i :: start <= i < start + |w| ==> t[i] == w[i - start];
    if prec > 0 {
      assert t[start + |w|] == '.';
      assert forall i :: start + |w| < i < |t| ==> t[i] == f[i - start - |w| - 1];
    }
  }

  // ---------- the code ----------

  /** Outside [begin, end] the stretch from lo to hi is turned, the rest is as it was. */
  ghost predicate HalfTurned(s: string, r: string, lo: int, hi: int, begin: int, end: int) {
    && |r| == |s| && 0 <= lo <= begin <= end + 1 <= hi <= |s| && begin - lo == hi - 1 - end
    && forall x :: 0 <= x < |s| ==> r[x] == s[if lo <= x < begin || end < x < hi then lo + hi - 1 - x else x]
  }

  lemma TurnStep(s: string, r: string, lo: int, hi: int, begin: int, end: int)
    requires HalfTurned(s, r, lo, hi, begin, end) && begin < end
    ensures HalfTurned(s, r[end := r[begin]][begin := r[end]], lo, hi, begin + 1, end - 1)
  {
  }

  lemma Turned(s: string, r: string, lo: int, hi: int, begin: int, end: int)
    requires HalfTurned(s, r, lo, hi, begin, end) && end <= begin
    ensures r[lo..hi] == Reverse(s[lo..hi]) && r[..lo] == s[..lo] && r[hi..] == s[hi..]
  {
  }

  /** strreverse: turn a[lo..hi] around in place. */
  method StrReverse(a: array<char>, lo: nat, hi: nat)
    requires lo <= hi <= a.Length
    modifies a
    ensures a[lo..hi] == Reverse(old(a[lo..hi]))
    ensures a[..lo] == old(a[..lo]) && a[hi..] == old(a[hi..])
  {
    ghost var was := a[..];
    var begin, end: int := lo, hi - 1;
    while end > begin
      invariant HalfTurned(was, a[..], lo, hi, begin, end)
      decreases end - begin
    {
      ghost var r := a[..];
      TurnStep(was, r, lo, hi, begin, end);
      a[end], a[begin] := a[begin], a[end];
      assert a[..] == r[end := r[begin]][begin := r[end]];
      begin, end := begin + 1, end - 1;
    }
    Turned(was, a[..], lo, hi, begin, end);
    assert was[lo..hi] == old(a[lo..hi]) && was[..lo] == old(a[..lo]) && was[hi..] == old(a[hi..]);
  }

  /** The characters a digit loop writes: C's / and % truncate, so a negative number gets characters below '0'. */
  function LoopText(v: int): string
    decreases if v < 0 then -v else v
  {
    if -10 < v < 10 then [(48 + v) as char] else LoopText(Quotient10(v)) + [(48 + Remainder10(v)) as char]
  }

  function Quotient10(v: int): int { if v < 0 then -(-v / 10) else v / 10 }

  function Remainder10(v: int): (r: int)
    ensures -10 < r < 10
  {
    if v < 0 then -(-v % 10) else v % 10
  }

  lemma {:induction false} LoopNumeral(v: nat)
    ensures LoopText(v) == Numeral(v)
  {
    if v >= 10 {
      LoopNumeral(v / 10);
    }
  }

  /** The digit loops: from position pos on, the last digit first. */
  method WriteDigits(value: int, str: array<char>, pos: nat) returns (end: nat)
    requires pos + |LoopText(value)| <= str.Length
    modifies str
    ensures end == pos + |LoopText(value)| && str[pos..end] == Reverse(LoopText(value))
    ensures str[..pos] == old(str[..pos])
  {
    hide LoopText, Reverse, Quotient10, Remainder10;
    end := pos;
    var v, more := value, true;
    while more
      invariant pos <= end && end + (if more then |LoopText(v)| else 0) == pos + |LoopText(value)|
      invariant str[pos..end] + (if more then Reverse(LoopText(v)) else "") == Reverse(LoopText(value))
      invariant str[..pos] == old(str[..pos])
      decreases if v < 0 then -v else v, more
    {
      ReverseDigits(v);
      Smaller(v);
      ghost var was := str[pos..end];
      str[end] := (48 + Remainder10(v)) as char;
      end := end + 1;
      assert str[pos..end] == was + [(48 + Remainder10(v)) as char];
      v := Quotient10(v);
      more := v != 0;
    }
  }

  lemma Smaller(v: int)
    ensures Quotient10(v) == 0 <==> -10 < v < 10
    ensures v > 0 ==> 0 <= Quotient10(v) < v
    ensures v < 0 ==> v < Quotient10(v) <= 0
  {
  }

  lemma {:induction false} ReverseDigits(v: int)
    ensures |LoopText(v)| == 1 + (if -10 < v < 10 then 0 else |LoopText(Quotient10(v))|)
    ensures Reverse(LoopText(v)) ==
            [(48 + Remainder10(v)) as char] + (if -10 < v < 10 then "" else Reverse(LoopText(Quotient10(v))))
  {
    if !(-10 < v < 10) {
      ReverseAppend(LoopText(Quotient10(v)), [(48 + Remainder10(v)) as char]);
    }
  }

  /** The negation of an int32_t, wrapping around. */
  function Negated(v: Int32): Int32 {
    if v == -0x8000_0000 then v else -v
  }

  /** modp_itoa10. The text is the one printf("%d") gives if and only if the value can be negated. */
  method Itoa10(value: Int32, str: array<char>) returns (n: nat)
    requires str.Length >= 16
    modifies str
    ensures n < str.Length && str[n] == NUL
    ensures str[..n] == if value == -0x8000_0000 then "-" + Mirrored(Numeral(0 - value)) else IntText(value)
    ensures str[..n] == IntText(value) <==> value > -0x8000_0000
  {
    hide LoopText, Numeral, Mirrored;
    var v: int := if value < 0 then Negated(value) else value;
    if v >= 0 {
      LoopNumeral(v);
      AtMostTen(v);
    } else {
      LoopMirrored(-v);
      MirroredDiffers(-v);
      AtMostTen(-v);
    }
    var end := WriteDigits(v, str, 0);
    assert str[..end] == str[0..end];
    n := TurnAround(value < 0, str, end, LoopText(v));
  }

  /** The digits as they come out when each is negative: as far below '0' as they should be above it. */
  function Mirrored(s: string): (r: string)
    requires AllDigits(s)
    ensures |r| == |s| && forall i :: 0 <= i < |s| ==> r[i] as int - 48 == -(DigitValue(s[i]) as int)
  {
    seq(|s|, i requires 0 <= i < |s| => (48 - DigitValue(s[i])) as char)
  }

  lemma {:induction false} LoopMirrored(v: nat)
    requires v > 0
    ensures LoopText(0 - v) == Mirrored(Numeral(v))
  {
    if v >= 10 {
      LoopMirrored(v / 10);
    }
  }

  /** That shows unless the last digit is zero. */
  lemma {:induction false} MirroredDiffers(v: nat)
    requires v % 10 != 0
    ensures "-" + Mirrored(Numeral(v)) != "-" + Numeral(v)
  {
    var d := Numeral(v);
    assert d[|d| - 1] == DigitChar(v % 10);
    hide Numeral, Mirrored;
    assert ("-" + Mirrored(d))[|d|] != ("-" + d)[|d|];
  }

  lemma {:induction false} AtMostTen(n: nat)
    requires n < 0x1_0000_0000
    ensures |Numeral(n)| <= 10
  {
    assert Pow10(10) == 10000000000 by { assert Pow10(5) == 100000; }
    NumeralPadded(n, 10);
  }

  /** modp_uitoa10 */
  method Uitoa10(value: nat, str: array<char>) returns (n: nat)
    requires value < 0x1_0000_0000 && str.Length >= 16
    modifies str
    ensures n < str.Length && str[..n] == Numeral(value) && str[n] == NUL
  {
    hide LoopText, Numeral;
    LoopNumeral(value);
    AtMostTen(value);
    var end := WriteDigits(value, str, 0);
    assert str[..end] == str[0..end];
    n := TurnAround(false, str, end, Numeral(value));
  }

  /** The fraction part of modp_dtoa: digits, zeros up to the precision, the point. */
  method WriteFraction(frac: nat, prec: nat, str: array<char>) returns (end: nat)
    requires |FracText(frac, prec)| < str.Length
    modifies str
    ensures end == |FracText(frac, prec)| + 1 && str[..end] == Reverse("." + FracText(frac, prec))
  {
    hide LoopText, Numeral, FracText, Reverse;
    ghost var d := Numeral(frac);
    LoopNumeral(frac);
    FracLength(frac, prec);
    end := WriteDigits(frac, str, 0);
    assert str[..end] == Reverse(d) + Zeros(0);
    var count: int := prec - end;
    while count > 0
      invariant |d| <= end <= |FracText(frac, prec)| && end + (if count > 0 then count else 0) == |FracText(frac, prec)|
      invariant str[..end] == Reverse(d) + Zeros(end - |d|)
      decreases count
    {
      str[end] := '0';
      assert Zeros(end + 1 - |d|) == Zeros(end - |d|) + ['0'];
      end := end + 1;
      count := count - 1;
    }
    FracReversed(frac, prec);
    str[end] := '.';
    end := end + 1;
  }

  lemma {:induction false} FracLength(frac: nat, prec: nat)
    ensures var d := |Numeral(frac)|;
            |FracText(frac, prec)| == if d >= prec then d else prec
  {
  }

  lemma {:induction false} FracReversed(frac: nat, prec: nat)
    ensures var d := Numeral(frac);
            Reverse("." + FracText(frac, prec)) == Reverse(d) + Zeros(|FracText(frac, prec)| - |d|) + ['.']
  {
    hide Numeral;
    var d := Numeral(frac);
    var z := Zeros(|FracText(frac, prec)| - |d|);
    assert FracText(frac, prec) == z + d;
    ReverseAppend(".", z + d);
    ReverseAppend(z, d);
    assert Reverse(z) == z;
  }

  /** The first half of modp_dtoa: sign, whole part and fraction, rounded. */
  method RoundValue(value: real, prec: nat) returns (neg: bool, whole: nat, frac: nat)
    ensures Parts(neg, whole, if prec == 0 then 0 else frac) == Round(value, prec)
  {
    neg := value < 0.0;
    var v := if neg then -value else value;
    whole := v.Floor;
    var tmp := Scaled(v, prec);
    frac := tmp.Floor;
    var diff := tmp - frac as real;
    if diff > 0.5 {
      frac := frac + 1;
      if frac >= Pow10(prec) {
        frac := 0;
        whole := whole + 1;
      }
    } else if diff == 0.5 && (frac == 0 || frac % 2 == 1) {
      frac := frac + 1;
    }
    if prec == 0 {
      diff := v - whole as real;
      if diff > 0.5 {
        whole := whole + 1;
      } else if diff == 0.5 && whole % 2 == 1 {
        whole := whole + 1;
      }
    }
  }

  /** The sign, the terminator and the reversal at the end. */
  method TurnAround(neg: bool, str: array<char>, end0: nat, ghost body: string) returns (end: nat)
    requires end0 + 1 < str.Length && str[..end0] == Reverse(body)
    modifies str
    ensures end < str.Length && str[end] == NUL && str[..end] == (if neg then "-" else "") + body
  {
    end := end0;
    if neg {
      str[end] := '-';
      ReverseAppend("-", body);
      assert str[..end + 1] == Reverse(body) + "-";
      end := end + 1;
    }
    str[end] := NUL;
    ghost var text := (if neg then "-" else "") + body;
    assert str[..end] == Reverse(text);
    StrReverse(str, 0, end);
    ReverseTwice(text);
    assert str[..end] == str[0..end];
    assert str[end] == str[end..][0];
  }

  /** modp_dtoa; `exponential` is the text sprintf("%e") gives, for values too large to be written digit
      by digit. */
  method Dtoa(value: real, str: array<char>, precision: int, exponential: real -> string) returns (n: nat)
    requires str.Length >= 32 && (Abs(value) > 2147483647.0 ==> |exponential(value)| < str.Length)
    modifies str
    ensures n < str.Length && str[n] == NUL
    ensures Abs(value) > 2147483647.0 ==> str[..n] == exponential(value)
    ensures Abs(value) <= 2147483647.0 ==>
              var p := if precision < 0 then 0 else if precision > 9 then 9 else precision;
              && str[..n] == PartsText(Round(value, p), p)
              && (ReadsNear(str[..n], value, p) <==> !TieAtNines(value, p))
              && (!TieAtNines(value, p) ==>
                    var x := Units(value, p) as real / Pow10(p) as real;
                    ScanDouble(str[..n]) == Some(if value < 0.0 then -x else x))
              && PointForm(str[..n], value < 0.0, if p > 0 && TieAtNines(value, p) then p + 1 else p)
  {
    hide Round, TieAtNines, ScanDouble, PartsText, Units, ReadsNear, PointForm;
    var prec := precision;
    if prec < 0 {
      prec := 0;
    } else if prec > 9 {
      prec := 9;
    }
    if Abs(value) <= 2147483647.0 {
      ReadsNearIff(value, prec);
      HasPointForm(value, prec);
      if !TieAtNines(value, prec) {
        ReadsAsUnits(value, prec);
      }
    }
    var neg, whole, frac := RoundValue(value, prec);
    if Abs(value) > 2147483647.0 {
      n := CopyText(exponential(value), str);
    } else {
      n := WriteParts(value, str, prec, neg, whole, frac);
    }
  }

  /** sprintf of a given text */
  method CopyText(text: string, str: array<char>) returns (n: nat)
    requires |text| < str.Length
    modifies str
    ensures n == |text| && str[..n] == text && str[n] == NUL
  {
    forall x | 0 <= x < |text| {
      str[x] := text[x];
    }
    n := |text|;
    str[n] := NUL;
  }

  /** The second half of modp_dtoa: the rounded parts, from the last character to the first, then reversed. */
  method WriteParts(value: real, str: array<char>, prec: nat, neg: bool, whole: nat, frac: nat) returns (n: nat)
    requires Abs(value) <= 2147483647.0 && str.Length >= 32 && prec <= 9
    requires Parts(neg, whole, if prec == 0 then 0 else frac) == Round(value, prec)
    modifies str
    ensures n < str.Length && str[n] == NUL && str[..n] == PartsText(Round(value, prec), prec)
  {
    hide LoopText, Round, Numeral, FracText, Reverse, TieAtNines;
    RoundedFits(value, prec);
    ghost var f := if prec == 0 then "" else "." + FracText(frac, prec);
    var end := 0;
    if prec > 0 {
      end := WriteFraction(frac, prec, str);
    }
    assert str[..end] == Reverse(f);
    ghost var w := Numeral(whole);
    LoopNumeral(whole);
    var end1 := WriteDigits(whole, str, end);
    ReverseAppend(w, f);
    assert str[..end1] == str[..end] + str[end..end1];
    n := TurnAround(neg, str, end1, w + f);
    assert Round(value, prec) == Parts(neg, whole, if prec == 0 then 0 else frac);
    PartsTextIs(neg, whole, frac, prec);
  }

  lemma PartsTextIs(neg: bool, whole: nat, frac: nat, prec: nat)
    ensures PartsText(Parts(neg, whole, if prec == 0 then 0 else frac), prec) ==
            (if neg then "-" else "") + (Numeral(whole) + if prec == 0 then "" else "." + FracText(frac, prec))
  {
    hide Numeral, FracText;
  }
}
