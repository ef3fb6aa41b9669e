/** The character classes, escapes and number lexemes shared by the JSON tokener and printer. */
module Lexemes {
  import opened JsonValue

  // ---------- words and characters ----------

  function Lower(c: char): char {
    if 'A' <= c <= 'Z' then ((c as int) + 32) as char else c
  }

  /** strncasecmp(word, s, n) == 0, for n no longer than the lower-case word. */
  predicate SameWord(word: string, s: string, n: int) {
    n <= |word| && n <= |s| && forall i :: 0 <= i < n ==> Lower(s[i]) == word[i]
  }

  /** What strdup keeps of a buffer: everything before the first terminator. */
  function CStr(s: string): (r: CString)
    ensures r <= s && (|r| < |s| ==> s[|r|] == NUL)
  {
    if s == [] || s[0] == NUL then [] else [s[0]] + CStr(s[1..])
  }

  lemma {:induction false} CStrOfCString(s: CString)
    ensures CStr(s) == s
  {
    if s != [] {
      CStrOfCString(s[1..]);
    }
  }

  predicate IsDigit(c: char) { '0' <= c <= '9' }

  predicate IsHexChar(c: char) { IsDigit(c) || 'a' <= c <= 'f' }

  /** The hexdigit macro on the characters the tokener applies it to. */
  function HexDigit(c: char): int
    requires IsHexChar(c) || c == NUL
  {
    if c <= '9' then (c as int) - ('0' as int) else (c as int) - ('a' as int) + 10
  }

  function HexChar(d: nat): (c: char)
    requires d < 16
    ensures IsHexChar(c) && HexDigit(c) == d
  {
    if d < 10 then (d + 48) as char else (d + 87) as char
  }

  /** 1 << ((3 - pos) * 4) */
  function HexWeight(pos: nat): nat
    requires pos < 4
  {
    if pos == 0 then 4096 else if pos == 1 then 256 else if pos == 2 then 16 else 1
  }

  /** The bytes of one character in UTF-8, as its decoder reads them. */
  ghost predicate Decodes(bs: string, u: nat) {
    if u < 0x80 then |bs| == 1 && bs[0] as int == u
    else if u < 0x800 then
      && |bs| == 2 && 0xc0 <= bs[0] as int < 0xe0 && 0x80 <= bs[1] as int < 0xc0
      && (bs[0] as int - 0xc0) * 64 + (bs[1] as int - 0x80) == u
    else
      && |bs| == 3 && 0xe0 <= bs[0] as int < 0xf0 && 0x80 <= bs[1] as int < 0xc0 && 0x80 <= bs[2] as int < 0xc0
      && (bs[0] as int - 0xe0) * 4096 + (bs[1] as int - 0x80) * 64 + (bs[2] as int - 0x80) == u
  }

  /** A number below 2^16 in pieces of six bits. */
  lemma SixBits(u: nat)
    ensures u == 64 * (u / 64) + u % 64 && u / 64 == 64 * (u / 4096) + u / 64 % 64
    ensures u < 0x1_0000 ==> u / 4096 % 32 == u / 4096 < 16
  {
    assert u / 64 / 64 == u / 4096;
  }

  /** The one to three bytes appended for a \u escape; `|` and `&` written as arithmetic. */
  function Utf8(u: nat): (bs: string)
    ensures u < 0x1_0000 ==> Decodes(bs, u)
  {
    SixBits(u);
    if u < 0x80 then [u as char]
    else if u < 0x800 then [(0xc0 + u / 64) as char, (0x80 + u % 64) as char]
    else [(0xe0 + u / 4096 % 32) as char, (0x80 + u / 64 % 64) as char, (0x80 + u % 64) as char]
  }

  predicate IsNumberChar(c: char) {
    IsDigit(c) || c in {'.', '+', '-', 'e', 'E'}
  }

  // ---------- decimal digits ----------

  function Pow10(k: nat): (p: nat)
    ensures p >= 1
  {
    if k == 0 then 1 else 10 * Pow10(k - 1)
  }

  function DigitChar(d: nat): (c: char)
    requires d < 10
    ensures IsDigit(c) && DigitValue(c) == d
  {
    (d + 48) as char
  }

  function DigitValue(c: char): nat
    requires IsDigit(c)
  {
    (c as int) - 48
  }

  ghost predicate AllDigits(s: string) {
    forall i :: 0 <= i < |s| ==> IsDigit(s[i])
  }

  /** The decimal numeral of n, most significant digit first. */
  function Numeral(n: nat): (s: string)
    ensures s != [] && AllDigits(s)
  {
    if n < 10 then [DigitChar(n)] else Numeral(n / 10) + [DigitChar(n % 10)]
  }

  /** The last k decimal digits of n, with leading zeros. */
  function Padded(n: nat, k: nat): (s: string)
    ensures |s| == k && AllDigits(s)
  {
    if k == 0 then [] else Padded(n / 10, k - 1) + [DigitChar(n % 10)]
  }

  function NatOf(s: string): nat
    requires AllDigits(s)
  {
    if s == [] then 0 else 10 * NatOf(s[..|s| - 1]) + DigitValue(s[|s| - 1])
  }

  lemma {:induction false} NatOfNumeral(n: nat)
    ensures NatOf(Numeral(n)) == n
  {
    if n >= 10 {
      NatOfNumeral(n / 10);
      assert Numeral(n)[..|Numeral(n)| - 1] == Numeral(n / 10);
    }
  }

  lemma {:induction false} NatOfPadded(n: nat, k: nat)
    ensures NatOf(Padded(n, k)) == n % Pow10(k)
  {
    if k > 0 {
      NatOfPadded(n / 10, k - 1);
      assert Padded(n, k)[..k - 1] == Padded(n / 10, k - 1);
      DigitSplit(n, Pow10(k - 1));
    }
  }

  lemma DigitSplit(n: nat, p: nat)
    requires p >= 1
    ensures n % (10 * p) == 10 * (n / 10 % p) + n % 10
  {
    var q, r := n / 10 / p, n / 10 % p;
    assert n / 10 == q * p + r;
    assert n == q * (10 * p) + (10 * r + n % 10);
    ModUnique(n, 10 * p, q, 10 * r + n % 10);
  }

  lemma SmallMultiple(k: int, m: int)
    requires m > 0 && -m < k * m < m
    ensures k == 0
  {
  }

  lemma ModUnique(n: int, m: int, q: int, r: int)
    requires m > 0 && 0 <= r < m && n == q * m + r
    ensures n % m == r && n / m == q
  {
    var q', r' := n / m, n % m;
    assert n == q' * m + r';
    assert (q' - q) * m == r - r';
    SmallMultiple(q' - q, m);
  }

  /** The number of leading digits. */
  function DigitSpan(s: string): (n: nat)
    ensures n <= |s| && (forall i :: 0 <= i < n ==> IsDigit(s[i])) && (n < |s| ==> !IsDigit(s[n]))
  {
    if s == [] || !IsDigit(s[0]) then 0 else 1 + DigitSpan(s[1..])
  }

  lemma {:induction false} DigitSpanIs(s: string, n: nat)
    requires n <= |s| && (forall i :: 0 <= i < n ==> IsDigit(s[i])) && (n < |s| ==> !IsDigit(s[n]))
    ensures DigitSpan(s) == n
  {
  }

  // ---------- printf and sscanf of numbers ----------

  /** A numeral has no leading zero but its only digit. */
  lemma {:induction false} NumeralLeads(n: nat)
    ensures |Numeral(n)| == 1 || Numeral(n)[0] != '0'
  {
    if n >= 10 {
      NumeralLeads(n / 10);
    }
  }

  /** printf("%d"). */
  function IntText(i: int): string {
    if i < 0 then "-" + Numeral(-i) else Numeral(i)
  }

  function SignLength(s: string): nat {
    if s != [] && (s[0] == '-' || s[0] == '+') then 1 else 0
  }

  function Signed(s: string, n: int): int {
    if s != [] && s[0] == '-' then -n else n
  }

  /** The number sscanf("%d") matches, before it is stored in an int. */
  function ScanInt(s: string): Option<int> {
    var r := s[SignLength(s)..];
    var n := DigitSpan(r);
    if n == 0 then None else Some(Signed(s, NatOf(r[..n])))
  }

  /** glibc: strtol saturates to 64 bits, the store keeps the low 32. */
  function ToInt32(n: int): (i: Int32)
    ensures -0x8000_0000 <= n < 0x8000_0000 ==> i == n
    ensures -0x8000_0000_0000_0000 <= n < 0x8000_0000_0000_0000 ==> (n - i) % 0x1_0000_0000 == 0
    ensures n >= 0x8000_0000_0000_0000 ==> i == -1
    ensures n < -0x8000_0000_0000_0000 ==> i == 0
  {
    var m := if n < -0x8000_0000_0000_0000 then -0x8000_0000_0000_0000
             else if n > 0x7fff_ffff_ffff_ffff then 0x7fff_ffff_ffff_ffff else n;
    (m + 0x8000_0000) % 0x1_0000_0000 - 0x8000_0000
  }

  lemma ScanIntText(i: int)
    ensures ScanInt(IntText(i)) == Some(i)
  {
    var d := Numeral(if i < 0 then -i else i);
    var s := IntText(i);
    assert IsDigit(d[0]);
    assert s[SignLength(s)..] == d;
    DigitSpanIs(d, |d|);
    assert d[..|d|] == d;
    NatOfNumeral(if i < 0 then -i else i);
  }

  /** Nearest integer, ties to even: what printf rounds to. */
  function RoundHalfEven(x: real): (r: int)
    ensures -0.5 <= r as real - x <= 0.5
    ensures r as real - x == 0.5 || x - r as real == 0.5 ==> r % 2 == 0
  {
    var f := x.Floor;
    var d := x - f as real;
    if d < 0.5 then f
    else if d > 0.5 then f + 1
    else if f % 2 == 0 then f else f + 1
  }

  function Abs(x: real): real { if x < 0.0 then -x else x }

  /** A double as printf("%lf") shows it: its distance from 0 in millionths. */
  function Millionths(d: real): nat {
    RoundHalfEven(Abs(d) * 1000000.0)
  }

  function DecimalText(m: nat): string {
    Numeral(m / 1000000) + "." + Padded(m, 6)
  }

  /** printf("%lf"). */
  function DoubleText(d: real): string {
    if d < 0.0 then "-" + DecimalText(Millionths(d)) else DecimalText(Millionths(d))
  }

  /** The double that the text of `d` denotes. */
  function Rounded(d: real): real {
    var a := Millionths(d) as real / 1000000.0;
    if d < 0.0 then -a else a
  }

  function RealPow10(e: int): real
    decreases if e < 0 then -e else e
  {
    if e == 0 then 1.0 else if e > 0 then 10.0 * RealPow10(e - 1) else RealPow10(e + 1) / 10.0
  }

  /** m times ten to the power of e. */
  function Shifted(m: real, e: int): real { m * RealPow10(e) }

  /** The exponent part of a floating-point lexeme; 0 when it is absent or incomplete. */
  function ScanExponent(s: string): int {
    if s != [] && (s[0] == 'e' || s[0] == 'E') then
      (match ScanInt(s[1..]) case Some(e) => e case None => 0)
    else 0
  }

  /** The digits after a decimal point as a number below 1. */
  function Fraction(f: string): real
    requires AllDigits(f)
  {
    NatOf(f) as real / Pow10(|f|) as real
  }

  /** The digits and point of a floating-point lexeme: their value and what follows them. */
  function ScanMantissa(r: string): Option<(real, string)> {
    var a := DigitSpan(r);
    if a < |r| && r[a] == '.' then
      var f := r[a + 1..];
      var b := DigitSpan(f);
      if a + b == 0 then None
      else Some((NatOf(r[..a]) as real + Fraction(f[..b]), f[b..]))
    else if a == 0 then None
    else Some((NatOf(r[..a]) as real, r[a..]))
  }

  /** The number sscanf("%lf") matches, over exact reals. */
  function ScanDouble(s: string): Option<real> {
    match ScanMantissa(s[SignLength(s)..])
    case None => None
    case Some((mantissa, tail)) =>
      var scaled := Shifted(mantissa, ScanExponent(tail));
      Some(if s[0] == '-' then -scaled else scaled)
  }

  lemma Millions(m: nat)
    ensures Pow10(6) == 1000000
    ensures (m / 1000000) as real + (m % 1000000) as real / 1000000.0 == m as real / 1000000.0
  {
    assert Pow10(3) == 1000;
    assert (m / 1000000) as real * 1000000.0 + (m % 1000000) as real == m as real;
  }

  /** Digits, a point and digits are read as what they denote. */
  lemma {:induction false} ScanPointed(w: string, f: string)
    requires w != "" && AllDigits(w) && AllDigits(f) && f != ""
    ensures ScanMantissa(w + "." + f) == Some((NatOf(w) as real + Fraction(f), ""))
  {
    hide NatOf, Fraction;
    var r := w + "." + f;
    assert r[..|w|] == w && r[|w|] == '.' && r[|w| + 1..] == f && f[..|f|] == f && f[|f|..] == "";
    DigitSpanIs(r, |w|);
    DigitSpanIs(f, |f|);
  }

  lemma {:induction false} ScanWhole(w: string)
    requires w != "" && AllDigits(w)
    ensures ScanMantissa(w) == Some((NatOf(w) as real, ""))
  {
    assert w[..|w|] == w && w[|w|..] == "";
    DigitSpanIs(w, |w|);
  }

  lemma ScanDecimal(m: nat)
    ensures ScanMantissa(DecimalText(m)) == Some((m as real / 1000000.0, ""))
  {
    hide NatOf;
    ScanPointed(Numeral(m / 1000000), Padded(m, 6));
    NatOfNumeral(m / 1000000);
    NatOfPadded(m, 6);
    Millions(m);
  }

  /** A sign in front of a complete mantissa. */
  lemma ScanSigned(neg: bool, r: string, m: real)
    requires r != "" && IsDigit(r[0]) && ScanMantissa(r) == Some((m, ""))
    ensures ScanDouble((if neg then "-" else "") + r) == Some(if neg then -m else m)
  {
    hide ScanMantissa;
    var s := (if neg then "-" else "") + r;
    assert s[SignLength(s)..] == r;
    assert Shifted(m, ScanExponent("")) == m;
  }

  lemma ScanDoubleText(d: real)
    ensures ScanDouble(DoubleText(d)) == Some(Rounded(d))
  {
    hide ScanDouble, ScanMantissa, Numeral;
    var m := Millionths(d);
    assert DecimalText(m)[0] == Numeral(m / 1000000)[0] && IsDigit(Numeral(m / 1000000)[0]);
    assert DoubleText(d) == (if d < 0.0 then "-" else "") + DecimalText(m);
    ScanDecimal(m);
    ScanSigned(d < 0.0, DecimalText(m), m as real / 1000000.0);
  }

  /** The form of a printed double: a sign for a negative one, a numeral, a point, six digits. */
  lemma DoubleForm(d: real)
    ensures
      var s := DoubleText(d);
      var p := if d < 0.0 then 1 else 0;
      && |s| >= p + 8 && (d < 0.0 ==> s[0] == '-') && s[|s| - 7] == '.'
      && (forall i :: p <= i < |s| && i != |s| - 7 ==> IsDigit(s[i]))
      && (s[p] == '0' ==> |s| == p + 8)
  {
    hide Padded, Millionths;
    var w := Numeral(Millionths(d) / 1000000);
    NumeralLeads(Millionths(d) / 1000000);
    hide Numeral;
    assert DecimalText(Millionths(d))[0] == w[0];
  }

  /** The double is a whole number of millionths. */
  predicate SixDecimals(d: real) {
    (d * 1000000.0).Floor as real == d * 1000000.0
  }

  lemma WholeFloor(x: real, n: int)
    requires x == n as real
    ensures x.Floor == n && RoundHalfEven(x) == n
  {
  }

  lemma ExactWhenRounded(d: real)
    requires Rounded(d) == d
    ensures SixDecimals(d)
  {
    hide Millionths;
    var m: int := Millionths(d);
    var n := if d < 0.0 then -m else m;
    assert d == n as real / 1000000.0;
    WholeFloor(d * 1000000.0, n);
  }

  lemma RoundedWhenExact(d: real)
    requires SixDecimals(d)
    ensures Rounded(d) == d
  {
    hide RoundHalfEven;
    var n := (d * 1000000.0).Floor;
    var m := if d < 0.0 then -n else n;
    assert Abs(d) * 1000000.0 == m as real;
    WholeFloor(Abs(d) * 1000000.0, m);
  }

  /** Exactly the doubles with six decimals print without loss. */
  lemma RoundedIff(d: real)
    ensures Rounded(d) == d <==> SixDecimals(d)
  {
    hide Rounded, SixDecimals;
    if SixDecimals(d) {
      RoundedWhenExact(d);
    }
    if Rounded(d) == d {
      ExactWhenRounded(d);
    }
  }

  /** What a text denotes has six decimals. */
  lemma RoundedWhole(d: real)
    ensures SixDecimals(Rounded(d))
  {
    hide Millionths;
    var m: int := Millionths(d);
    var n := if d < 0.0 then -m else m;
    assert Rounded(d) == n as real / 1000000.0;
    WholeFloor(Rounded(d) * 1000000.0, n);
  }

  /** Printing is off by at most half a millionth. */
  lemma RoundedNear(d: real)
    ensures -0.0000005 <= Rounded(d) - d <= 0.0000005
  {
    var x := Abs(d) * 1000000.0;
    assert -0.5 <= RoundHalfEven(x) as real - x <= 0.5;
  }

  /** The value of a complete number token, or None when sscanf matches nothing. */
  function NumberValue(pb: string, isDouble: bool): Option<Json> {
    if isDouble then
      (match ScanDouble(pb) case Some(d) => Some(Double(d)) case None => None)
    else
      (match ScanInt(pb) case Some(n) => Some(Int(ToInt32(n))) case None => None)
  }
}
