/** What the tokener reads beyond what the printer writes: white space and comments between all tokens, words in
    any case, both kinds of quotes, every escape, numbers with exponents, a comma before a closing bracket. */
module Grammar {
  import opened JsonValue
  import opened Lexemes
  import opened Automaton
  import opened RoundTrip

  // ---------- texts and what they mean ----------

  datatype Blank = Space(c: char) | Block(body: string) | Line(body: string)

  datatype Exponent = NoExponent | Exponent(letter: char, sign: string, digits: string)

  /** One character of a string: itself, a backslash and a letter, or a unicode escape with the code it spells. */
  datatype Piece = Plain(c: char) | Short(letter: char) | Unicode(digits: string, code: nat)

  datatype Syntax =
    | Literal(text: string)
    | Number(neg: bool, whole: string, point: bool, frac: string, exp: Exponent)
    | Quoted(quote: char, pieces: seq<Piece>)
    | List(open: seq<Blank>, items: seq<Item>)
    | Map(open: seq<Blank>, pairs: seq<Pair>)

  datatype Item = Item(value: Syntax, after: seq<Blank>, comma: bool, next: seq<Blank>)

  datatype Pair = Pair(quote: char, key: seq<Piece>, mid: seq<Blank>, post: seq<Blank>,
                       value: Syntax, after: seq<Blank>, comma: bool, next: seq<Blank>)

  // ---------- white space and comments ----------

  function BlankText(b: Blank): string {
    match b
    case Space(c) => [c]
    case Block(body) => "/*" + body + "*/"
    case Line(body) => "//" + body + "\n"
  }

  function BlanksText(bs: seq<Blank>): string {
    if bs == [] then "" else BlankText(bs[0]) + BlanksText(bs[1..])
  }

  /** The tokener looks for the slash only right behind a star, and a star behind a star is not looked at: so
      stars are taken in pairs with what follows them. */
  predicate Within(body: string)
    decreases |body|
  {
    if body == "" then true
    else if body[0] != '*' then body[0] != NUL && Within(body[1..])
    else |body| >= 2 && body[1] != '/' && body[1] != NUL && Within(body[2..])
  }

  predicate ProperBlank(b: Blank) {
    match b
    case Space(c) => c in {' ', '\t', '\n', '\r', 11 as char, 12 as char}
    case Block(body) => Within(body)
    case Line(body) => '\n' !in body && NUL !in body
  }

  predicate ProperBlanks(bs: seq<Blank>) {
    forall b :: b in bs ==> ProperBlank(b)
  }

  /** Nothing but the scratch buffer has changed. */
  ghost predicate Passed(t: Tok, s: string, u: Tok) {
    Goes(t, s, u) && u == t.(pb := u.pb)
  }

  lemma {:induction false} BodyGoes(t: Tok, body: string) returns (u: Tok)
    requires Valid(t) && t.top.state == Comment && Within(body)
    ensures Passed(t, body, u)
    decreases |body|
  {
    hide FeedObj, RunObj;
    if body == "" {
      u := t;
      RunEmpty(t);
    } else if body[0] != '*' {
      var v := t.Append([body[0]]);
      FeedMore(t, body[0], v);
      u := BodyGoes(v, body[1..]);
      GoesOn(t, [body[0]], v, body[1..], u);
      assert [body[0]] + body[1..] == body;
    } else {
      var v := StarGoes(t, body[1]);
      u := BodyGoes(v, body[2..]);
      GoesOn(t, ['*', body[1]], v, body[2..], u);
      assert ['*', body[1]] + body[2..] == body;
    }
  }

  /** A star and what follows it. */
  lemma StarGoes(t: Tok, c: char) returns (u: Tok)
    requires Valid(t) && t.top.state == Comment && c != NUL
    ensures Goes(t, ['*', c], u) && u == t.(pb := u.pb, top := u.top)
    ensures u.top == if c == '/' then t.top.(state := EatWs) else t.top
  {
    hide FeedObj, RunObj;
    var v := t.In(CommentEnd).Append(['*']);
    FeedMore(t, '*', v);
    u := v.In(if c == '/' then EatWs else Comment).Append([c]);
    FeedMore(v, c, u);
    GoesOn(t, ['*'], v, [c], u);
    assert ['*', c] == ['*'] + [c];
  }

  lemma {:induction false} LineGoes(t: Tok, body: string) returns (u: Tok)
    requires Valid(t) && t.top.state == CommentEol && '\n' !in body && NUL !in body
    ensures Passed(t, body, u)
    decreases |body|
  {
    hide FeedObj, RunObj;
    if body == "" {
      u := t;
      RunEmpty(t);
    } else {
      var v := t.Append([body[0]]);
      FeedMore(t, body[0], v);
      u := LineGoes(v, body[1..]);
      GoesOn(t, [body[0]], v, body[1..], u);
      assert [body[0]] + body[1..] == body;
    }
  }

  /** The two characters that open a comment. */
  lemma CommentOpens(t: Tok, c: char) returns (u: Tok)
    requires Valid(t) && t.top.state == EatWs && (c == '*' || c == '/')
    ensures Goes(t, ['/', c], u)
    ensures u == t.(pb := u.pb, top := t.top.(state := if c == '*' then Comment else CommentEol))
  {
    hide FeedObj, RunObj;
    var v := t.In(CommentStart).(pb := "/");
    FeedMore(t, '/', v);
    u := v.In(if c == '*' then Comment else CommentEol).Append([c]);
    FeedMore(v, c, u);
    GoesOn(t, ['/'], v, [c], u);
    assert ['/', c] == ['/'] + [c];
  }

  lemma {:induction false} BlankGoes(t: Tok, b: Blank) returns (u: Tok)
    requires Valid(t) && t.top.state == EatWs && ProperBlank(b)
    ensures Passed(t, BlankText(b), u)
  {
    hide FeedObj, RunObj, Dispatch;
    match b
    case Space(c) =>
      u := t;
      SpaceGoes(t, c);
    case Block(body) =>
      var v := CommentOpens(t, '*');
      var w := BodyGoes(v, body);
      GoesOn(t, "/*", v, body, w);
      u := StarGoes(w, '/');
      GoesOn(t, "/*" + body, w, "*/", u);
    case Line(body) =>
      var v := CommentOpens(t, '/');
      var w := LineGoes(v, body);
      GoesOn(t, "//", v, body, w);
      u := w.In(EatWs);
      LineEnds(w, u);
      GoesOn(t, "//" + body, w, "\n", u);
  }

  lemma LineEnds(w: Tok, u: Tok)
    requires Valid(w) && w.top.state == CommentEol && u == w.In(EatWs)
    ensures Goes(w, "\n", u)
  {
    FeedMore(w, '\n', u);
  }

  lemma SpaceGoes(t: Tok, c: char)
    requires Valid(t) && t.top.state == EatWs && ProperBlank(Space(c))
    ensures Goes(t, [c], t)
  {
    FeedMore(t, c, t);
  }

  lemma {:induction false} BlanksGo(t: Tok, bs: seq<Blank>) returns (u: Tok)
    requires Valid(t) && t.top.state == EatWs && ProperBlanks(bs)
    ensures Passed(t, BlanksText(bs), u)
    decreases |bs|
  {
    hide FeedObj, RunObj, Dispatch, BlankText, ProperBlank;
    if bs == [] {
      u := t;
      RunEmpty(t);
    } else {
      var v := BlankGoes(t, bs[0]);
      u := BlanksGo(v, bs[1..]);
      GoesOn(t, BlankText(bs[0]), v, BlanksText(bs[1..]), u);
    }
  }

  /** A comment that would end in two stars and a slash does not end there. */
  lemma {:induction false} StarsHideSlash(t: Tok, body: string) returns (u: Tok)
    requires Valid(t) && t.top.state == EatWs && Within(body)
    ensures Goes(t, "/*" + body + "**/", u) && u.top.state == Comment
  {
    hide FeedObj, RunObj;
    var v := CommentOpens(t, '*');
    var w := BodyGoes(v, body);
    GoesOn(t, "/*", v, body, w);
    var x := StarGoes(w, '*');
    GoesOn(t, "/*" + body, w, "**", x);
    u := x.Append("/");
    FeedMore(x, '/', u);
    GoesOn(t, "/*" + body + "**", x, "/", u);
    assert "/*" + body + "**" + "/" == "/*" + body + "**/";
  }

  // ---------- strings ----------

  /** What a letter behind a backslash stands for. */
  function ShortMeaning(letter: char): char {
    match letter
    case 'b' => 8 as char
    case 'n' => '\n'
    case 'r' => '\r'
    case 't' => '\t'
    case _ => letter
  }

  function PieceText(p: Piece): string {
    match p
    case Plain(c) => [c]
    case Short(letter) => ['\\', letter]
    case Unicode(digits, _) => "\\u" + digits
  }

  function PiecesText(ps: seq<Piece>): string {
    if ps == [] then "" else PieceText(ps[0]) + PiecesText(ps[1..])
  }

  function PieceMeaning(p: Piece): string {
    match p
    case Plain(c) => [c]
    case Short(letter) => [ShortMeaning(letter)]
    case Unicode(_, code) => Utf8(code)
  }

  function PiecesMeaning(ps: seq<Piece>): string {
    if ps == [] then "" else PieceMeaning(ps[0]) + PiecesMeaning(ps[1..])
  }

  ghost predicate ProperPiece(quote: char, p: Piece) {
    match p
    case Plain(c) => c != quote && c != '\\' && c != NUL
    case Short(letter) => letter in {'"', '\\', '/', 'b', 'n', 'r', 't'}
    case Unicode(digits, code) => HexSpells(digits, code)
  }

  ghost predicate ProperString(quote: char, ps: seq<Piece>) {
    (quote == '"' || quote == '\'') && forall p :: p in ps ==> ProperPiece(quote, p)
  }

  lemma PieceGoes(t: Tok, p: Piece) returns (u: Tok)
    requires Valid(t) && Quoting(t) && ProperPiece(t.quote, p)
    ensures Goes(t, PieceText(p), u) && Grown(t, PieceMeaning(p), u)
  {
    hide FeedObj, RunObj, Dispatch, Utf8, Goes, HexSpells;
    match p
    case Plain(c) => u := PlainCharGoes(t, c);
    case Short(letter) => u := ShortEscapeGoes(t, letter, ShortMeaning(letter));
    case Unicode(digits, code) =>
      var bs;
      u, bs := UnicodeEscapeGoes(t, digits, code);
  }

  lemma {:induction false} PiecesGo(t: Tok, ps: seq<Piece>) returns (u: Tok)
    requires Valid(t) && Quoting(t) && ProperString(t.quote, ps)
    ensures Goes(t, PiecesText(ps), u) && Grown(t, PiecesMeaning(ps), u)
    decreases |ps|
  {
    hide FeedObj, RunObj, Dispatch, PieceText, PieceMeaning, ProperPiece;
    if ps == [] {
      u := t;
      assert t.pb + "" == t.pb;
      RunEmpty(t);
    } else {
      var v := PieceGoes(t, ps[0]);
      u := PiecesGo(v, ps[1..]);
      GoesOn(t, PieceText(ps[0]), v, PiecesText(ps[1..]), u);
      var first, rest := PieceMeaning(ps[0]), PiecesMeaning(ps[1..]);
      assert t.pb + (first + rest) == t.pb + first + rest;
    }
  }

  lemma QuotedReads(quote: char, ps: seq<Piece>, t: Tok, c: char) returns (u: Tok, w: Tok)
    requires Valid(t) && t.top == FRESH && ProperString(quote, ps)
    ensures Goes(t, [quote] + PiecesText(ps) + [quote], u) && Holding(t, Str(CStr(PiecesMeaning(ps))), u, w, c)
  {
    hide FeedObj, RunObj, PiecesText, PiecesMeaning, CStr;
    FeedStart(t, quote);
    var t1 := t.In(StringBody).(pb := "", quote := quote);
    FeedMore(t.In(Start), quote, t1);
    GoesOne(t, quote, t1);
    var t2 := PiecesGo(t1, ps);
    assert t2.pb == PiecesMeaning(ps);
    u := AfterValue(t2, Str(CStr(t2.pb)));
    FeedMore(t2, quote, u);
    GoesOn(t, [quote], t1, PiecesText(ps), t2);
    GoesOn(t, [quote] + PiecesText(ps), t2, [quote], u);
    w := u;
  }

  // ---------- numbers ----------

  function ExponentText(e: Exponent): string {
    match e
    case NoExponent => ""
    case Exponent(letter, sign, digits) => [letter] + sign + digits
  }

  function Sign(neg: bool): string { if neg then "-" else "" }

  function NumberText(neg: bool, whole: string, point: bool, frac: string, exp: Exponent): string {
    Sign(neg) + whole + (if point then "." + frac else "") + ExponentText(exp)
  }

  ghost predicate ProperNumber(whole: string, point: bool, frac: string, exp: Exponent) {
    && whole != "" && AllDigits(whole) && AllDigits(frac) && (!point ==> frac == "")
    && (exp.Exponent? ==>
          && (exp.letter == 'e' || exp.letter == 'E') && exp.sign in {"", "+", "-"}
          && exp.digits != "" && AllDigits(exp.digits))
  }

  /** Only a point or a small e makes a double; behind a capital E the integer has already ended. */
  predicate IsDouble(point: bool, exp: Exponent) { point || (exp.Exponent? && exp.letter == 'e') }

  /** A number times ten to the power of the exponent. */
  ghost function TimesPower(m: real, exp: Exponent): real
    requires exp.Exponent? ==> AllDigits(exp.digits)
  {
    match exp
    case NoExponent => m
    case Exponent(_, sign, digits) =>
      if sign == "-" then m / Pow10(NatOf(digits)) as real else m * Pow10(NatOf(digits)) as real
  }

  ghost function NumberMeaning(neg: bool, whole: string, point: bool, frac: string, exp: Exponent): Json
    requires ProperNumber(whole, point, frac, exp)
  {
    if IsDouble(point, exp) then
      var m := TimesPower(NatOf(whole) as real + NatOf(frac) as real / Pow10(|frac|) as real, exp);
      Double(if neg then -m else m)
    else Int(ToInt32(if neg then 0 - NatOf(whole) else NatOf(whole)))
  }

  lemma {:induction false} PowerUp(n: nat)
    ensures RealPow10(n) == Pow10(n) as real
  {
    if n > 0 {
      PowerUp(n - 1);
    }
  }

  lemma {:induction false} PowerDown(n: nat)
    ensures RealPow10(0 - n) * Pow10(n) as real == 1.0
  {
    if n > 0 {
      PowerDown(n - 1);
      assert RealPow10(0 - n) == RealPow10(1 - n) / 10.0;
      TenTimes(RealPow10(1 - n), Pow10(n - 1) as real);
    }
  }

  lemma TenTimes(a: real, b: real)
    ensures a / 10.0 * (10.0 * b) == a * b
  {
  }

  lemma Divided(m: real, a: real, b: real)
    requires b > 0.0 && a * b == 1.0
    ensures m * a == m / b
  {
    assert m * a * b == m;
  }

  /** Digits, with or without a point and more digits, before an exponent or the end. */
  lemma {:induction false} MantissaRead(w: string, point: bool, f: string, tail: string)
    requires w != "" && AllDigits(w) && AllDigits(f) && (!point ==> f == "")
    requires tail == "" || tail[0] == 'e' || tail[0] == 'E'
    ensures ScanMantissa(w + (if point then "." + f else "") + tail) == Some((NatOf(w) as real + Fraction(f), tail))
  {
    hide NatOf, Fraction;
    NoDigitsNothing();
    if point {
      PointedRead(w, f, tail);
      assert w + ("." + f) + tail == w + "." + f + tail;
    } else {
      var r := w + "" + tail;
      assert r[..|w|] == w && r[|w|..] == tail;
      DigitSpanIs(r, |w|);
    }
  }

  lemma {:induction false} PointedRead(w: string, f: string, tail: string)
    requires w != "" && AllDigits(w) && AllDigits(f)
    requires tail == "" || tail[0] == 'e' || tail[0] == 'E'
    ensures ScanMantissa(w + "." + f + tail) == Some((NatOf(w) as real + Fraction(f), tail))
  {
    hide NatOf, Fraction, ScanMantissa;
    var r, g := w + "." + f + tail, f + tail;
    assert r[..|w|] == w && r[|w|] == '.' && r[|w| + 1..] == g;
    assert g[..|f|] == f && g[|f|..] == tail;
    PointedParts(r, w, g, f, tail);
  }

  lemma {:induction false} PointedParts(r: string, w: string, g: string, f: string, tail: string)
    requires |w| < |r| && r[..|w|] == w && r[|w|] == '.' && r[|w| + 1..] == g
    requires |f| <= |g| && g[..|f|] == f && g[|f|..] == tail
    requires w != "" && AllDigits(w) && AllDigits(f) && (tail == "" || tail[0] == 'e' || tail[0] == 'E')
    ensures ScanMantissa(r) == Some((NatOf(w) as real + Fraction(f), tail))
  {
    hide NatOf, Fraction;
    assert forall i :: 0 <= i < |w| ==> r[i] == w[i];
    DigitSpanIs(r, |w|);
    assert forall i :: 0 <= i < |f| ==> g[i] == f[i];
    assert |f| < |g| ==> g[|f|] == tail[0];
    DigitSpanIs(g, |f|);
  }

  lemma NoDigitsNothing()
    ensures NatOf("") == 0 && Fraction("") == 0.0
  {
  }

  lemma {:induction false} SignedDigitsRead(sign: string, digits: string)
    requires sign in {"", "+", "-"} && digits != "" && AllDigits(digits)
    ensures ScanInt(sign + digits) == Some(if sign == "-" then 0 - NatOf(digits) else NatOf(digits))
  {
    hide NatOf;
    var s := sign + digits;
    assert s[SignLength(s)..] == digits;
    DigitSpanIs(digits, |digits|);
    assert digits[..|digits|] == digits;
  }

  lemma {:induction false} ExponentRead(m: real, exp: Exponent)
    requires ProperNumber("0", false, "", exp)
    ensures Shifted(m, ScanExponent(ExponentText(exp))) == TimesPower(m, exp)
  {
    hide ScanInt, NatOf, RealPow10;
    match exp
    case NoExponent => PowerUp(0);
    case Exponent(letter, sign, digits) =>
      var s := ExponentText(exp);
      assert s[1..] == sign + digits;
      SignedDigitsRead(sign, digits);
      if sign == "-" {
        PowerDown(NatOf(digits));
        Divided(m, RealPow10(0 - NatOf(digits)), Pow10(NatOf(digits)) as real);
      } else {
        PowerUp(NatOf(digits));
      }
  }

  lemma {:induction false} DoubleRead(neg: bool, w: string, point: bool, f: string, exp: Exponent)
    requires ProperNumber(w, point, f, exp) && IsDouble(point, exp)
    ensures NumberValue(NumberText(neg, w, point, f, exp), true) == Some(NumberMeaning(neg, w, point, f, exp))
  {
    hide ScanMantissa, ScanExponent, NatOf, Shifted, ScanDouble, TimesPower, ExponentText, Pow10;
    ExponentStarts(exp);
    var s, tail := NumberText(neg, w, point, f, exp), ExponentText(exp);
    var r := w + (if point then "." + f else "") + tail;
    assert s == Sign(neg) + r && r[0] == w[0] && IsDigit(w[0]);
    assert s[SignLength(s)..] == r;
    MantissaRead(w, point, f, tail);
    var m := NatOf(w) as real + Fraction(f);
    ExponentRead(m, exp);
    ScanDoubleIs(s, m, tail, TimesPower(m, exp));
  }

  lemma ExponentStarts(exp: Exponent)
    requires exp.Exponent? ==> exp.letter == 'e' || exp.letter == 'E'
    ensures ExponentText(exp) == "" || ExponentText(exp)[0] == 'e' || ExponentText(exp)[0] == 'E'
  {
  }

  lemma ScanDoubleIs(s: string, m: real, tail: string, x: real)
    requires s != "" && ScanMantissa(s[SignLength(s)..]) == Some((m, tail))
    requires Shifted(m, ScanExponent(tail)) == x
    ensures ScanDouble(s) == Some(if s[0] == '-' then -x else x)
  {
    hide ScanMantissa, ScanExponent, Shifted;
  }

  lemma {:induction false} WholeRead(neg: bool, w: string, exp: Exponent)
    requires ProperNumber(w, false, "", exp) && !IsDouble(false, exp)
    ensures NumberValue(NumberText(neg, w, false, "", exp), false) == Some(NumberMeaning(neg, w, false, "", exp))
  {
    hide NatOf, ToInt32, ExponentText;
    ExponentStarts(exp);
    var s, tail := NumberText(neg, w, false, "", exp), ExponentText(exp);
    var r := w + tail;
    assert s == Sign(neg) + r && r[0] == w[0] && IsDigit(w[0]);
    assert s[SignLength(s)..] == r;
    DigitSpanIs(r, |w|);
    assert r[..|w|] == w;
  }

  lemma NumberLexeme(neg: bool, w: string, point: bool, f: string, exp: Exponent)
    requires ProperNumber(w, point, f, exp)
    ensures
      var s := NumberText(neg, w, point, f, exp);
      && s != "" && (IsDigit(s[0]) || s[0] == '-') && NumberChars(s) && HasPoint(s) == IsDouble(point, exp)
  {
    hide HasPoint, NumberChars, ExponentText;
    var tail, fraction := ExponentText(exp), if point then "." + f else "";
    assert (Sign(neg) + w + fraction + tail)[0] == if neg then '-' else w[0];
    DigitLexeme(w);
    FractionLexeme(point, f);
    ExponentLexeme(exp);
    SignLexeme(neg);
    LexemeJoin(Sign(neg), w);
    LexemeJoin(Sign(neg) + w, fraction);
    LexemeJoin(Sign(neg) + w + fraction, tail);
    assert IsDouble(point, exp) <==> point || HasPoint(tail);
  }

  lemma LexemeJoin(a: string, b: string)
    ensures NumberChars(a + b) <==> NumberChars(a) && NumberChars(b)
    ensures HasPoint(a + b) <==> HasPoint(a) || HasPoint(b)
  {
    var s := a + b;
    assert forall i :: 0 <= i < |a| ==> s[i] == a[i];
    assert forall i :: 0 <= i < |b| ==> s[|a| + i] == b[i];
  }

  lemma SignLexeme(neg: bool)
    ensures NumberChars(Sign(neg)) && !HasPoint(Sign(neg))
  {
  }

  lemma DigitLexeme(w: string)
    requires AllDigits(w)
    ensures NumberChars(w) && !HasPoint(w)
  {
  }

  lemma FractionLexeme(point: bool, f: string)
    requires AllDigits(f)
    ensures var s := if point then "." + f else "";
            NumberChars(s) && HasPoint(s) == point
  {
    DigitLexeme(f);
    if point {
      LexemeJoin(".", f);
      assert "."[0] == '.';
    }
  }

  lemma ExponentLexeme(exp: Exponent)
    requires ProperNumber("0", false, "", exp)
    ensures NumberChars(ExponentText(exp)) && HasPoint(ExponentText(exp)) == IsDouble(false, exp)
  {
    hide HasPoint, NumberChars;
    match exp
    case NoExponent => SignLexeme(false);
    case Exponent(letter, sign, digits) =>
      LetterLexeme(letter, sign);
      DigitLexeme(digits);
      LexemeJoin([letter], sign);
      LexemeJoin([letter] + sign, digits);
  }

  lemma LetterLexeme(letter: char, sign: string)
    requires letter == 'e' || letter == 'E'
    requires sign in {"", "+", "-"}
    ensures NumberChars([letter]) && HasPoint([letter]) == (letter == 'e')
    ensures NumberChars(sign) && !HasPoint(sign)
  {
    assert [letter][0] == letter;
  }

  lemma NumberReads(neg: bool, w: string, point: bool, f: string, exp: Exponent, t: Tok, c: char)
    returns (u: Tok, z: Tok)
    requires ProperNumber(w, point, f, exp) && Valid(t) && t.top == FRESH && Delimits(c)
    ensures Goes(t, NumberText(neg, w, point, f, exp), u)
    ensures Holding(t, NumberMeaning(neg, w, point, f, exp), u, z, c)
  {
    hide FeedObj, RunObj, Dispatch, NumberValue, NumberText, NumberMeaning, NumberChars, HasPoint;
    NumberLexeme(neg, w, point, f, exp);
    if IsDouble(point, exp) {
      DoubleRead(neg, w, point, f, exp);
    } else {
      WholeRead(neg, w, exp);
    }
    u, z := NumberValueGoes(NumberText(neg, w, point, f, exp), NumberMeaning(neg, w, point, f, exp), t, c);
  }

  // ---------- values ----------

  function Write(x: Syntax): string
    decreases x, 0
  {
    match x
    case Literal(text) => text
    case Number(neg, whole, point, frac, exp) => NumberText(neg, whole, point, frac, exp)
    case Quoted(quote, pieces) => [quote] + PiecesText(pieces) + [quote]
    case List(open, items) => "[" + (BlanksText(open) + (ItemsText(items) + "]"))
    case Map(open, pairs) => "{" + (BlanksText(open) + (PairsText(pairs) + "}"))
  }

  /** The end of an element or member: blanks, and unless it is the last a comma and blanks. */
  function Separator(after: seq<Blank>, comma: bool, next: seq<Blank>): string {
    BlanksText(after) + if comma then "," + BlanksText(next) else ""
  }

  function ItemsText(items: seq<Item>): string
    decreases items, 0
  {
    if items == [] then ""
    else Write(items[0].value) + Separator(items[0].after, items[0].comma, items[0].next) + ItemsText(items[1..])
  }

  function KeyPart(p: Pair): string {
    [p.quote] + PiecesText(p.key) + [p.quote] + BlanksText(p.mid) + ":" + BlanksText(p.post)
  }

  function PairsText(pairs: seq<Pair>): string
    decreases pairs, 0
  {
    if pairs == [] then ""
    else
      var p := pairs[0];
      KeyPart(p) + (Write(p.value) + Separator(p.after, p.comma, p.next)) + PairsText(pairs[1..])
  }

  ghost predicate ProperWord(text: string) {
    Cased("null", text) || Cased("true", text) || Cased("false", text)
  }

  ghost predicate Proper(x: Syntax)
    decreases x, 0
  {
    match x
    case Literal(text) => ProperWord(text)
    case Number(_, whole, point, frac, exp) => ProperNumber(whole, point, frac, exp)
    case Quoted(quote, pieces) => ProperString(quote, pieces)
    case List(open, items) => ProperBlanks(open) && ProperItems(items)
    case Map(open, pairs) => ProperBlanks(open) && ProperPairs(pairs)
  }

  /** A comma separates; one behind the last element does no harm. */
  ghost predicate ProperItems(items: seq<Item>)
    decreases items, 0
  {
    items != [] ==>
      && Proper(items[0].value) && ProperBlanks(items[0].after) && ProperBlanks(items[0].next)
      && (|items| > 1 ==> items[0].comma) && ProperItems(items[1..])
  }

  ghost predicate ProperPairs(pairs: seq<Pair>)
    decreases pairs, 0
  {
    pairs != [] ==>
      var p := pairs[0];
      && ProperString(p.quote, p.key) && ProperBlanks(p.mid) && ProperBlanks(p.post)
      && Proper(p.value) && ProperBlanks(p.after) && ProperBlanks(p.next)
      && (|pairs| > 1 ==> p.comma) && ProperPairs(pairs[1..])
  }

  function WordMeaning(text: string): Json {
    if |text| == 5 then Bool(false)
    else if text != "" && (text[0] == 'n' || text[0] == 'N') then Null
    else Bool(true)
  }

  ghost function Meaning(x: Syntax): Json
    requires Proper(x)
    decreases x, 0
  {
    match x
    case Literal(text) => WordMeaning(text)
    case Number(neg, whole, point, frac, exp) => NumberMeaning(neg, whole, point, frac, exp)
    case Quoted(_, pieces) => Str(CStr(PiecesMeaning(pieces)))
    case List(_, items) => Arr(ItemsMeaning(items))
    case Map(_, pairs) => Obj(PairsMeaning(pairs, []))
  }

  ghost function ItemsMeaning(items: seq<Item>): seq<Json>
    requires ProperItems(items)
    decreases items, 0
  {
    if items == [] then [] else [Meaning(items[0].value)] + ItemsMeaning(items[1..])
  }

  /** Members are added one by one, a repeated key replacing its value and moving to the end. */
  ghost function PairsMeaning(pairs: seq<Pair>, done: seq<Member<Json>>): seq<Member<Json>>
    requires ProperPairs(pairs)
    decreases pairs, 0
  {
    if pairs == [] then done
    else
      PairsMeaning(pairs[1..], Put(done, CStr(PiecesMeaning(pairs[0].key)), Meaning(pairs[0].value)))
  }

  /** The number of brackets around the innermost element or member. */
  function Nested(x: Syntax): nat
    decreases x, 0
  {
    match x
    case List(_, items) => if items == [] then 0 else 1 + ItemsNested(items)
    case Map(_, pairs) => if pairs == [] then 0 else 1 + PairsNested(pairs)
    case _ => 0
  }

  function ItemsNested(items: seq<Item>): nat
    decreases items, 0
  {
    if items == [] then 0 else Max(Nested(items[0].value), ItemsNested(items[1..]))
  }

  function PairsNested(pairs: seq<Pair>): nat
    decreases pairs, 0
  {
    if pairs == [] then 0 else Max(Nested(pairs[0].value), PairsNested(pairs[1..]))
  }

  lemma WordReads(text: string, t: Tok, c: char) returns (u: Tok, w: Tok)
    requires ProperWord(text) && Valid(t) && t.top == FRESH && Delimits(c)
    ensures Goes(t, text, u) && Holding(t, WordMeaning(text), u, w, c)
  {
    hide FeedObj, RunObj, Dispatch, Goes, Cased;
    if Cased("null", text) {
      FirstCased("null", text);
      CasedLength("null", text);
      u, w := NullValueGoes(text, t, c);
    } else {
      var b := Cased("true", text);
      FirstCased(Word(b), text);
      CasedLength(Word(b), text);
      u, w := BoolValueGoes(b, text, t, c);
    }
  }

  lemma WriteStarts(x: Syntax)
    requires Proper(x)
    ensures Write(x) != "" && StartsValue(Write(x)[0])
  {
    match x
    case Literal(text) =>
      if Cased("null", text) { FirstCased("null", text); }
      if Cased("true", text) { FirstCased("true", text); }
      if Cased("false", text) { FirstCased("false", text); }
    case Number(neg, whole, point, frac, exp) => NumberLexeme(neg, whole, point, frac, exp);
    case _ =>
  }

  /** What follows a value starts with a delimiter. */
  lemma BlanksDelimit(bs: seq<Blank>, c: char)
    requires ProperBlanks(bs) && Delimits(c)
    ensures Delimits((BlanksText(bs) + [c])[0])
  {
    if bs != [] {
      assert ProperBlank(bs[0]) && (BlanksText(bs) + [c])[0] == BlankText(bs[0])[0];
    }
  }

  /** From behind a value over blanks to a comma or a closing bracket, and past it. */
  lemma Separated(t: Tok, v: Json, u: Tok, w: Tok, b: seq<Level>, l: Level, after: seq<Blank>, c: char) returns (z: Tok)
    requires Valid(t) && t.below == b + [l] && Waiting(l) && ProperBlanks(after)
    requires c == ',' || c == if l.state == ArrayAdd then ']' else '}'
    requires Holding(t, v, u, w, (BlanksText(after) + [c])[0])
    ensures Goes(u, BlanksText(after) + [c], z) && z.below == b
    ensures z.top == Fuller(l, v, if c != ',' then Finish else if l.state == ArrayAdd then Array else FieldStart)
  {
    hide FeedObj, RunObj, BlanksText, ProperBlanks;
    var x := BlanksGo(w, after);
    var y := HandsDown(x, b, l, c);
    z := y.(top := Fuller(l, v, if c != ',' then Finish else if l.state == ArrayAdd then Array else FieldStart));
    FeedMore(y, c, z);
    GoesOne(x, c, z);
    GoesOn(w, BlanksText(after), x, [c], z);
    StartGoes(u, w, BlanksText(after) + [c], z);
  }

  /** The closing bracket where an element or member might follow. */
  lemma ClosesAt(a: Tok, isArray: bool) returns (z: Tok)
    requires Valid(a) && a.top.state == EatWs && a.top.saved == if isArray then Array else FieldStart
    ensures Goes(a, if isArray then "]" else "}", z) && z == a.(top := a.top.(saved := Finish))
  {
    hide FeedObj, RunObj;
    var c := if isArray then ']' else '}';
    z := a.(top := a.top.(saved := Finish));
    FeedResume(a, c);
    FeedMore(a.In(a.top.saved), c, z);
    GoesOne(a, c, z);
  }

  /** A quoted key up to the state behind it. */
  lemma KeyReads(a: Tok, quote: char, ps: seq<Piece>) returns (z: Tok)
    requires Valid(a) && a.top.state == EatWs && a.top.saved == FieldStart && ProperString(quote, ps)
    ensures Goes(a, [quote] + PiecesText(ps) + [quote], z) && z.below == a.below
    ensures z.top == a.top.(state := EatWs, saved := FieldEnd, field := Some(CStr(PiecesMeaning(ps))))
  {
    hide FeedObj, RunObj, PiecesText, PiecesMeaning, CStr, ProperString;
    QuoteIs(quote, ps);
    FeedResume(a, quote);
    var t1 := a.In(Field).(quote := quote, pb := "");
    FeedMore(a.In(FieldStart), quote, t1);
    GoesOne(a, quote, t1);
    var t2 := PiecesGo(t1, ps);
    assert t2.pb == PiecesMeaning(ps);
    z := t2.(top := t2.top.(field := Some(CStr(t2.pb)), state := EatWs, saved := FieldEnd));
    FeedMore(t2, quote, z);
    GoesOn(a, [quote], t1, PiecesText(ps), t2);
    GoesOn(a, [quote] + PiecesText(ps), t2, [quote], z);
  }

  lemma QuoteIs(quote: char, ps: seq<Piece>)
    requires ProperString(quote, ps)
    ensures quote == '"' || quote == '\''
  {
  }

  /** A key with its colon, up to the value. */
  lemma KeyPartReads(a: Tok, p: Pair) returns (g: Tok)
    requires Valid(a) && a.top.state == EatWs && a.top.saved == FieldStart
    requires ProperString(p.quote, p.key) && ProperBlanks(p.mid) && ProperBlanks(p.post)
    ensures Valid(g) && Goes(a, KeyPart(p), g) && g.below == a.below
    ensures g.top == a.top.(saved := ObjValue, field := Some(CStr(PiecesMeaning(p.key))))
  {
    hide FeedObj, RunObj, Dispatch, PiecesText, PiecesMeaning, CStr, BlanksText, ProperString, ProperBlanks;
    var key := [p.quote] + PiecesText(p.key) + [p.quote];
    var b := KeyReads(a, p.quote, p.key);
    var c := BlanksGo(b, p.mid);
    GoesOn(a, key, b, BlanksText(p.mid), c);
    var d := ColonReads(c);
    GoesOn(a, key + BlanksText(p.mid), c, ":", d);
    g := BlanksGo(d, p.post);
    GoesOn(a, key + BlanksText(p.mid) + ":", d, BlanksText(p.post), g);
  }

  lemma ColonReads(t: Tok) returns (u: Tok)
    requires Valid(t) && t.top.state == EatWs && t.top.saved == FieldEnd
    ensures Goes(t, ":", u) && u == t.(top := t.top.(saved := ObjValue))
  {
    hide FeedObj, RunObj;
    u := t.(top := t.top.(saved := ObjValue));
    FeedResume(t, ':');
    FeedMore(t.In(FieldEnd), ':', u);
    GoesOne(t, ':', u);
  }

  /** A value for a waiting level, what separates it from the next or the closing bracket, all read. */
  lemma {:induction false} Delivered(a: Tok, waiting: State, x: Syntax, after: seq<Blank>, comma: bool,
                                     next: seq<Blank>)
    returns (z: Tok)
    requires Proper(x) && ProperBlanks(after) && ProperBlanks(next) && Valid(a) && a.top.state == EatWs
    requires (a.top.saved == Array && waiting == ArrayAdd) || (a.top.saved == ObjValue && waiting == ObjValueAdd)
    requires a.Depth() + 1 + Nested(x) < MAX_DEPTH && Waiting(a.top.(state := waiting))
    ensures
      var close := if waiting == ArrayAdd then "]" else "}";
      Goes(a, Write(x) + (if comma then Separator(after, true, next) else Separator(after, false, next) + close), z)
    ensures Valid(z) && z.below == a.below
    ensures z.top == Fuller(a.top.(state := waiting), Meaning(x),
                            if !comma then Finish else if waiting == ArrayAdd then Array else FieldStart)
    decreases x, 2
  {
    hide FeedObj, RunObj, Run, Dispatch, Feed, TopOk, Write, Goes, Valid, Nested, BlanksText, ProperBlanks,
         Proper, Meaning;
    var c := if comma then ',' else if waiting == ArrayAdd then ']' else '}';
    var l := a.top.(state := waiting);
    var rest := BlanksText(after) + [c];
    WriteStarts(x);
    BlanksDelimit(after, c);
    var t := Descends(a, waiting, Write(x)[0]);
    var u, w := ValueReads(x, t, rest[0]);
    StartGoes(a, t, Write(x), u);
    z := Separated(t, Meaning(x), u, w, a.below, l, after, c);
    GoesOn(a, Write(x), u, rest, z);
    if comma {
      var y := z;
      z := BlanksGo(y, next);
      GoesOn(a, Write(x) + rest, y, BlanksText(next), z);
      assert Write(x) + rest + BlanksText(next) == Write(x) + Separator(after, true, next);
    } else {
      assert rest == Separator(after, false, next) + [c];
    }
  }

  /** Reading a proper text of a value on a fresh level leaves its meaning there. */
  lemma {:induction false} ValueReads(x: Syntax, t: Tok, c: char) returns (u: Tok, w: Tok)
    requires Proper(x) && Valid(t) && t.top == FRESH && t.Depth() + Nested(x) < MAX_DEPTH && Delimits(c)
    ensures Goes(t, Write(x), u) && Holding(t, Meaning(x), u, w, c)
    decreases x, 1
  {
    hide FeedObj, RunObj, Run, Dispatch, Goes, NumberText, NumberMeaning, PiecesText, BlanksText, ItemsText, PairsText;
    match x
    case Literal(text) => u, w := WordReads(text, t, c);
    case Number(neg, whole, point, frac, exp) => u, w := NumberReads(neg, whole, point, frac, exp, t, c);
    case Quoted(quote, pieces) => u, w := QuotedReads(quote, pieces, t, c);
    case List(open, items) =>
      var a := OpensContainer(t, '[');
      var b := BlanksGo(a, open);
      if items == [] {
        u := ClosesAt(b, true);
        NoItems();
      } else {
        u := ItemsRead(items, b);
      }
      GoesOn(a, BlanksText(open), b, ItemsText(items) + "]", u);
      GoesOn(t, ['['], a, BlanksText(open) + (ItemsText(items) + "]"), u);
      assert [] + ItemsMeaning(items) == ItemsMeaning(items);
      w := u;
    case Map(open, pairs) =>
      var a := OpensContainer(t, '{');
      var b := BlanksGo(a, open);
      if pairs == [] {
        u := ClosesAt(b, false);
        NoItems();
      } else {
        u := PairsRead(pairs, b);
      }
      GoesOn(a, BlanksText(open), b, PairsText(pairs) + "}", u);
      GoesOn(t, ['{'], a, BlanksText(open) + (PairsText(pairs) + "}"), u);
      w := u;
  }

  lemma NoItems()
    ensures ItemsText([]) + "]" == "]" && PairsText([]) + "}" == "}"
  {
  }

  lemma {:induction false} ItemsRead(items: seq<Item>, a: Tok) returns (z: Tok)
    requires ProperItems(items) && Valid(a) && a.top.current.Arr? && Open(a, Array, a.top.current)
    requires a.Depth() + 1 + ItemsNested(items) < MAX_DEPTH
    ensures Goes(a, ItemsText(items) + "]", z) && z.below == a.below
    ensures z.top == Level(EatWs, Finish, Arr(a.top.current.elems + ItemsMeaning(items)), None)
    decreases items, 3
  {
    hide FeedObj, RunObj, Run, Dispatch, Feed, TopOk, Write, Goes, Valid, Nested, Separator, Meaning, Proper;
    var done := a.top.current.elems;
    if items == [] {
      z := ClosesAt(a, true);
      NoItems();
      assert done + [] == done;
    } else {
      var x, rest := items[0], items[1..];
      var part := Write(x.value) + Separator(x.after, x.comma, x.next);
      if x.comma {
        var b := Delivered(a, ArrayAdd, x.value, x.after, true, x.next);
        z := ItemsRead(rest, b);
        GoesOn(a, part, b, ItemsText(rest) + "]", z);
        assert part + (ItemsText(rest) + "]") == ItemsText(items) + "]";
        assert done + [Meaning(x.value)] + ItemsMeaning(rest) == done + ItemsMeaning(items);
      } else {
        z := Delivered(a, ArrayAdd, x.value, x.after, false, x.next);
        assert rest == [];
        assert Write(x.value) + (Separator(x.after, false, x.next) + "]") == ItemsText(items) + "]";
        assert ItemsMeaning(items) == [Meaning(x.value)];
      }
    }
  }

  lemma PairsTextIs(pairs: seq<Pair>)
    requires pairs != []
    ensures
      var p := pairs[0];
      var part := Write(p.value) + Separator(p.after, p.comma, p.next);
      && KeyPart(p) + part + (PairsText(pairs[1..]) + "}") == PairsText(pairs) + "}"
      && (|pairs| == 1 ==> KeyPart(p) + (part + "}") == PairsText(pairs) + "}")
      && Write(p.value) + (Separator(p.after, p.comma, p.next) + "}") == part + "}"
  {
    hide KeyPart, Write, Separator;
    var p := pairs[0];
    Joined(KeyPart(p), Write(p.value), Separator(p.after, p.comma, p.next), PairsText(pairs[1..]));
    assert |pairs| == 1 ==> pairs[1..] == [];
  }

  lemma Joined(key: string, value: string, separator: string, rest: string)
    ensures key + (value + separator) + (rest + "}") == key + (value + separator) + rest + "}"
    ensures rest == "" ==> key + (value + separator + "}") == key + (value + separator) + rest + "}"
    ensures value + (separator + "}") == value + separator + "}"
  {
  }

  lemma {:induction false} PairsRead(pairs: seq<Pair>, a: Tok) returns (z: Tok)
    requires ProperPairs(pairs) && Valid(a) && a.top.current.Obj? && Open(a, FieldStart, a.top.current)
    requires a.Depth() + 1 + PairsNested(pairs) < MAX_DEPTH
    ensures Goes(a, PairsText(pairs) + "}", z) && z.below == a.below
    ensures z.top == Level(EatWs, Finish, Obj(PairsMeaning(pairs, a.top.current.members)), None)
    decreases pairs, 3
  {
    hide FeedObj, RunObj, Run, Dispatch, Feed, TopOk, Write, Goes, Valid, Nested, Separator, Meaning, Proper, KeyPart,
         PiecesMeaning, CStr, ProperString, ProperBlanks;
    var done := a.top.current.members;
    if pairs == [] {
      z := ClosesAt(a, false);
      NoItems();
    } else {
      var p, rest := pairs[0], pairs[1..];
      var g := KeyPartReads(a, p);
      var part := Write(p.value) + Separator(p.after, p.comma, p.next);
      if p.comma {
        var b := Delivered(g, ObjValueAdd, p.value, p.after, true, p.next);
        GoesOn(a, KeyPart(p), g, part, b);
        z := PairsRead(rest, b);
        GoesOn(a, KeyPart(p) + part, b, PairsText(rest) + "}", z);
        PairsTextIs(pairs);
      } else {
        z := Delivered(g, ObjValueAdd, p.value, p.after, false, p.next);
        PairsTextIs(pairs);
        GoesOn(a, KeyPart(p), g, part + "}", z);
      }
    }
  }

  /** Every proper text, blanks before and behind it included, is parsed to what it means. */
  lemma {:induction false} TextRead(before: seq<Blank>, x: Syntax, behind: seq<Blank>)
    requires Proper(x) && Nested(x) <= 31 && ProperBlanks(before) && ProperBlanks(behind)
    ensures ParseSpec(BlanksText(before) + Write(x) + BlanksText(behind) + [NUL]) == Parsed(Meaning(x))
  {
    hide FeedObj, RunObj, Dispatch, Write, Nested, Meaning, Proper, BlanksText, ProperBlanks;
    var t := BlanksGo(NEW_TOK, before);
    var rest := BlanksText(behind) + [NUL];
    BlanksDelimit(behind, NUL);
    var u, w := ValueReads(x, t, rest[0]);
    GoesOn(NEW_TOK, BlanksText(before), t, Write(x), u);
    RestFinishes(u, w, behind, Meaning(x));
    RunAppend(NEW_TOK, BlanksText(before) + Write(x), rest);
    assert BlanksText(before) + Write(x) + rest == BlanksText(before) + Write(x) + BlanksText(behind) + [NUL];
  }

  /** From behind the outermost value to the terminator. */
  lemma {:induction false} RestFinishes(u: Tok, w: Tok, behind: seq<Blank>, v: Json)
    requires ProperBlanks(behind) && Holding(NEW_TOK, v, u, w, (BlanksText(behind) + [NUL])[0])
    ensures
      var r := Run(u, BlanksText(behind) + [NUL]);
      r.err == Success && r.tok.top.current == v
  {
    hide FeedObj, RunObj, Dispatch, BlanksText, ProperBlanks;
    var z := BlanksGo(w, behind);
    SameStart(u, w, BlanksText(behind) + [NUL]);
    RunAppend(w, BlanksText(behind), [NUL]);
    FinishesAtNul(z);
  }

  lemma FinishesAtNul(z: Tok)
    requires Valid(z) && z.Depth() == 0 && z.top.state == EatWs && z.top.saved == Finish
    ensures Run(z, [NUL]).err == Success && Run(z, [NUL]).tok.top.current == z.top.current
  {
    FeedResume(z, NUL);
    SameStart(z, z.In(Finish), [NUL]);
  }

  // ---------- what is refused ----------

  /** The characters that may follow between tokens, by what the tokener waits for. */
  predicate Welcome(waits: State, c: char) {
    match waits
    case Start | ObjValue => StartsValue(c)
    case Array => c == ']' || StartsValue(c)
    case ArraySep => c == ']' || c == ','
    case FieldStart => c == '}' || c == '"' || c == '\''
    case FieldEnd => c == ':'
    case ObjSep => c == '}' || c == ','
    case _ => true
  }

  function Complaint(waits: State): Error {
    match waits
    case ArraySep => BadArray
    case FieldStart => BadKeyName
    case FieldEnd => BadKeySep
    case ObjSep => BadValueSep
    case _ => Unexpected
  }

  /** The character ends the call with this error, at the terminator with the error for an unexpected end. */
  ghost predicate Refuses(t: Tok, c: char, e: Error) {
    Valid(t) && Feed(t, c).Halt? && !Feed(t, c).eaten && Feed(t, c).err == if c == NUL then UnexpectedEof else e
  }

  /** At the start of a value. */
  lemma StartRefuses(t: Tok, c: char)
    requires Valid(t) && t.top.state == EatWs && t.top.saved == Start && !ProperBlank(Space(c)) && c != '/'
    ensures if StartsValue(c) then Feed(t, c).More? else Refuses(t, c, Unexpected)
  {
    hide FeedObj;
    FeedResume(t, c);
    var x := t.In(Start);
    if c == 'n' || c == 'N' {
      var v := x.In(NullWord).(pb := "", stPos := 0);
      FeedRedo(x, c, v);
      WordStarts(v, c);
    } else if c in {'t', 'T', 'f', 'F'} {
      var v := x.In(Boolean).(pb := "", stPos := 0);
      FeedRedo(x, c, v);
      WordStarts(v, c);
    } else if IsDigit(c) || c == '-' {
      var v := x.In(State.Number).(pb := "", isDouble := false);
      FeedRedo(x, c, v);
      NumberStarts(v, c);
    } else {
      StartStops(x, c);
    }
  }

  lemma WordStarts(t: Tok, c: char)
    requires Valid(t) && t.pb == "" && t.stPos == 0
    requires (t.top.state.NullWord? && c in {'n', 'N'}) || (t.top.state.Boolean? && c in {'t', 'T', 'f', 'F'})
    ensures Feed(t, c).More?
  {
    assert t.Append([c]).pb == [c];
  }

  lemma NumberStarts(t: Tok, c: char)
    requires Valid(t) && t.top.state.Number? && (IsDigit(c) || c == '-')
    ensures Feed(t, c).More?
  {
  }

  lemma StartStops(t: Tok, c: char)
    requires Valid(t) && t.top.state == Start && t.top.saved != Finish
    requires !(c in {'n', 'N', 't', 'T', 'f', 'F'}) && !IsDigit(c) && c != '-'
    ensures if StartsValue(c) then Feed(t, c).More? else Refuses(t, c, Unexpected)
  {
  }

  /** Where a separator, a bracket, a key or a colon is due. */
  lemma SignRefuses(t: Tok, c: char)
    requires Valid(t) && t.top.saved != Finish
    requires t.top.state.ArraySep? || t.top.state.FieldStart? || t.top.state.FieldEnd? || t.top.state.ObjSep?
    ensures if Welcome(t.top.state, c) then Feed(t, c).More? else Refuses(t, c, Complaint(t.top.state))
  {
    hide Valid;
  }

  /** Up to a fresh level for an element or a member value. */
  lemma LevelOpens(t: Tok, c: char) returns (u: Tok)
    requires Valid(t) && t.Depth() < MAX_DEPTH - 1
    requires (t.top.state == Array && c != ']') || t.top.state == ObjValue
    ensures Valid(u) && u.top == FRESH && Feed(t, c) == Feed(u, c)
  {
    hide FeedObj;
    u := Push(t, if t.top.state == Array then ArrayAdd else ObjValueAdd);
    FeedRedo(t, c, u);
  }

  /** Between tokens: a character that is no blank and opens no comment goes on exactly if it is welcome;
      otherwise the call ends before it, with the error that belongs to what was due. */
  lemma {:induction false} Refused(t: Tok, c: char)
    requires Valid(t) && t.top.state == EatWs && t.top.saved != Finish && !ProperBlank(Space(c)) && c != '/'
    requires t.Depth() < MAX_DEPTH - 1
    ensures if Welcome(t.top.saved, c) then Feed(t, c).More? else Refuses(t, c, Complaint(t.top.saved))
  {
    hide FeedObj, Dispatch, Valid;
    if t.top.saved == Start {
      StartRefuses(t, c);
      return;
    }
    FeedResume(t, c);
    var x := t.In(t.top.saved);
    ResumableStates(t);
    if t.top.saved == Array && c == ']' {
      var z := ClosesAt(t, true);
      GoesMore(t, ']', z);
    } else if t.top.saved == Array || t.top.saved == ObjValue {
      var u := LevelOpens(x, c);
      StartRefuses(u, c);
    } else {
      SignRefuses(x, c);
    }
  }

  lemma ResumableStates(t: Tok)
    requires Valid(t) && t.top.state == EatWs
    ensures Resumable(t.top.saved)
  {
  }

  lemma GoesMore(t: Tok, c: char, z: Tok)
    requires Goes(t, [c], z)
    ensures Feed(t, c).More?
  {
  }

  /** Inside tokens: what may not follow a backslash, an unfinished unicode escape or a slash. */
  lemma {:induction false} RefusedInside(t: Tok, c: char)
    requires Valid(t) && c != NUL
    ensures t.top.state == StringEscape ==>
              if c in {'"', '\\', '/', 'b', 'n', 'r', 't', 'u'} then Feed(t, c).More? else Refuses(t, c, BadString)
    ensures t.top.state == EscapeUnicode ==>
              if c in "0123456789abcdef" then Feed(t, c).More? else Refuses(t, c, BadString)
    ensures t.top.state == CommentStart ==>
              if c == '*' || c == '/' then Feed(t, c).More? else Refuses(t, c, BadComment)
  {
    hide Utf8, HexDigit, Valid;
  }
}
