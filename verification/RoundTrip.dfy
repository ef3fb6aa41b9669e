/** Parsing undoes printing. */
module RoundTrip {
  import opened JsonValue
  import opened Lexemes
  import opened Automaton
  import opened Printer

  // ---------- what survives a trip ----------

  /** A tree after printing and parsing: doubles keep six decimals, and an
      object is rebuilt member by member. */
  function Settled(v: Json): Json {
    match v
    case Double(d) => Double(Rounded(d))
    case Arr(es) => Arr(SettledElems(es))
    case Obj(ms) => Obj(SettledMembers(ms, []))
    case _ => v
  }

  function SettledElems(es: seq<Json>): seq<Json> {
    if es == [] then [] else [Settled(es[0])] + SettledElems(es[1..])
  }

  function SettledMembers(ms: seq<Member<Json>>, done: seq<Member<Json>>): seq<Member<Json>> {
    if ms == [] then done
    else
      var m := ms[0];
      SettledMembers(ms[1..], Put(done, m.key, Settled(m.value)))
  }

  // ---------- running over a piece of text ----------

  /** The tokener consumes all of s and goes on in state u. */
  ghost predicate Goes(t: Tok, s: string, u: Tok) {
    Valid(t) && Valid(u) && Run(t, s) == Outcome(u, EndError(u), 0, false)
  }

  lemma GoesOn(t: Tok, a: string, u: Tok, b: string, w: Tok)
    requires Goes(t, a, u) && Goes(u, b, w)
    ensures Goes(t, a + b, w)
  {
    RunAppend(t, a, b);
  }

  lemma GoesOne(t: Tok, c: char, u: Tok)
    requires Valid(t) && Feed(t, c) == More(u)
    ensures Goes(t, [c], u)
  {
    assert [c][1..] == "";
    RunEmpty(u);
  }

  /** Two states that treat the first character alike treat the text alike. */
  lemma SameStart(t: Tok, u: Tok, s: string)
    requires Valid(t) && Valid(u) && s != "" && Feed(t, s[0]) == Feed(u, s[0])
    ensures Run(t, s) == Run(u, s)
  {
  }

  lemma StartGoes(t: Tok, u: Tok, s: string, w: Tok)
    requires Valid(t) && Valid(u) && s != "" && Feed(t, s[0]) == Feed(u, s[0]) && Goes(u, s, w)
    ensures Goes(t, s, w)
  {
    SameStart(t, u, s);
  }

  // ---------- single characters ----------

  lemma FeedRedo(t: Tok, c: char, u: Tok)
    requires Valid(t) && Valid(u) && Dispatch(t, Null, c) == Redo(u)
    ensures Feed(t, c) == Feed(u, c)
  {
  }

  lemma FeedMore(t: Tok, c: char, u: Tok)
    requires Valid(t) && c != NUL && Dispatch(t, Null, c) == Advance(u)
    ensures Feed(t, c) == More(u) && Goes(t, [c], u)
  {
    GoesOne(t, c, u);
  }

  /** White space leads to the saved state. */
  lemma FeedResume(t: Tok, c: char)
    requires Valid(t) && t.top.state == EatWs && !IsSpace(c) && c != '/'
    ensures Valid(t.In(t.top.saved)) && Feed(t, c) == Feed(t.In(t.top.saved), c)
  {
    FeedRedo(t, c, t.In(t.top.saved));
  }

  lemma SkipBlank(t: Tok)
    requires Valid(t) && t.top.state == EatWs
    ensures Feed(t, ' ') == More(t) && Goes(t, " ", t)
  {
    FeedMore(t, ' ', t);
  }

  // ---------- null, true, false ----------

  /** The lower-case word in any mixture of cases. */
  predicate Cased(word: string, w: string) {
    |w| == |word| && forall i :: 0 <= i < |w| ==> w[i] == word[i] || w[i] as int == word[i] as int - 32
  }

  lemma CasedSame(word: string, w: string, n: nat)
    requires Cased(word, w) && n <= |w| && forall i :: 0 <= i < |word| ==> 'a' <= word[i] <= 'z'
    ensures SameWord(word, w[..n], n)
  {
  }

  lemma {:induction false} NullGoes(t: Tok, w: string, i: nat) returns (u: Tok)
    requires Cased("null", w)
    requires Valid(t) && t.top.state == NullWord && i <= 4 && t.stPos == i && t.pb == w[..i]
    ensures Goes(t, w[i..], u) && u.top == t.top && u.below == t.below && u.stPos == 4 && u.pb == w
    decreases 4 - i
  {
    hide FeedObj, RunObj, SameWord, Cased;
    CasedLength("null", w);
    u := t;
    if i == 4 {
      RunEmpty(t);
    } else {
      var v := t.Append([w[i]]).(stPos := i + 1);
      NullStep(t, w, i, v);
      u := NullGoes(v, w, i + 1);
      GoesOn(t, [w[i]], v, w[i + 1..], u);
      assert w[i..] == [w[i]] + w[i + 1..];
    }
  }

  lemma CasedLength(word: string, w: string)
    requires Cased(word, w)
    ensures |w| == |word|
  {
  }

  lemma CasedChar(word: string, w: string, i: nat)
    requires Cased(word, w) && i < |w| && forall k :: 0 <= k < |word| ==> 'a' <= word[k] <= 'z'
    ensures w[i] != NUL && Lower(w[i]) == word[i]
  {
  }

  lemma NullStep(t: Tok, w: string, i: nat, v: Tok)
    requires Cased("null", w) && i < 4 && |w| == 4
    requires Valid(t) && t.top.state == NullWord && t.stPos == i && t.pb == w[..i]
    requires v == t.Append([w[i]]).(stPos := i + 1)
    ensures Goes(t, [w[i]], v) && v.pb == w[..i + 1]
  {
    hide FeedObj, RunObj, SameWord, Cased;
    CasedChar("null", w, i);
    assert v.pb == w[..i + 1];
    CasedSame("null", w, i + 1);
    FeedMore(t, w[i], v);
  }

  function Word(b: bool): string { if b then "true" else "false" }

  lemma BooleanStep(t: Tok, b: bool, w: string, i: nat, v: Tok)
    requires Cased(Word(b), w) && i < |w|
    requires Valid(t) && t.top.state == Boolean && t.stPos == i && t.pb == w[..i]
    requires v == t.Append([w[i]]).(stPos := i + 1)
    ensures Goes(t, [w[i]], v) && v.pb == w[..i + 1]
  {
    hide FeedObj, RunObj, Cased;
    CasedLength(Word(b), w);
    CasedChar(Word(b), w, i);
    assert v.pb == w[..i + 1];
    CasedSame(Word(b), w, i + 1);
    NotTrue(b, w, i);
    hide SameWord;
    FeedMore(t, w[i], v);
  }

  lemma NotTrue(b: bool, w: string, i: nat)
    requires Cased(Word(b), w) && i < |w| == |Word(b)|
    ensures !b ==> !SameWord("true", w[..i + 1], Min(i + 1, 4))
  {
    CasedChar(Word(b), w, 0);
    assert w[..i + 1][0] == w[0];
  }

  lemma {:induction false} BooleanGoes(t: Tok, b: bool, w: string, i: nat) returns (u: Tok)
    requires Cased(Word(b), w)
    requires Valid(t) && t.top.state == Boolean && i <= |w| && t.stPos == i && t.pb == w[..i]
    ensures Goes(t, w[i..], u) && u.top == t.top && u.below == t.below && u.stPos == |w| == |Word(b)| && u.pb == w
    decreases |w| - i
  {
    hide FeedObj, RunObj, Dispatch, Cased;
    CasedLength(Word(b), w);
    u := t;
    if i == |w| {
      RunEmpty(t);
    } else {
      var v := t.Append([w[i]]).(stPos := i + 1);
      BooleanStep(t, b, w, i, v);
      u := BooleanGoes(v, b, w, i + 1);
      GoesOn(t, [w[i]], v, w[i + 1..], u);
      assert w[i..] == [w[i]] + w[i + 1..];
    }
  }

  // ---------- numbers ----------

  ghost predicate NumberChars(s: string) {
    forall i :: 0 <= i < |s| ==> IsNumberChar(s[i])
  }

  ghost predicate HasPoint(s: string) {
    exists i :: 0 <= i < |s| && (s[i] == '.' || s[i] == 'e')
  }

  lemma {:induction false} NumberGoes(t: Tok, s: string)
    requires Valid(t) && t.top.state == Number && NumberChars(s)
    ensures Goes(t, s, t.Append(s).(isDouble := t.isDouble || HasPoint(s)))
    decreases |s|
  {
    hide FeedObj, RunObj;
    var w := t.Append(s).(isDouble := t.isDouble || HasPoint(s));
    if s == "" {
      assert w == t;
      RunEmpty(t);
    } else {
      var v := t.Append([s[0]]).(isDouble := t.isDouble || s[0] == '.' || s[0] == 'e');
      FeedMore(t, s[0], v);
      NumberGoes(v, s[1..]);
      assert s == [s[0]] + s[1..];
      assert HasPoint(s) <==> s[0] == '.' || s[0] == 'e' || HasPoint(s[1..]);
      assert v.pb + s[1..] == t.pb + s;
      GoesOn(t, [s[0]], v, s[1..], w);
    }
  }

  // ---------- strings ----------

  predicate Quoting(t: Tok) {
    (t.quote == '"' || t.quote == '\'') && (t.top.state.StringBody? || t.top.state.Field?)
  }

  /** Between the quotes: only the buffer has grown, by s. */
  ghost predicate Grown(t: Tok, s: string, u: Tok) {
    && u.below == t.below && u.quote == t.quote && u.pb == t.pb + s
    && u.top == t.top.(saved := u.top.saved)
  }

  lemma PlainCharGoes(t: Tok, c: char) returns (u: Tok)
    requires Valid(t) && Quoting(t) && c != NUL && c != t.quote && c != '\\'
    ensures Goes(t, [c], u) && Grown(t, [c], u)
  {
    u := t.Append([c]);
    FeedMore(t, c, u);
  }

  /** A backslash and a letter. */
  lemma ShortEscapeGoes(t: Tok, letter: char, c: char) returns (u: Tok)
    requires Valid(t) && Quoting(t)
    requires (letter == c && (c == '"' || c == '\\' || c == '/')) || (letter == 'b' && c == 8 as char)
          || (letter == 'n' && c == '\n') || (letter == 'r' && c == '\r') || (letter == 't' && c == '\t')
    ensures Goes(t, ['\\', letter], u) && Grown(t, [c], u)
  {
    var v := t.To(StringEscape, t.top.state);
    FeedMore(t, '\\', v);
    u := v.In(t.top.state).Append([c]);
    FeedMore(v, letter, u);
    GoesOn(t, ['\\'], v, [letter], u);
    assert ['\\', letter] == ['\\'] + [letter];
  }

  /** A backslash is read on exactly before `u` and before a letter that is printed behind one, and then the
      character it was printed for is appended. */
  lemma EscapeTakes(t: Tok, letter: char)
    requires Valid(t) && t.top.state.StringEscape?
    ensures EscapeMove(t, letter).Advance? <==> letter == 'u' || exists c :: EscapeChar(c) == ['\\', letter]
    ensures forall c :: EscapeChar(c) == ['\\', letter] ==>
              EscapeMove(t, letter) == Advance(t.In(t.top.saved).Append([c]))
  {
    if letter in {'"', '\\', '/'} {
      assert EscapeChar(letter) == ['\\', letter];
    } else if letter == 'b' {
      assert EscapeChar(8 as char) == ['\\', letter];
    } else if letter == 'n' {
      assert EscapeChar('\n') == ['\\', letter];
    } else if letter == 'r' {
      assert EscapeChar('\r') == ['\\', letter];
    } else if letter == 't' {
      assert EscapeChar('\t') == ['\\', letter];
    }
  }

  lemma UnicodeOpens(t: Tok) returns (u: Tok)
    requires Valid(t) && Quoting(t)
    ensures Goes(t, "\\u", u) && u == t.To(EscapeUnicode, t.top.state).(ucs := 0, stPos := 0)
  {
    hide FeedObj, RunObj;
    var v := t.To(StringEscape, t.top.state);
    FeedMore(t, '\\', v);
    u := v.In(EscapeUnicode).(ucs := 0, stPos := 0);
    FeedMore(v, 'u', u);
    GoesOn(t, ['\\'], v, ['u'], u);
    assert ['\\'] + ['u'] == "\\u";
  }

  /** One of the first three digits of a \u escape. */
  lemma HexGoes(t: Tok, d: char) returns (u: Tok)
    requires Valid(t) && t.top.state == EscapeUnicode && IsHexChar(d) && 0 <= t.stPos < 3
    requires 0 <= t.ucs && t.ucs + HexDigit(d) * HexWeight(t.stPos) < 0x1_0000
    ensures u == t.(ucs := t.ucs + HexDigit(d) * HexWeight(t.stPos), stPos := t.stPos + 1)
    ensures Goes(t, [d], u)
  {
    hide FeedObj, RunObj;
    u := t.(ucs := t.ucs + HexDigit(d) * HexWeight(t.stPos), stPos := t.stPos + 1);
    FeedMore(t, d, u);
  }

  lemma LastHexMove(t: Tok, d: char)
    requires Valid(t) && t.top.state == EscapeUnicode && IsHexChar(d) && t.stPos == 3
    requires 0 <= t.ucs && t.ucs + HexDigit(d) < 0x1_0000
    ensures var v := t.ucs + HexDigit(d);
            UnicodeMove(t, d) == Advance(t.(ucs := v, stPos := 4).In(t.top.saved).Append(Utf8(v)))
  {
    hide Utf8, Decodes, TopOk;
    assert HexWeight(3) == 1;
  }

  /** The fourth digit. */
  lemma LastHexGoes(t: Tok, d: char) returns (u: Tok)
    requires Valid(t) && t.top.state == EscapeUnicode && IsHexChar(d) && t.stPos == 3
    requires 0 <= t.ucs && t.ucs + HexDigit(d) < 0x1_0000
    ensures var v := t.ucs + HexDigit(d);
            Goes(t, [d], u) && u == t.(ucs := v, stPos := 4).In(t.top.saved).Append(Utf8(v))
  {
    hide FeedObj, RunObj, Utf8, Decodes, TopOk, UnicodeMove;
    var v := t.ucs + HexDigit(d);
    u := t.(ucs := v, stPos := 4).In(t.top.saved).Append(Utf8(v));
    LastHexMove(t, d);
    assert Dispatch(t, Null, d) == UnicodeMove(t, d);
    hide Dispatch;
    FeedMore(t, d, u);
  }

  /** The character d stands for the number n in base sixteen. */
  predicate HexDenotes(d: char, n: int) {
    if 0 <= n < 10 then d as int == '0' as int + n else 10 <= n < 16 && d as int == 'a' as int + n - 10
  }

  /** Four digits in base sixteen that make u. */
  ghost predicate HexSpells(ds: string, u: nat) {
    |ds| == 4 && exists a, b, c, d ::
      && HexDenotes(ds[0], a) && HexDenotes(ds[1], b) && HexDenotes(ds[2], c) && HexDenotes(ds[3], d)
      && u == 4096 * a + 256 * b + 16 * c + d
  }

  lemma HexDenotesDigit(d: char, n: int)
    requires HexDenotes(d, n)
    ensures IsHexChar(d) && HexDigit(d) == n && 0 <= n < 16
  {
  }

  /** A unicode escape in a string or key appends the character its digits spell, in UTF-8. */
  lemma {:induction false} UnicodeEscapeGoes(t: Tok, ds: string, u: nat) returns (z: Tok, bs: string)
    requires Valid(t) && Quoting(t) && HexSpells(ds, u)
    ensures Goes(t, "\\u" + ds, z) && Grown(t, bs, z) && Decodes(bs, u) && bs == Utf8(u)
  {
    hide FeedObj, RunObj, Dispatch, Feed, Decodes, Utf8, HexDenotes, IsHexChar, HexDigit;
    var a, b, c, d :|
      && HexDenotes(ds[0], a) && HexDenotes(ds[1], b) && HexDenotes(ds[2], c) && HexDenotes(ds[3], d)
      && u == 4096 * a + 256 * b + 16 * c + d;
    HexDenotesDigit(ds[0], a);
    HexDenotesDigit(ds[1], b);
    HexDenotesDigit(ds[2], c);
    HexDenotesDigit(ds[3], d);
    var v1 := UnicodeOpens(t);
    var v2 := HexGoes(v1, ds[0]);
    GoesOn(t, "\\u", v1, [ds[0]], v2);
    var v3 := HexGoes(v2, ds[1]);
    GoesOn(t, "\\u" + [ds[0]], v2, [ds[1]], v3);
    var v4 := HexGoes(v3, ds[2]);
    GoesOn(t, "\\u" + [ds[0]] + [ds[1]], v3, [ds[2]], v4);
    z := LastHexGoes(v4, ds[3]);
    GoesOn(t, "\\u" + [ds[0]] + [ds[1]] + [ds[2]], v4, [ds[3]], z);
    bs := Utf8(u);
    assert "\\u" + [ds[0]] + [ds[1]] + [ds[2]] + [ds[3]] == "\\u" + ds;
  }

  /** The escape of a control character. */
  lemma ControlGoes(t: Tok, c: char) returns (z: Tok)
    requires Valid(t) && Quoting(t) && c < ' '
    ensures Goes(t, "\\u00" + [HexChar(c as int / 16), HexChar(c as int % 16)], z) && Grown(t, [c], z)
  {
    hide FeedObj, RunObj, Dispatch, Feed;
    var a, b := c as int / 16, c as int % 16;
    var ds := "00" + [HexChar(a), HexChar(b)];
    assert HexDenotes(ds[0], 0) && HexDenotes(ds[1], 0) && HexDenotes(ds[2], a) && HexDenotes(ds[3], b);
    assert HexSpells(ds, c as int);
    var bs;
    z, bs := UnicodeEscapeGoes(t, ds, c as int);
    assert "\\u" + ds == "\\u00" + [HexChar(a), HexChar(b)];
    assert bs == [c];
  }

  lemma EscapeCharGoes(t: Tok, c: char) returns (u: Tok)
    requires Valid(t) && Quoting(t) && t.quote == '"' && c != NUL
    ensures Goes(t, EscapeChar(c), u) && Grown(t, [c], u)
  {
    if !Escaped(c) {
      u := PlainCharGoes(t, c);
    } else if EscapeChar(c)[1] == 'u' {
      u := ControlGoes(t, c);
    } else {
      u := ShortEscapeGoes(t, EscapeChar(c)[1], c);
      assert EscapeChar(c) == ['\\', EscapeChar(c)[1]];
    }
  }

  /** The body of a quoted string puts exactly the string into the buffer. */
  lemma {:induction false} EscapeGoes(t: Tok, s: string) returns (u: Tok)
    requires Valid(t) && Quoting(t) && t.quote == '"' && NUL !in s
    ensures Goes(t, Escape(s), u) && Grown(t, s, u)
    decreases |s|
  {
    hide FeedObj, RunObj, Dispatch;
    if s == "" {
      u := t;
      assert t.pb + s == t.pb;
      RunEmpty(t);
    } else {
      var v := EscapeCharGoes(t, s[0]);
      u := EscapeGoes(v, s[1..]);
      GoesOn(t, EscapeChar(s[0]), v, Escape(s[1..]), u);
      assert t.pb + s == t.pb + [s[0]] + s[1..];
    }
  }

  // ---------- scalars ----------

  /** The characters that may follow a value. */
  predicate Delimits(c: char) { c == ',' || c == ']' || c == '}' || c == '/' || c == NUL || IsSpace(c) }

  /** The text of a value was read: for the next character the tokener acts as in
      `w`, where the value is complete and waits to be handed down. */
  ghost predicate Holding(t: Tok, v: Json, u: Tok, w: Tok, c: char) {
    && Valid(u) && Valid(w) && Feed(u, c) == Feed(w, c)
    && w.below == t.below && w.top == Level(EatWs, Finish, v, None)
  }

  predicate StartsValue(c: char) {
    IsDigit(c) || c == '-' || c in {'n', 'N', 't', 'T', 'f', 'F'} || c == '"' || c == '\'' || c == '[' || c == '{'
  }

  lemma IntLexeme(i: int)
    ensures NumberChars(IntText(i)) && !HasPoint(IntText(i)) && ScanInt(IntText(i)) == Some(i)
    ensures IntText(i) != "" && (IsDigit(IntText(i)[0]) || IntText(i)[0] == '-')
  {
    ScanIntText(i);
    var d := Numeral(if i < 0 then -i else i);
    assert forall k :: 0 <= k < |d| ==> IsDigit(d[k]);
  }

  lemma {:induction false} FirstChar(v: Json)
    ensures Text(v) != "" && StartsValue(Text(v)[0])
  {
    match v
    case Int(i) => IntLexeme(i);
    case Double(d) => assert IsDigit(Numeral(Millionths(d) / 1000000)[0]);
    case _ =>
  }

  /** Up to the start state of a fresh level. */
  lemma FeedStart(t: Tok, c: char)
    requires Valid(t) && t.top == FRESH && StartsValue(c)
    ensures Valid(t.In(Start)) && Feed(t, c) == Feed(t.In(Start), c)
  {
    FeedResume(t, c);
  }

  /** Into the state that gathers a word or a number, with the same character. */
  lemma FeedToken(t: Tok, c: char, u: Tok)
    requires Valid(t) && t.top == FRESH && StartsValue(c) && StartMove(t.In(Start), c) == Redo(u)
    ensures Valid(u) && Feed(t, c) == Feed(u, c)
  {
    hide FeedObj;
    FeedStart(t, c);
    FeedRedo(t.In(Start), c, u);
  }

  lemma NullValueGoes(s: string, t: Tok, c: char) returns (u: Tok, w: Tok)
    requires Cased("null", s) && Valid(t) && t.top == FRESH && Delimits(c)
    ensures Goes(t, s, u) && Holding(t, Null, u, w, c)
  {
    hide FeedObj, RunObj, Dispatch, Cased;
    CasedLength("null", s);
    var t1 := t.In(NullWord).(pb := "", stPos := 0);
    FirstCased("null", s);
    FeedToken(t, s[0], t1);
    SameStart(t, t1, s);
    u := NullGoes(t1, s, 0);
    w := NullEnds(u, s, c);
  }

  lemma FirstCased(word: string, s: string)
    requires Cased(word, s) && word != ""
    ensures s != "" && (s[0] == word[0] || s[0] as int == word[0] as int - 32)
  {
  }

  lemma NullEnds(u: Tok, s: string, c: char) returns (w: Tok)
    requires Valid(u) && u.top.state == NullWord && Cased("null", s) && u.pb == s && u.stPos == 4
    ensures w == AfterValue(u.Append([c]), Null) && Valid(w) && Feed(u, c) == Feed(w, c)
  {
    hide FeedObj;
    CasedSame("null", s, 4);
    w := AfterValue(u.Append([c]), Null);
    assert SameWord("null", u.Append([c]).pb, 4);
    FeedRedo(u, c, w);
  }

  lemma BooleanEnds(u: Tok, b: bool, s: string, c: char) returns (w: Tok)
    requires Valid(u) && u.top.state == Boolean && Cased(Word(b), s) && u.pb == s && u.stPos == |s| == |Word(b)|
    ensures w == AfterValue(u.Append([c]), Bool(b)) && Valid(w) && Feed(u, c) == Feed(w, c)
  {
    hide FeedObj;
    CasedSame(Word(b), s, |s|);
    w := AfterValue(u.Append([c]), Bool(b));
    assert SameWord(Word(b), u.Append([c]).pb, |s|);
    CasedChar(Word(b), s, 0);
    assert u.Append([c]).pb[0] == s[0];
    FeedRedo(u, c, w);
  }

  lemma BoolValueGoes(b: bool, s: string, t: Tok, c: char) returns (u: Tok, w: Tok)
    requires Cased(Word(b), s) && Valid(t) && t.top == FRESH && Delimits(c)
    ensures Goes(t, s, u) && Holding(t, Bool(b), u, w, c)
  {
    hide FeedObj, RunObj, Dispatch, Cased;
    CasedLength(Word(b), s);
    var t1 := t.In(Boolean).(pb := "", stPos := 0);
    FirstCased(Word(b), s);
    FeedToken(t, s[0], t1);
    SameStart(t, t1, s);
    u := BooleanGoes(t1, b, s, 0);
    w := BooleanEnds(u, b, s, c);
  }

  lemma NumberEnds(u: Tok, v: Json, c: char) returns (w: Tok)
    requires Valid(u) && u.top.state == Number && Delimits(c) && NumberValue(u.pb, u.isDouble) == Some(v)
    ensures w == AfterValue(u, v) && Valid(w) && Feed(u, c) == Feed(w, c)
  {
    w := AfterValue(u, v);
    FeedRedo(u, c, w);
  }

  /** A number token: its lexeme decides the value. */
  lemma NumberValueGoes(s: string, v: Json, t: Tok, c: char) returns (u: Tok, w: Tok)
    requires Valid(t) && t.top == FRESH && Delimits(c)
    requires s != "" && (IsDigit(s[0]) || s[0] == '-') && NumberChars(s) && NumberValue(s, HasPoint(s)) == Some(v)
    ensures Goes(t, s, u) && Holding(t, v, u, w, c)
  {
    hide FeedObj, RunObj, Dispatch;
    var t1 := t.In(Number).(pb := "", isDouble := false);
    FeedToken(t, s[0], t1);
    SameStart(t, t1, s);
    NumberGoes(t1, s);
    u := t1.Append(s).(isDouble := HasPoint(s));
    assert u.pb == s;
    w := NumberEnds(u, v, c);
  }

  lemma DoubleLexeme(d: real)
    ensures var s := DoubleText(d); NumberChars(s) && NumberValue(s, HasPoint(s)) == Some(Double(Rounded(d)))
  {
    hide Millionths, Numeral, Padded, ScanDouble, Rounded;
    var w, f, s := Numeral(Millionths(d) / 1000000), Padded(Millionths(d), 6), DoubleText(d);
    ScanDoubleText(d);
    assert forall k :: 0 <= k < |w| ==> IsDigit(w[k]);
    assert forall k :: 0 <= k < |f| ==> IsDigit(f[k]);
    assert s[if d < 0.0 then |w| + 1 else |w|] == '.';
  }

  lemma StringValueGoes(s: CString, t: Tok, c: char) returns (u: Tok, w: Tok)
    requires Valid(t) && t.top == FRESH
    ensures Goes(t, "\"" + Escape(s) + "\"", u) && Holding(t, Str(s), u, w, c)
  {
    hide FeedObj, RunObj;
    FeedStart(t, '"');
    var t1 := t.In(StringBody).(pb := "", quote := '"');
    FeedMore(t.In(Start), '"', t1);
    GoesOne(t, '"', t1);
    var t2 := EscapeGoes(t1, s);
    assert t2.pb == s;
    CStrOfCString(s);
    u := AfterValue(t2, Str(s));
    FeedMore(t2, '"', u);
    GoesOn(t, ['"'], t1, Escape(s), t2);
    GoesOn(t, ['"'] + Escape(s), t2, ['"'], u);
    w := u;
  }

  lemma ScalarGoes(v: Json, t: Tok, c: char) returns (u: Tok, w: Tok)
    requires Valid(t) && t.top == FRESH && Delimits(c) && !v.Arr? && !v.Obj?
    ensures Goes(t, Text(v), u) && Holding(t, Settled(v), u, w, c)
  {
    hide FeedObj, RunObj, Dispatch;
    match v
    case Null => u, w := NullValueGoes("null", t, c);
    case Bool(b) => u, w := BoolValueGoes(b, Word(b), t, c);
    case Int(i) =>
      IntLexeme(i);
      u, w := NumberValueGoes(IntText(i), v, t, c);
    case Double(d) =>
      DoubleLexeme(d);
      FirstChar(v);
      u, w := NumberValueGoes(DoubleText(d), Settled(v), t, c);
    case Str(s) => u, w := StringValueGoes(s, t, c);
  }

  // ---------- containers: single moves ----------

  /** A container read up to where an element or member may follow. */
  ghost predicate Open(a: Tok, next: State, v: Json) {
    Valid(a) && a.top == Level(EatWs, next, v, None)
  }

  lemma OpensContainer(t: Tok, c: char) returns (a: Tok)
    requires Valid(t) && t.top == FRESH && (c == '[' || c == '{')
    ensures Goes(t, [c], a) && a.below == t.below
    ensures if c == '[' then Open(a, Array, Arr([])) else Open(a, FieldStart, Obj([]))
  {
    hide FeedObj, RunObj;
    a := t.(top := Level(EatWs, if c == '[' then Array else FieldStart, if c == '[' then Arr([]) else Obj([]), None));
    FeedStart(t, c);
    FeedMore(t.In(Start), c, a);
    GoesOne(t, c, a);
  }

  /** The closing bracket, after a blank, of an empty container. */
  lemma ClosesEmpty(a: Tok, isArray: bool) returns (z: Tok)
    requires if isArray then Open(a, Array, Arr([])) else Open(a, FieldStart, Obj([]))
    ensures Goes(a, if isArray then " ]" else " }", z) && z == a.(top := a.top.(saved := Finish))
  {
    hide FeedObj, RunObj;
    var c := if isArray then ']' else '}';
    z := a.(top := a.top.(saved := Finish));
    SkipBlank(a);
    FeedResume(a, c);
    FeedMore(a.In(a.top.saved), c, z);
    GoesOne(a, c, z);
    GoesOn(a, " ", a, [c], z);
    assert " " + [c] == if isArray then " ]" else " }";
  }

  /** One level up for the next value. */
  lemma Descends(a: Tok, waiting: State, c: char) returns (t: Tok)
    requires Valid(a) && a.top.state == EatWs && StartsValue(c) && a.Depth() < MAX_DEPTH - 1
    requires (a.top.saved == Array && waiting == ArrayAdd) || (a.top.saved == ObjValue && waiting == ObjValueAdd)
    ensures Valid(t) && t.top == FRESH && t.below == a.below + [a.top.(state := waiting)]
    ensures Feed(a, c) == Feed(t, c)
  {
    hide FeedObj, RunObj;
    FeedResume(a, c);
    t := Push(a.In(a.top.saved), waiting);
    FeedRedo(a.In(a.top.saved), c, t);
  }

  /** A complete value is handed to the waiting level, which then expects a separator. */
  lemma HandsDown(w: Tok, b: seq<Level>, l: Level, c: char) returns (z: Tok)
    requires Valid(w) && w.top.state == EatWs && w.top.saved == Finish && !IsSpace(c) && c != '/'
    requires Waiting(l) && w.below == b + [l]
    ensures var m := Adopt(l, w.top.current); z == w.(below := b, top := m.(state := m.saved))
    ensures Valid(z) && Feed(w, c) == Feed(z, c)
  {
    hide RunObj;
    FeedResume(w, c);
    var f := w.In(Finish);
    var p := w.(below := b, top := l);
    assert f.below[..f.Depth() - 1] == b && f.below[f.Depth() - 1] == l;
    assert Dispatch(f, Null, c) == Pop(p, w.top.current);
    assert Feed(f, c) == FeedObj(p, w.top.current, c);
    var q := p.(top := Adopt(l, w.top.current));
    assert Dispatch(p, w.top.current, c) == Redo(q);
    assert FeedObj(p, w.top.current, c) == FeedObj(q, w.top.current, c);
    ObjIrrelevant(q, w.top.current, c);
    FeedResume(q, c);
    z := q.In(q.top.saved);
  }

  /** What a level that waits in `next` has become when it holds one value more. */
  function Fuller(l: Level, v: Json, next: State): Level
    requires Waiting(l)
  {
    Adopt(l, v).(saved := next)
  }

  lemma Comma(t: Tok, v: Json, u: Tok, w: Tok, b: seq<Level>, l: Level) returns (a: Tok)
    requires Valid(t) && t.below == b + [l] && Waiting(l) && Holding(t, v, u, w, ',')
    ensures Valid(a) && Goes(u, ",", a) && Goes(a, " ", a) && a.below == b
    ensures a.top == Fuller(l, v, if l.state == ArrayAdd then Array else FieldStart)
  {
    hide FeedObj, RunObj;
    var z := HandsDown(w, b, l, ',');
    a := z.(top := Fuller(l, v, if l.state == ArrayAdd then Array else FieldStart));
    FeedMore(z, ',', a);
    GoesOne(u, ',', a);
    SkipBlank(a);
  }

  lemma Closes(t: Tok, v: Json, u: Tok, w: Tok, b: seq<Level>, l: Level) returns (z: Tok)
    requires Valid(t) && t.below == b + [l] && Waiting(l) && Holding(t, v, u, w, ' ')
    ensures Goes(u, if l.state == ArrayAdd then " ]" else " }", z)
    ensures z.below == b && z.top == Fuller(l, v, Finish)
  {
    hide FeedObj, RunObj;
    var c := if l.state == ArrayAdd then ']' else '}';
    SkipBlank(w);
    GoesOne(u, ' ', w);
    var y := HandsDown(w, b, l, c);
    z := y.(top := Fuller(l, v, Finish));
    FeedMore(y, c, z);
    GoesOne(w, c, z);
    GoesOn(u, [' '], w, [c], z);
    assert [' '] + [c] == if l.state == ArrayAdd then " ]" else " }";
  }

  lemma KeyOpens(a: Tok) returns (t: Tok)
    requires Valid(a) && a.top.state == EatWs && a.top.saved == FieldStart
    ensures Goes(a, " \"", t) && t == a.In(Field).(quote := '"', pb := "")
  {
    hide FeedObj, RunObj;
    SkipBlank(a);
    FeedResume(a, '"');
    t := a.In(Field).(quote := '"', pb := "");
    FeedMore(a.In(FieldStart), '"', t);
    GoesOne(a, '"', t);
    GoesOn(a, " ", a, ['"'], t);
    assert " " + ['"'] == " \"";
  }

  /** From a member position over the quoted key and the colon to its value. */
  lemma KeyGoes(a: Tok, k: CString) returns (g: Tok)
    requires Valid(a) && a.top.state == EatWs && a.top.saved == FieldStart
    ensures Valid(g) && Goes(a, KeyText(k, true), g)
    ensures g.below == a.below && g.top == a.top.(saved := ObjValue, field := Some(k))
  {
    hide FeedObj, RunObj, Dispatch, Escape;
    var t1 := KeyOpens(a);
    var t2 := EscapeGoes(t1, k);
    GoesOn(a, " \"", t1, Escape(k), t2);
    assert t2.pb == k;
    var t3 := KeyEnds(t2, k);
    GoesOn(a, " \"" + Escape(k), t2, ['"'], t3);
    g := ColonGoes(t3);
    GoesOn(a, " \"" + Escape(k) + ['"'], t3, ": ", g);
    assert " \"" + Escape(k) + ['"'] + ": " == KeyText(k, true);
  }

  lemma KeyEnds(t: Tok, k: CString) returns (u: Tok)
    requires Valid(t) && t.top.state == Field && t.quote == '"' && t.pb == k
    ensures Goes(t, ['"'], u) && u == t.(top := t.top.(field := Some(k), state := EatWs, saved := FieldEnd))
  {
    hide FeedObj, RunObj;
    CStrOfCString(k);
    u := t.(top := t.top.(field := Some(k), state := EatWs, saved := FieldEnd));
    FeedMore(t, '"', u);
  }

  lemma ColonGoes(t: Tok) returns (u: Tok)
    requires Valid(t) && t.top.state == EatWs && t.top.saved == FieldEnd
    ensures Goes(t, ": ", u) && u == t.(top := t.top.(saved := ObjValue))
  {
    hide FeedObj, RunObj;
    u := t.(top := t.top.(saved := ObjValue));
    FeedResume(t, ':');
    FeedMore(t.In(FieldEnd), ':', u);
    GoesOne(t, ':', u);
    SkipBlank(u);
    GoesOn(t, [':'], u, " ", u);
    assert [':'] + " " == ": ";
  }

  // ---------- values ----------

  /** The elements of an array from one of its element positions on. */
  function ElemsFrom(es: seq<Json>): string
    requires es != []
  {
    Text(es[0]) + ElemsText(es[1..], false)
  }

  function MembersFrom(ms: seq<Member<Json>>): string
    requires ms != []
  {
    KeyText(ms[0].key, true) + Text(ms[0].value) + MembersText(ms[1..], false)
  }

  lemma ElemsFromNext(es: seq<Json>)
    requires |es| > 1
    ensures ElemsFrom(es) + " ]" == Text(es[0]) + ("," + (" " + (ElemsFrom(es[1..]) + " ]")))
  {
    hide Text;
    var a, b, c := Text(es[0]), Text(es[1]), ElemsText(es[1..][1..], false);
    assert ElemsText(es[1..], false) == ", " + b + c;
    assert ", " + b + c == "," + (" " + (b + c));
    Assoc(a, ",", " " + (b + c));
    assert a + ("," + (" " + (b + c))) + " ]" == a + ("," + (" " + ((b + c) + " ]")));
  }

  lemma {:induction false} ElemsFromLast(es: seq<Json>)
    requires |es| == 1
    ensures ElemsFrom(es) == Text(es[0]) && SettledElems(es) == [Settled(es[0])]
  {
  }

  lemma {:induction false} MembersFromLast(ms: seq<Member<Json>>, done: seq<Member<Json>>)
    requires |ms| == 1
    ensures MembersFrom(ms) + " }" == KeyText(ms[0].key, true) + (Text(ms[0].value) + " }")
    ensures SettledMembers(ms, done) == Put(done, ms[0].key, Settled(ms[0].value))
  {
  }

  lemma MembersFromNext(ms: seq<Member<Json>>)
    requires |ms| > 1
    ensures MembersFrom(ms) + " }"
            == KeyText(ms[0].key, true) + (Text(ms[0].value) + ("," + (MembersFrom(ms[1..]) + " }")))
  {
    hide Text, Escape;
    var m, rest := ms[1], MembersText(ms[1..][1..], false);
    assert KeyText(m.key, false) == "," + KeyText(m.key, true);
    assert MembersText(ms[1..], false) == "," + (KeyText(m.key, true) + Text(m.value) + rest);
  }

  /** Reading the text of a value on a fresh level leaves the value behind. */
  lemma {:induction false} ValueGoes(v: Json, t: Tok, c: char) returns (u: Tok, w: Tok)
    requires Valid(t) && t.top == FRESH && t.Depth() + Height(v) < MAX_DEPTH && Delimits(c)
    ensures Goes(t, Text(v), u) && Holding(t, Settled(v), u, w, c)
    decreases v, 0
  {
    hide FeedObj, RunObj, Run, Dispatch, Waiting, Goes;
    match v
    case Arr(es) =>
      var a := OpensContainer(t, '[');
      if es == [] {
        u := ClosesEmpty(a, true);
        GoesOn(t, ['['], a, " ]", u);
      } else {
        SkipBlank(a);
        u := ElemsGo(es, a);
        GoesOn(a, " ", a, ElemsFrom(es) + " ]", u);
        GoesOn(t, ['['], a, " " + (ElemsFrom(es) + " ]"), u);
      }
      ArrayText(es);
      assert [] + SettledElems(es) == SettledElems(es);
      w := u;
    case Obj(ms) =>
      var a := OpensContainer(t, '{');
      if ms == [] {
        u := ClosesEmpty(a, false);
        GoesOn(t, ['{'], a, " }", u);
      } else {
        u := MembersGo(ms, a);
        GoesOn(t, ['{'], a, MembersFrom(ms) + " }", u);
      }
      ObjectText(ms);
      w := u;
    case _ =>
      u, w := ScalarGoes(v, t, c);
  }

  lemma ArrayText(es: seq<Json>)
    ensures Text(Arr(es)) == if es == [] then ['['] + " ]" else ['['] + (" " + (ElemsFrom(es) + " ]"))
  {
    if es != [] {
      assert ElemsText(es, true) == " " + Text(es[0]) + ElemsText(es[1..], false);
    }
  }

  lemma ObjectText(ms: seq<Member<Json>>)
    ensures Text(Obj(ms)) == if ms == [] then ['{'] + " }" else ['{'] + (MembersFrom(ms) + " }")
  {
  }

  lemma ElemsJoin(es: seq<Json>, a: Tok, u: Tok, b: Tok, z: Tok)
    requires |es| > 1 && Goes(a, Text(es[0]), u) && Goes(u, ",", b) && Goes(b, " ", b)
    requires Goes(b, ElemsFrom(es[1..]) + " ]", z)
    ensures Goes(a, ElemsFrom(es) + " ]", z)
  {
    hide Goes, Text, ElemsFrom;
    GoesOn(b, " ", b, ElemsFrom(es[1..]) + " ]", z);
    GoesOn(u, ",", b, " " + (ElemsFrom(es[1..]) + " ]"), z);
    GoesOn(a, Text(es[0]), u, "," + (" " + (ElemsFrom(es[1..]) + " ]")), z);
    ElemsFromNext(es);
  }

  lemma ElemsHigher(es: seq<Json>)
    requires es != []
    ensures Height(es[0]) <= ElemsHeight(es) && ElemsHeight(es[1..]) <= ElemsHeight(es)
  {
  }

  lemma SettledNext(done: seq<Json>, es: seq<Json>)
    requires es != []
    ensures done + [Settled(es[0])] + SettledElems(es[1..]) == done + SettledElems(es)
  {
    hide Settled;
    assert SettledElems(es) == [Settled(es[0])] + SettledElems(es[1..]);
  }

  lemma {:induction false} ElemsGo(es: seq<Json>, a: Tok) returns (z: Tok)
    requires es != [] && Valid(a) && a.top.current.Arr? && Open(a, Array, a.top.current)
    requires a.Depth() + 1 + ElemsHeight(es) < MAX_DEPTH
    ensures Goes(a, ElemsFrom(es) + " ]", z) && z.below == a.below
    ensures z.top == Level(EatWs, Finish, Arr(a.top.current.elems + SettledElems(es)), None)
    decreases es, 1
  {
    hide FeedObj, RunObj, Run, Dispatch, Feed, TopOk, Text, ElemsText, MembersText, ElemsFrom, MembersFrom, KeyText,
         Settled, Goes, Holding, Valid, Height, ElemsHeight, SettledElems;
    var done, e, l := a.top.current.elems, es[0], a.top.(state := ArrayAdd);
    ElemsHigher(es);
    FirstChar(e);
    var t := Descends(a, ArrayAdd, Text(e)[0]);
    var u, w := ValueGoes(e, t, if |es| == 1 then ' ' else ',');
    StartGoes(a, t, Text(e), u);
    if |es| == 1 {
      z := Closes(t, Settled(e), u, w, a.below, l);
      GoesOn(a, Text(e), u, " ]", z);
      ElemsFromLast(es);
    } else {
      var b := Comma(t, Settled(e), u, w, a.below, l);
      z := ElemsGo(es[1..], b);
      ElemsJoin(es, a, u, b, z);
      SettledNext(done, es);
    }
  }

  lemma {:induction false} MembersGo(ms: seq<Member<Json>>, a: Tok) returns (z: Tok)
    requires ms != [] && Valid(a) && a.top.current.Obj? && Open(a, FieldStart, a.top.current)
    requires a.Depth() + 1 + MembersHeight(ms) < MAX_DEPTH
    ensures Goes(a, MembersFrom(ms) + " }", z) && z.below == a.below
    ensures z.top == Level(EatWs, Finish, Obj(SettledMembers(ms, a.top.current.members)), None)
    decreases ms, 1
  {
    hide FeedObj, RunObj, Run, Dispatch, Feed, TopOk, Text, ElemsText, MembersText, ElemsFrom, MembersFrom, KeyText,
         Settled, Goes, Holding, Valid;
    var done, m := a.top.current.members, ms[0];
    var g := KeyGoes(a, m.key);
    var l := g.top.(state := ObjValueAdd);
    FirstChar(m.value);
    var t := Descends(g, ObjValueAdd, Text(m.value)[0]);
    var u, w := ValueGoes(m.value, t, if |ms| == 1 then ' ' else ',');
    StartGoes(g, t, Text(m.value), u);
    if |ms| == 1 {
      z := Closes(t, Settled(m.value), u, w, a.below, l);
      GoesOn(g, Text(m.value), u, " }", z);
      GoesOn(a, KeyText(m.key, true), g, Text(m.value) + " }", z);
      MembersFromLast(ms, done);
    } else {
      var b := Comma(t, Settled(m.value), u, w, a.below, l);
      z := MembersGo(ms[1..], b);
      GoesOn(u, ",", b, MembersFrom(ms[1..]) + " }", z);
      GoesOn(g, Text(m.value), u, "," + (MembersFrom(ms[1..]) + " }"), z);
      GoesOn(a, KeyText(m.key, true), g, Text(m.value) + ("," + (MembersFrom(ms[1..]) + " }")), z);
      MembersFromNext(ms);
    }
  }

  // ---------- nesting that is too deep ----------

  ghost predicate FailsDeep(t: Tok, s: string) {
    Valid(t) && Run(t, s).halted && Run(t, s).err == TooDeep
  }

  lemma FailsLater(t: Tok, a: string, u: Tok, b: string)
    requires Goes(t, a, u) && FailsDeep(u, b)
    ensures FailsDeep(t, a + b)
  {
    RunAppend(t, a, b);
  }

  lemma FailsAnyway(t: Tok, a: string, b: string)
    requires FailsDeep(t, a)
    ensures FailsDeep(t, a + b)
  {
    RunAppend(t, a, b);
  }

  /** No level is left for the value that starts with c. */
  lemma NoLevelLeft(a: Tok, s: string)
    requires Valid(a) && a.top.state == EatWs && (a.top.saved == Array || a.top.saved == ObjValue)
    requires a.Depth() == MAX_DEPTH - 1 && s != "" && StartsValue(s[0])
    ensures FailsDeep(a, s)
  {
    hide RunObj;
    FeedResume(a, s[0]);
    var b := a.In(a.top.saved);
    SameStart(a, b, s);
    RunMove(b, Null, s);
  }

  lemma {:induction false} ValueTooDeep(v: Json, t: Tok)
    requires Valid(t) && t.top == FRESH && t.Depth() + Height(v) >= MAX_DEPTH
    ensures FailsDeep(t, Text(v))
    decreases v, 0
  {
    hide FeedObj, RunObj, Dispatch, TopOk, Waiting;
    match v
    case Arr(es) =>
      var a := OpensContainer(t, '[');
      SkipBlank(a);
      ElemsTooDeep(es, a);
      FailsAnyway(a, ElemsFrom(es), " ]");
      FailsLater(a, " ", a, ElemsFrom(es) + " ]");
      FailsLater(t, ['['], a, " " + (ElemsFrom(es) + " ]"));
      ArrayText(es);
    case Obj(ms) =>
      var a := OpensContainer(t, '{');
      MembersTooDeep(ms, a);
      FailsAnyway(a, MembersFrom(ms), " }");
      FailsLater(t, ['{'], a, MembersFrom(ms) + " }");
      ObjectText(ms);
    case _ =>
  }

  lemma {:induction false} ElemsTooDeep(es: seq<Json>, a: Tok)
    requires es != [] && Valid(a) && a.top.current.Arr? && Open(a, Array, a.top.current)
    requires a.Depth() + 1 + ElemsHeight(es) >= MAX_DEPTH
    ensures FailsDeep(a, ElemsFrom(es))
    decreases es, 1
  {
    hide FeedObj, RunObj, Dispatch, Feed, TopOk, Text, Settled;
    var e, l, rest := es[0], a.top.(state := ArrayAdd), ElemsText(es[1..], false);
    FirstChar(e);
    if a.Depth() == MAX_DEPTH - 1 {
      NoLevelLeft(a, Text(e));
      FailsAnyway(a, Text(e), rest);
    } else {
      var t := Descends(a, ArrayAdd, Text(e)[0]);
      SameStart(a, t, Text(e));
      if t.Depth() + Height(e) >= MAX_DEPTH {
        ValueTooDeep(e, t);
        FailsAnyway(a, Text(e), rest);
      } else {
        var u, w := ValueGoes(e, t, ',');
        var b := Comma(t, Settled(e), u, w, a.below, l);
        ElemsTooDeep(es[1..], b);
        FailsLater(b, " ", b, ElemsFrom(es[1..]));
        FailsLater(u, ",", b, " " + ElemsFrom(es[1..]));
        FailsLater(a, Text(e), u, "," + (" " + ElemsFrom(es[1..])));
        CommaBeforeElem(es[1..]);
      }
    }
  }

  lemma {:induction false} MembersTooDeep(ms: seq<Member<Json>>, a: Tok)
    requires ms != [] && Valid(a) && a.top.current.Obj? && Open(a, FieldStart, a.top.current)
    requires a.Depth() + 1 + MembersHeight(ms) >= MAX_DEPTH
    ensures FailsDeep(a, MembersFrom(ms))
    decreases ms, 1
  {
    hide FeedObj, RunObj, Dispatch, Feed, TopOk, Text, Settled, Escape;
    var m, rest := ms[0], MembersText(ms[1..], false);
    var key := KeyText(m.key, true);
    var g := KeyGoes(a, m.key);
    var l := g.top.(state := ObjValueAdd);
    FirstChar(m.value);
    if g.Depth() == MAX_DEPTH - 1 {
      NoLevelLeft(g, Text(m.value));
      FailsLater(a, key, g, Text(m.value));
      FailsAnyway(a, key + Text(m.value), rest);
    } else {
      var t := Descends(g, ObjValueAdd, Text(m.value)[0]);
      SameStart(g, t, Text(m.value));
      if t.Depth() + Height(m.value) >= MAX_DEPTH {
        ValueTooDeep(m.value, t);
        FailsLater(a, key, g, Text(m.value));
        FailsAnyway(a, key + Text(m.value), rest);
      } else {
        var u, w := ValueGoes(m.value, t, ',');
        var b := Comma(t, Settled(m.value), u, w, g.below, l);
        MembersTooDeep(ms[1..], b);
        GoesOn(a, key, g, Text(m.value), u);
        FailsLater(u, ",", b, MembersFrom(ms[1..]));
        FailsLater(a, key + Text(m.value), u, "," + MembersFrom(ms[1..]));
        CommaBeforeMember(ms[1..]);
      }
    }
  }

  lemma {:induction false} CommaBeforeElem(es: seq<Json>)
    requires es != []
    ensures ElemsText(es, false) == "," + (" " + ElemsFrom(es))
  {
    hide Text;
    assert ElemText(es[0], false) == "," + (" " + Text(es[0]));
    assert "," + (" " + Text(es[0])) + ElemsText(es[1..], false)
           == "," + (" " + (Text(es[0]) + ElemsText(es[1..], false)));
  }

  lemma {:induction false} CommaBeforeMember(ms: seq<Member<Json>>)
    requires ms != []
    ensures MembersText(ms, false) == "," + MembersFrom(ms)
  {
    hide Text, Escape;
    var k, v, rest := KeyText(ms[0].key, true), Text(ms[0].value), MembersText(ms[1..], false);
    assert KeyText(ms[0].key, false) == "," + k;
    assert "," + k + v + rest == "," + (k + v + rest);
  }

  // ---------- the round trip ----------

  /** Printing a tree and parsing the text gives the tree back, up to the rounding
      of doubles and the merging of equal keys, if its nesting height is at most 31,
      and the nesting error otherwise. */
  lemma {:induction false} ParsePrinted(v: Json)
    ensures ParseSpec(Text(v) + [NUL]) == if Height(v) <= 31 then Parsed(Settled(v)) else Failed(TooDeep)
  {
    hide RunObj, FeedObj, Text;
    if Height(v) < MAX_DEPTH {
      var u, w := ValueGoes(v, NEW_TOK, NUL);
      RunAppend(NEW_TOK, Text(v), [NUL]);
      SameStart(u, w, [NUL]);
      FeedResume(w, NUL);
      SameStart(w, w.In(Finish), [NUL]);
      RunMove(w.In(Finish), Null, [NUL]);
    } else {
      ValueTooDeep(v, NEW_TOK);
      RunAppend(NEW_TOK, Text(v), [NUL]);
    }
  }

  // ---------- which trees come back unchanged ----------

  /** Every double has at most six decimals, and no object has a key twice. */
  ghost predicate Exact(v: Json) {
    match v
    case Double(d) => SixDecimals(d)
    case Arr(es) => forall i :: 0 <= i < |es| ==> Exact(es[i])
    case Obj(ms) => DistinctKeys(ms) && forall i :: 0 <= i < |ms| ==> Exact(ms[i].value)
    case _ => true
  }

  lemma {:induction false} WithoutLength<V>(ms: seq<Member<V>>, k: CString)
    ensures |Without(ms, k)| <= |ms|
    ensures |Without(ms, k)| == |ms| ==> Without(ms, k) == ms
  {
    if ms != [] {
      WithoutLength(ms[1..], k);
    }
  }

  /** Rebuilding keeps a member list only when no member had to be dropped. */
  lemma {:induction false} SettledMembersLength(ms: seq<Member<Json>>, done: seq<Member<Json>>)
    ensures |SettledMembers(ms, done)| <= |done| + |ms|
    ensures |SettledMembers(ms, done)| == |done| + |ms| && DistinctKeys(done) ==> DistinctKeys(SettledMembers(ms, done))
    decreases |ms|
  {
    if ms != [] {
      var m := ms[0];
      WithoutLength(done, m.key);
      SettledMembersLength(ms[1..], Put(done, m.key, Settled(m.value)));
    }
  }

  function Each(ms: seq<Member<Json>>): seq<Member<Json>> {
    if ms == [] then [] else [Member(ms[0].key, Settled(ms[0].value))] + Each(ms[1..])
  }

  lemma EachNext(done: seq<Member<Json>>, ms: seq<Member<Json>>)
    requires ms != []
    ensures done + [Member(ms[0].key, Settled(ms[0].value))] + Each(ms[1..]) == done + Each(ms)
  {
    hide Settled;
    assert Each(ms) == [Member(ms[0].key, Settled(ms[0].value))] + Each(ms[1..]);
  }

  /** Members with new, distinct keys are appended one by one. */
  lemma {:induction false} SettledMembersFresh(ms: seq<Member<Json>>, done: seq<Member<Json>>)
    requires DistinctKeys(ms) && KeysApart(done, ms)
    ensures SettledMembers(ms, done) == done + Each(ms)
    decreases |ms|
  {
    if ms == [] {
      assert done + Each(ms) == done;
    } else {
      hide Without, Settled, DistinctKeys, KeysApart, Each;
      var v := Settled(ms[0].value);
      KeysApartNext(done, ms, v);
      WithoutFresh(done, ms[0].key);
      assert SettledMembers(ms, done) == SettledMembers(ms[1..], done + [Member(ms[0].key, v)]);
      hide SettledMembers;
      SettledMembersFresh(ms[1..], done + [Member(ms[0].key, v)]);
      EachNext(done, ms);
    }
  }

  lemma {:induction false} ExactElems(es: seq<Json>)
    ensures SettledElems(es) == es <==> forall i :: 0 <= i < |es| ==> Exact(es[i])
    decreases es, 1
  {
    if es != [] {
      var tail := es[1..];
      assert es == [es[0]] + tail;
      ExactIff(es[0]);
      ExactElems(tail);
      assert SettledElems(es)[0] == Settled(es[0]) && SettledElems(es)[1..] == SettledElems(tail);
      assert forall i :: 0 < i < |es| ==> es[i] == tail[i - 1];
      assert forall i :: 0 <= i < |tail| ==> tail[i] == es[i + 1];
    }
  }

  lemma {:induction false} ExactMembers(ms: seq<Member<Json>>)
    ensures Each(ms) == ms <==> forall i :: 0 <= i < |ms| ==> Exact(ms[i].value)
    decreases ms, 1
  {
    if ms != [] {
      var tail := ms[1..];
      assert ms == [ms[0]] + tail;
      var m := ms[0];
      ExactIff(m.value);
      ExactMembers(tail);
      assert Each(ms)[0] == Member(m.key, Settled(m.value)) && Each(ms)[1..] == Each(tail);
      assert forall i :: 0 < i < |ms| ==> ms[i] == tail[i - 1];
      assert forall i :: 0 <= i < |tail| ==> tail[i] == ms[i + 1];
    }
  }

  /** The trees that survive printing unchanged are exactly the exact ones. */
  lemma {:induction false} ExactIff(v: Json)
    ensures Settled(v) == v <==> Exact(v)
    decreases v, 0
  {
    match v
    case Double(d) => RoundedIff(d);
    case Arr(es) => ExactElems(es);
    case Obj(ms) =>
      ExactMembers(ms);
      SettledMembersLength(ms, []);
      if DistinctKeys(ms) {
        SettledMembersFresh(ms, []);
      }
    case _ =>
  }

  /** Parsing undoes printing exactly for exact trees of nesting height at most 31. */
  lemma {:induction false} RoundTripIff(v: Json)
    ensures ParseSpec(Text(v) + [NUL]) == Parsed(v) <==> Height(v) <= 31 && Exact(v)
  {
    hide Text, ParseSpec;
    ParsePrinted(v);
    ExactIff(v);
  }
}
