/** When json_tokener_parse accepts a text that stops inside a container. The end of the C function asks
    whether the saved state of the innermost level is `finish`, and inside a comment that follows an
    element it is, at any depth. */
module Truncation {
  import opened Automaton
  import opened JsonValue
  import opened Lexemes
  import RoundTrip

  /** Only white space and comments save the state `finish`, and only behind a complete value. */
  predicate Orderly(l: Level) {
    match l.state
    case EatWs | CommentStart | Comment | CommentEol | CommentEnd | Finish => true
    case _ => l.saved != Finish
  }

  predicate Quoted(t: Tok) {
    t.top.state.StringBody? || t.top.state.Field? || t.top.state.StringEscape? || t.top.state.EscapeUnicode? ==>
          t.quote != NUL
  }

  ghost predicate InOrder(t: Tok) {
    Orderly(t.top) && Quoted(t) && forall i :: 0 <= i < t.Depth() ==> Orderly(t.below[i])
  }

  /** Inside a comment behind the complete value of a level that is not the outermost. */
  predicate CutInComment(t: Tok) {
    && t.Depth() > 0 && t.top.saved == Finish
    && (t.top.state.Comment? || t.top.state.CommentEol? || t.top.state.CommentEnd?)
  }

  ghost predicate Kept(t: Tok, m: Move) {
    && Orderly(m.tok.top) && Quoted(m.tok)
    && (if m.tok.Depth() > t.Depth() then
          m.tok.Depth() == t.Depth() + 1 && m.tok.below[..t.Depth()] == t.below && Orderly(m.tok.below[t.Depth()])
        else m.tok.below == t.below)
  }

  lemma BlankKept(t: Tok, c: char)
    requires Valid(t) && Orderly(t.top) && Quoted(t)
    requires t.top.state.EatWs? || t.top.state.CommentStart? || t.top.state.Comment? || t.top.state.CommentEol?
             || t.top.state.CommentEnd?
    ensures Kept(t, BlankMove(t, c))
  {
  }

  lemma WordKept(t: Tok, c: char)
    requires Valid(t) && Orderly(t.top) && Quoted(t)
    ensures t.top.state.Start? ==> Kept(t, StartMove(t, c))
    ensures t.top.state.NullWord? ==> Kept(t, NullMove(t, c))
    ensures t.top.state.Boolean? ==> Kept(t, BooleanMove(t, c))
    ensures t.top.state.Number? ==> Kept(t, NumberMove(t, c))
  {
    hide SameWord, NumberValue;
  }

  lemma StringKept(t: Tok, c: char)
    requires Valid(t) && Orderly(t.top) && Quoted(t)
    ensures t.top.state.StringBody? || t.top.state.Field? ==> Kept(t, StringMove(t, c))
    ensures t.top.state.StringEscape? ==> Kept(t, EscapeMove(t, c))
    ensures t.top.state.EscapeUnicode? ==> Kept(t, UnicodeMove(t, c))
  {
    hide Utf8, HexDigit, CStr;
  }

  lemma ContainerKept(t: Tok, c: char)
    requires Valid(t) && Orderly(t.top) && Quoted(t)
    ensures t.top.state.Array? || t.top.state.ArraySep? ==> Kept(t, ArrayMove(t, c))
    ensures t.top.state.FieldStart? || t.top.state.FieldEnd? || t.top.state.ObjValue? || t.top.state.ObjSep? ==>
              Kept(t, ObjectMove(t, c))
  {
  }

  lemma FinishKept(t: Tok)
    requires Valid(t) && InOrder(t) && t.top.state.Finish?
    ensures InOrder(FinishMove(t).tok)
  {
    assert t.Depth() > 0 ==> Waiting(t.below[t.Depth() - 1]);
  }

  lemma AdoptKept(t: Tok, obj: Json)
    requires Valid(t) && InOrder(t) && Adding(t)
    ensures InOrder(t.(top := Adopt(t.top, obj)))
  {
  }

  lemma TopInOrder(t: Tok)
    requires InOrder(t)
    ensures Orderly(t.top) && Quoted(t)
  {
  }

  lemma MoveKept(t: Tok, obj: Json, c: char)
    requires Valid(t) && InOrder(t)
    ensures InOrder(Dispatch(t, obj, c).tok)
  {
    hide Kept, Valid, InOrder, BlankMove, StartMove, NullMove, BooleanMove, NumberMove, StringMove, EscapeMove,
         UnicodeMove, ArrayMove, ObjectMove, FinishMove, Adopt;
    TopInOrder(t);
    match t.top.state {
      case EatWs | CommentStart | Comment | CommentEol | CommentEnd => BlankKept(t, c);
      case Start | NullWord | Boolean | Number => WordKept(t, c);
      case StringBody | Field | StringEscape | EscapeUnicode => StringKept(t, c);
      case Finish => FinishKept(t);
      case ArrayAdd | ObjValueAdd => AdoptKept(t, obj);
      case _ => ContainerKept(t, c);
    }
    if !Adding(t) && !t.top.state.Finish? {
      KeptInOrder(t, Dispatch(t, obj, c));
    }
  }

  lemma KeptInOrder(t: Tok, m: Move)
    requires InOrder(t) && Kept(t, m)
    ensures InOrder(m.tok)
  {
    forall i | 0 <= i < m.tok.Depth() ensures Orderly(m.tok.below[i]) {
      if i < t.Depth() {
        assert m.tok.below[i] == t.below[i];
      }
    }
  }

  /** What a pass over the terminator leads to. */
  ghost predicate NulGoes(t: Tok, m: Move) {
    match m
    case Redo(u) => !CutInComment(t) && !CutInComment(u)
    case Pop(u, o) => !CutInComment(t) && !CutInComment(u)
    case Advance(u) => (AtNul(u, NUL, Success) == Success && u.Depth() > 0) <==> CutInComment(t)
    case Out(u, e) => (AtNul(u, NUL, e) == Success ==> u.Depth() == 0) && !CutInComment(t)
  }

  lemma NulBlank(t: Tok)
    requires Valid(t) && Orderly(t.top)
    requires t.top.state.EatWs? || t.top.state.CommentStart? || t.top.state.Comment? || t.top.state.CommentEol?
             || t.top.state.CommentEnd?
    ensures NulGoes(t, BlankMove(t, NUL))
  {
  }

  lemma NulWord(t: Tok)
    requires Valid(t) && Orderly(t.top)
    ensures t.top.state.Start? ==> NulGoes(t, StartMove(t, NUL))
    ensures t.top.state.NullWord? ==> NulGoes(t, NullMove(t, NUL))
    ensures t.top.state.Boolean? ==> NulGoes(t, BooleanMove(t, NUL))
    ensures t.top.state.Number? ==> NulGoes(t, NumberMove(t, NUL))
  {
    hide SameWord, NumberValue;
  }

  lemma NulString(t: Tok)
    requires Valid(t) && Orderly(t.top) && Quoted(t)
    ensures t.top.state.StringBody? || t.top.state.Field? ==> NulGoes(t, StringMove(t, NUL))
    ensures t.top.state.StringEscape? ==> NulGoes(t, EscapeMove(t, NUL))
    ensures t.top.state.EscapeUnicode? ==> NulGoes(t, UnicodeMove(t, NUL))
  {
    hide Utf8, HexDigit, CStr;
  }

  lemma NulContainer(t: Tok)
    requires Valid(t) && Orderly(t.top)
    ensures t.top.state.Array? || t.top.state.ArraySep? ==> NulGoes(t, ArrayMove(t, NUL))
    ensures t.top.state.FieldStart? || t.top.state.FieldEnd? || t.top.state.ObjValue? || t.top.state.ObjSep? ==>
              NulGoes(t, ObjectMove(t, NUL))
  {
  }

  lemma NulMove(t: Tok, obj: Json)
    requires Valid(t) && InOrder(t)
    ensures NulGoes(t, Dispatch(t, obj, NUL))
  {
    hide InOrder, BlankMove, StartMove, NullMove, BooleanMove, NumberMove, StringMove, EscapeMove, UnicodeMove,
         ArrayMove, ObjectMove;
    TopInOrder(t);
    match t.top.state
    case EatWs | CommentStart | Comment | CommentEol | CommentEnd => NulBlank(t);
    case Start | NullWord | Boolean | Number => NulWord(t);
    case StringBody | Field | StringEscape | EscapeUnicode => NulString(t);
    case Finish =>
    case ArrayAdd | ObjValueAdd =>
    case _ => NulContainer(t);
  }

  /** The terminator ends the call in success inside a container exactly where a comment is cut. */
  lemma {:induction false} NulInside(t: Tok, obj: Json)
    requires Valid(t) && InOrder(t)
    ensures var v := FeedObj(t, obj, NUL);
            v.Halt? && ((v.err == Success && v.tok.Depth() > 0) <==> CutInComment(t))
    decreases Rank(t.top)
  {
    hide InOrder, Valid, Dispatch, CutInComment;
    FeedNul(t, obj, NUL);
    MoveKept(t, obj, NUL);
    NulMove(t, obj);
    match Dispatch(t, obj, NUL)
    case Redo(u) => NulInside(u, obj);
    case Pop(u, o) => NulInside(u, o);
    case _ =>
  }

  lemma {:induction false} FeedKept(t: Tok, obj: Json, c: char)
    requires Valid(t) && InOrder(t)
    ensures InOrder(FeedObj(t, obj, c).tok)
    ensures FeedObj(t, obj, c).Halt? && c != NUL && FeedObj(t, obj, c).err == Success ==>
              FeedObj(t, obj, c).tok.Depth() == 0
    decreases Rank(t.top)
  {
    hide InOrder, Valid;
    MoveKept(t, obj, c);
    match Dispatch(t, obj, c)
    case Redo(u) => FeedKept(u, obj, c);
    case Pop(u, o) => FeedKept(u, o, c);
    case Advance(u) =>
    case Out(u, e) => OutSuccess(t, obj, c);
  }

  lemma OutSuccess(t: Tok, obj: Json, c: char)
    requires Valid(t)
    ensures Dispatch(t, obj, c).Out? && Dispatch(t, obj, c).err == Success ==> Dispatch(t, obj, c).tok.Depth() == 0
  {
  }

  lemma {:induction false} RunKept(t: Tok, s: string)
    requires Valid(t) && InOrder(t) && NUL !in s
    ensures InOrder(Run(t, s).tok) && (Run(t, s).err == Success ==> Run(t, s).tok.Depth() == 0)
    decreases |s|
  {
    if s != "" {
      FeedKept(t, Null, s[0]);
      match Feed(t, s[0])
      case Halt(_, _, _) =>
      case More(u) => RunKept(u, s[1..]);
    }
  }

  /** A C string is accepted with a value from inside a container if and only if it ends in a comment behind
      a complete element or member value; in all other cases an accepted text is accepted as a whole. */
  lemma InnerValueIff(s: string)
    requires NUL !in s
    ensures
      var r, f := Run(NEW_TOK, s), Run(NEW_TOK, s + [NUL]);
      f.err == Success && f.tok.Depth() > 0 <==> (!r.halted && CutInComment(r.tok))
  {
    hide InOrder, CutInComment, NulGoes;
    var r := Run(NEW_TOK, s);
    assert InOrder(NEW_TOK) by {
      NewInOrder();
    }
    RunKept(NEW_TOK, s);
    RunAppend(NEW_TOK, s, [NUL]);
    if !r.halted {
      NulInside(r.tok, Null);
    }
  }

  lemma NewInOrder()
    ensures InOrder(NEW_TOK)
  {
  }

  // An array cut off in a comment behind its first element is accepted, with the value of the element.
  lemma TruncatedArray()
    ensures ParseSpec("[1/*" + [NUL]) == Parsed(Int(1))
  {
    hide Feed, Run, Dispatch, Valid, RoundTrip.Goes;
    var t1 := NEW_TOK.(top := Level(EatWs, Array, Arr([]), None));
    var t2 := Tok([Level(ArrayAdd, Array, Arr([]), None)], Level(Number, Start, Null, None), "1", 0, false, 0, NUL);
    var v := Level(CommentStart, Finish, Int(1), None);
    var t3 := t2.(top := v, pb := "/");
    var t4 := t3.(top := v.(state := Comment), pb := "/*");
    OpenBracket(t1);
    DigitOne(t1, t2);
    SlashAfterOne(t2, t3);
    StarAfterSlash(t3, t4);
    RoundTrip.GoesOn(NEW_TOK, "[", t1, "1", t2);
    RoundTrip.GoesOn(NEW_TOK, "[" + "1", t2, "/", t3);
    RoundTrip.GoesOn(NEW_TOK, "[" + "1" + "/", t3, "*", t4);
    assert "[1/*" == "[" + "1" + "/" + "*";
    CommentEnds(t4, "[1/*");
  }

  lemma CommentEnds(t: Tok, s: string)
    requires RoundTrip.Goes(NEW_TOK, s, t) && t.top.state.Comment? && t.top.saved == Finish
    ensures ParseSpec(s + [NUL]) == Parsed(t.top.current)
  {
    RunAppend(NEW_TOK, s, [NUL]);
    hide Dispatch;
    CommentNul(t);
  }

  lemma CommentNul(t: Tok)
    requires Valid(t) && t.top.state.Comment? && t.top.saved == Finish
    ensures Run(t, [NUL]).err == Success && Run(t, [NUL]).tok.top.current == t.top.current
  {
    assert Dispatch(t, Null, NUL) == Advance(t.Append([NUL]));
  }

  lemma OpenBracket(t1: Tok)
    requires t1 == NEW_TOK.(top := Level(EatWs, Array, Arr([]), None))
    ensures RoundTrip.Goes(NEW_TOK, "[", t1)
  {
    var a := NEW_TOK.(top := FRESH.(state := Start));
    RoundTrip.FeedRedo(NEW_TOK, '[', a);
    RoundTrip.FeedMore(a, '[', t1);
    RoundTrip.GoesOne(NEW_TOK, '[', t1);
  }

  lemma DigitOne(t1: Tok, t2: Tok)
    requires t1 == NEW_TOK.(top := Level(EatWs, Array, Arr([]), None))
    requires t2 == Tok([Level(ArrayAdd, Array, Arr([]), None)], Level(Number, Start, Null, None), "1", 0, false, 0, NUL)
    ensures RoundTrip.Goes(t1, "1", t2) && Valid(t2)
  {
    hide FeedObj, Feed, RoundTrip.Goes;
    var c := t1.(below := [Level(ArrayAdd, Array, Arr([]), None)], top := FRESH);
    ElementOpens(t1, c);
    FreshDigit(c, t2);
    RoundTrip.GoesOne(t1, '1', t2);
  }

  lemma ElementOpens(t1: Tok, c: Tok)
    requires t1 == NEW_TOK.(top := Level(EatWs, Array, Arr([]), None))
    requires c == t1.(below := [Level(ArrayAdd, Array, Arr([]), None)], top := FRESH)
    ensures Valid(t1) && Valid(c) && Feed(t1, '1') == Feed(c, '1')
  {
    hide FeedObj, Feed;
    var b := t1.(top := t1.top.(state := Array));
    assert b.below + [b.top.(state := ArrayAdd)] == c.below;
    RoundTrip.FeedRedo(t1, '1', b);
    RoundTrip.FeedRedo(b, '1', c);
  }

  lemma FreshDigit(c: Tok, t2: Tok)
    requires Valid(c) && c.top == FRESH && !c.isDouble
    requires t2 == c.(top := FRESH.(state := Number), pb := "1")
    ensures Feed(c, '1') == More(t2)
  {
    hide FeedObj, Feed, RoundTrip.Goes;
    var d := c.(top := FRESH.(state := Start));
    var e := d.(top := d.top.(state := Number), pb := "");
    RoundTrip.FeedRedo(c, '1', d);
    RoundTrip.FeedRedo(d, '1', e);
    assert "" + ['1'] == "1";
    RoundTrip.FeedMore(e, '1', t2);
  }

  lemma OneIsRead()
    ensures NumberValue("1", false) == Some(Int(1))
  {
    assert IntText(1) == "1";
    ScanIntText(1);
  }

  lemma SlashAfterOne(t2: Tok, t3: Tok)
    requires Valid(t2) && t2.top == Level(Number, Start, Null, None) && t2.pb == "1" && !t2.isDouble
    requires t3 == t2.(top := Level(CommentStart, Finish, Int(1), None), pb := "/")
    ensures RoundTrip.Goes(t2, "/", t3) && Valid(t3)
  {
    hide FeedObj, Feed, NumberValue;
    OneIsRead();
    var a := AfterValue(t2, Int(1));
    RoundTrip.FeedRedo(t2, '/', a);
    RoundTrip.FeedMore(a, '/', t3);
    RoundTrip.GoesOne(t2, '/', t3);
  }

  lemma StarAfterSlash(t3: Tok, t4: Tok)
    requires Valid(t3) && t3.top.state.CommentStart? && t3.pb == "/"
             && t4 == t3.(top := t3.top.(state := Comment), pb := "/*")
    ensures RoundTrip.Goes(t3, "*", t4)
  {
    assert "/" + "*" == "/*";
    RoundTrip.FeedMore(t3, '*', t4);
  }
}
