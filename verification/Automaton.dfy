/** json_tokener_parse_ex as an automaton fed one character at a time: the
    meaning the tight loops of the C code are an optimisation of. */
module Automaton {
  import opened JsonValue
  import opened Lexemes

  const MAX_DEPTH := 32

  datatype State =
    | EatWs | Start | Finish | NullWord | CommentStart | Comment | CommentEol | CommentEnd
    | StringBody | StringEscape | EscapeUnicode | Boolean | Number
    | Array | ArrayAdd | ArraySep
    | FieldStart | Field | FieldEnd | ObjValue | ObjValueAdd | ObjSep

  datatype Error =
    | Success | Continue | TooDeep | UnexpectedEof | Unexpected
    | BadNull | BadBoolean | BadNumber | BadArray
    | BadKeyName | BadKeySep | BadValueSep | BadString | BadComment

  /** One json_tokener_srec. */
  datatype Level = Level(state: State, saved: State, current: Json, field: Option<CString>)

  const FRESH := Level(EatWs, Start, Null, None)

  /** The tokener: the levels in use, the innermost apart, and the scratch fields. */
  datatype Tok = Tok(below: seq<Level>, top: Level, pb: string, stPos: int, isDouble: bool, ucs: int, quote: char)
  {
    function Depth(): nat { |below| }

    /** Leave the current character with a new state and saved state. */
    function To(state: State, saved: State): Tok { this.(top := top.(state := state, saved := saved)) }

    function In(state: State): Tok { this.(top := top.(state := state)) }

    function Append(s: string): Tok { this.(pb := pb + s) }
  }

  const NEW_TOK := Tok([], FRESH, "", 0, false, 0, NUL)

  /** What one pass through the switch does with a character. */
  datatype Move =
    | Redo(tok: Tok)              // goto redo_char
    | Pop(tok: Tok, obj: Json)    // goto redo_char with a finished value in `obj`
    | Advance(tok: Tok)           // break, then ADVANCE_CHAR
    | Out(tok: Tok, err: Error)   // goto out

  // ---------- stack discipline ----------

  predicate IsSpace(c: char) {
    c == ' ' || '\t' <= c <= '\r'
  }

  /** A level below the top waits for the element or member value above it. */
  predicate Waiting(l: Level) {
    || (l.state == ArrayAdd && l.current.Arr?)
    || (l.state == ObjValueAdd && l.current.Obj? && l.field.Some?)
  }

  /** The states white space and comments may lead back to. */
  predicate Resumable(s: State) {
    s.Start? || s.Finish? || s.Array? || s.ArraySep? || s.FieldStart? || s.FieldEnd? || s.ObjValue? || s.ObjSep?
  }

  /** A state is only entered with the container and key it will use. */
  predicate Equipped(s: State, l: Level) {
    match s
    case Array | ArraySep | ArrayAdd => l.current.Arr?
    case FieldStart | Field | ObjSep => l.current.Obj?
    case FieldEnd | ObjValue | ObjValueAdd => l.current.Obj? && l.field.Some?
    case _ => true
  }

  predicate TopOk(l: Level, stPos: int) {
    && Equipped(l.state, l)
    && match l.state
       case EatWs | CommentStart | Comment | CommentEol | CommentEnd =>
         Resumable(l.saved) && Equipped(l.saved, l)
       case StringEscape => (l.saved.StringBody? || l.saved.Field?) && Equipped(l.saved, l)
       case EscapeUnicode => (l.saved.StringBody? || l.saved.Field?) && Equipped(l.saved, l) && 0 <= stPos < 4
       case _ => true
  }

  predicate Valid(t: Tok) {
    && t.Depth() < MAX_DEPTH
    && (forall i :: 0 <= i < t.Depth() ==> Waiting(t.below[i]))
    && TopOk(t.top, t.stPos)
  }

  /** Strictly decreases over every `goto redo_char`. */
  function Rank(l: Level): nat {
    match l.state
    case EatWs => 1 + StateRank(l.saved)
    case s => StateRank(s)
  }

  function StateRank(s: State): nat {
    match s
    case Array | ObjValue => 20
    case Start => 16
    case NullWord | Boolean | Number => 14
    case Finish => 10
    case ArrayAdd | ObjValueAdd => 6
    case _ => 2
  }

  // ---------- one pass through the switch ----------

  /** A move within the current level: the levels below stay, the new top is in order. */
  ghost predicate Local(t: Tok, m: Move)
  {
    && !m.Pop? && m.tok.below == t.below
    && TopOk(m.tok.top, m.tok.stPos)
    && Falls(t, m)
  }

  /** A redo lowers the rank, only a pop leads to a state that stores a value, and no pass asks for more. */
  ghost predicate Falls(t: Tok, m: Move) {
    && (m.Out? ==> m.err != Continue)
    && (m.Redo? || m.Pop? ==> Rank(m.tok.top) < Rank(t.top))
    && (m.Redo? || m.Advance? ==> !Adding(m.tok))
  }

  predicate Adding(t: Tok) { t.top.state.ArrayAdd? || t.top.state.ObjValueAdd? }

  function AfterValue(t: Tok, v: Json): Tok
  {
    t.(top := t.top.(state := EatWs, saved := Finish, current := v))
  }

  function Push(t: Tok, waiting: State): Tok
  {
    t.(below := t.below + [t.top.(state := waiting)], top := FRESH)
  }

  function StartMove(t: Tok, c: char): (m: Move)
    requires Valid(t) && t.top.state.Start?
    ensures Local(t, m)
  {
    if c == '{' then Advance(t.(top := t.top.(state := EatWs, saved := FieldStart, current := Obj([]))))
    else if c == '[' then Advance(t.(top := t.top.(state := EatWs, saved := Array, current := Arr([]))))
    else if c == 'N' || c == 'n' then Redo(t.In(NullWord).(pb := "", stPos := 0))
    else if c == '"' || c == '\'' then Advance(t.In(StringBody).(pb := "", quote := c))
    else if c in {'T', 't', 'F', 'f'} then Redo(t.In(Boolean).(pb := "", stPos := 0))
    else if '0' <= c <= '9' || c == '-' then Redo(t.In(Number).(pb := "", isDouble := false))
    else Out(t, Unexpected)
  }

  function NullMove(t: Tok, c: char): (m: Move)
    requires Valid(t) && t.top.state.NullWord?
    ensures Local(t, m)
  {
    var u := t.Append([c]);
    if SameWord("null", u.pb, Min(u.stPos + 1, 4)) then
      if u.stPos == 4 then Redo(AfterValue(u, Null))
      else Advance(u.(stPos := u.stPos + 1))
    else Out(u, BadNull)
  }

  function BooleanMove(t: Tok, c: char): (m: Move)
    requires Valid(t) && t.top.state.Boolean?
    ensures Local(t, m)
  {
    var u := t.Append([c]);
    if SameWord("true", u.pb, Min(u.stPos + 1, 4)) then
      if u.stPos == 4 then Redo(AfterValue(u, Bool(true)))
      else Advance(u.(stPos := u.stPos + 1))
    else if SameWord("false", u.pb, Min(u.stPos + 1, 5)) then
      if u.stPos == 5 then Redo(AfterValue(u, Bool(false)))
      else Advance(u.(stPos := u.stPos + 1))
    else Out(u, BadBoolean)
  }

  /** string and object_field share their loop. */
  function StringMove(t: Tok, c: char): (m: Move)
    requires Valid(t) && (t.top.state.StringBody? || t.top.state.Field?)
    ensures Local(t, m)
  {
    if c == t.quote then
      if t.top.state == Field then
        Advance(t.(top := t.top.(field := Some(CStr(t.pb)), state := EatWs, saved := FieldEnd)))
      else
        Advance(AfterValue(t, Str(CStr(t.pb))))
    else if c == '\\' then Advance(t.To(StringEscape, t.top.state))
    else Advance(t.Append([c]))
  }

  function EscapeMove(t: Tok, c: char): (m: Move)
    requires Valid(t) && t.top.state.StringEscape?
    ensures Local(t, m)
    ensures m.Advance? ==> m.tok.top == t.top.(state := if c == 'u' then EscapeUnicode else t.top.saved)
    ensures m.Advance? ==> if c == 'u' then m.tok.stPos == 0 && m.tok.pb == t.pb else |m.tok.pb| == |t.pb| + 1
  {
    var back := t.In(t.top.saved);
    match c
    case '"' | '\\' | '/' => Advance(back.Append([c]))
    case 'b' => Advance(back.Append([8 as char]))
    case 'n' => Advance(back.Append("\n"))
    case 'r' => Advance(back.Append("\r"))
    case 't' => Advance(back.Append("\t"))
    case 'u' => Advance(t.In(EscapeUnicode).(ucs := 0, stPos := 0))
    case _ => Out(t, BadString)
  }

  /** strchr also finds the terminator of its table, so NUL passes as a digit. */
  function UnicodeMove(t: Tok, c: char): (m: Move)
    requires Valid(t) && t.top.state.EscapeUnicode?
    ensures Local(t, m)
    ensures m.Advance? <==> IsHexChar(c) || c == NUL
    ensures m.Advance? ==> m.tok.stPos == t.stPos + 1
    ensures m.Advance? ==> m.tok.top == t.top.(state := if t.stPos == 3 then t.top.saved else EscapeUnicode)
  {
    if IsHexChar(c) || c == NUL then
      var u := t.(ucs := (t.ucs + HexDigit(c) * HexWeight(t.stPos)) % 0x1_0000_0000, stPos := t.stPos + 1);
      if u.stPos == 4 then Advance(u.In(u.top.saved).Append(Utf8(u.ucs)))
      else Advance(u)
    else Out(t, BadString)
  }

  function NumberMove(t: Tok, c: char): (m: Move)
    requires Valid(t) && t.top.state.Number?
    ensures Local(t, m)
  {
    if IsNumberChar(c) then
      Advance(t.Append([c]).(isDouble := t.isDouble || c == '.' || c == 'e'))
    else
      match NumberValue(t.pb, t.isDouble)
      case Some(v) => Redo(AfterValue(t, v))
      case None => Out(t, BadNumber)
  }

  /** What the current level keeps when an element or member value is complete. */
  function Adopt(l: Level, obj: Json): Level
    requires Waiting(l)
  {
    if l.state == ArrayAdd then
      l.(current := Arr(l.current.elems + [obj]), saved := ArraySep, state := EatWs)
    else
      l.(current := Obj(Put(l.current.members, l.field.value, obj)), field := None, saved := ObjSep, state := EatWs)
  }

  /** White space and comments. */
  function BlankMove(t: Tok, c: char): (m: Move)
    requires Valid(t)
    requires t.top.state.EatWs? || t.top.state.CommentStart? || t.top.state.Comment? || t.top.state.CommentEol?
             || t.top.state.CommentEnd?
    ensures Local(t, m)
  {
    match t.top.state
    case EatWs =>
      if IsSpace(c) then Advance(t)
      else if c == '/' then Advance(t.In(CommentStart).(pb := "/"))
      else Redo(t.In(t.top.saved))
    case CommentStart =>
      if c == '*' then Advance(t.In(Comment).Append([c]))
      else if c == '/' then Advance(t.In(CommentEol).Append([c]))
      else Out(t, BadComment)
    case Comment =>
      if c == '*' then Advance(t.In(CommentEnd).Append([c])) else Advance(t.Append([c]))
    case CommentEol =>
      if c == '\n' then Advance(t.In(EatWs)) else Advance(t.Append([c]))
    case CommentEnd =>
      if c == '/' then Advance(t.In(EatWs).Append([c])) else Advance(t.In(Comment).Append([c]))
  }

  /** array and array_sep. */
  function ArrayMove(t: Tok, c: char): (m: Move)
    requires Valid(t) && (t.top.state.Array? || t.top.state.ArraySep?)
    ensures !m.Pop? && Valid(m.tok) && Falls(t, m)
  {
    if c == ']' then Advance(t.To(EatWs, Finish))
    else if t.top.state == ArraySep then
      if c == ',' then Advance(t.To(EatWs, Array)) else Out(t, BadArray)
    else if t.Depth() >= MAX_DEPTH - 1 then Out(t, TooDeep)
    else Redo(Push(t, ArrayAdd))
  }

  /** object_field_start, object_field_end, object_value and object_sep. */
  function ObjectMove(t: Tok, c: char): (m: Move)
    requires Valid(t)
    requires t.top.state.FieldStart? || t.top.state.FieldEnd? || t.top.state.ObjValue? || t.top.state.ObjSep?
    ensures !m.Pop? && Valid(m.tok) && Falls(t, m)
  {
    match t.top.state
    case FieldStart =>
      if c == '}' then Advance(t.To(EatWs, Finish))
      else if c == '"' || c == '\'' then Advance(t.In(Field).(quote := c, pb := ""))
      else Out(t, BadKeyName)
    case FieldEnd =>
      if c == ':' then Advance(t.To(EatWs, ObjValue)) else Out(t, BadKeySep)
    case ObjValue =>
      if t.Depth() >= MAX_DEPTH - 1 then Out(t, TooDeep)
      else Redo(Push(t, ObjValueAdd))
    case ObjSep =>
      if c == '}' then Advance(t.To(EatWs, Finish))
      else if c == ',' then Advance(t.To(EatWs, FieldStart))
      else Out(t, BadValueSep)
  }

  function FinishMove(t: Tok): (m: Move)
    requires Valid(t) && t.top.state.Finish?
    ensures (m.Pop? || m.Out?) && Valid(m.tok) && Falls(t, m)
  {
    var d := t.Depth();
    if d == 0 then Out(t, Success)
    else
      assert Waiting(t.below[d - 1]);
      Pop(t.(below := t.below[..d - 1], top := t.below[d - 1]), t.top.current)
  }

  /** One pass through the switch for character `c`; `obj` is the local of the C
      function. Every pass keeps the stack discipline, and a redo lowers the rank. */
  function Dispatch(t: Tok, obj: Json, c: char): (m: Move)
    requires Valid(t)
    ensures Valid(m.tok) && Falls(t, m)
  {
    hide BlankMove, StartMove, NullMove, BooleanMove, NumberMove, StringMove, EscapeMove, UnicodeMove, ArrayMove,
         ObjectMove, FinishMove;
    match t.top.state
    case EatWs | CommentStart | Comment | CommentEol | CommentEnd => BlankMove(t, c)
    case Start => StartMove(t, c)
    case Finish => FinishMove(t)
    case NullWord => NullMove(t, c)
    case Boolean => BooleanMove(t, c)
    case Number => NumberMove(t, c)
    case StringBody | Field => StringMove(t, c)
    case StringEscape => EscapeMove(t, c)
    case EscapeUnicode => UnicodeMove(t, c)
    case Array | ArraySep => ArrayMove(t, c)
    case FieldStart | FieldEnd | ObjValue | ObjSep => ObjectMove(t, c)
    case ArrayAdd | ObjValueAdd => Redo(t.(top := Adopt(t.top, obj)))
  }

  // ---------- one character, one text ----------

  /** The passes for one character: up to ADVANCE_CHAR, or to `out` with or without it. */
  datatype Verdict = More(tok: Tok) | Halt(tok: Tok, err: Error, eaten: bool)

  function FeedObj(t: Tok, obj: Json, c: char): (v: Verdict)
    requires Valid(t)
    ensures Valid(v.tok)
    decreases Rank(t.top)
  {
    match Dispatch(t, obj, c)
    case Redo(u) => FeedObj(u, obj, c)
    case Pop(u, o) => FeedObj(u, o, c)
    case Advance(u) => if c == NUL then Halt(u, AtNul(u, c, Success), true) else More(u)
    case Out(u, e) => Halt(u, AtNul(u, c, e), false)
  }

  /** The end of the C function: reaching the terminator inside a value is an error. */
  function AtNul(t: Tok, c: char, e: Error): Error
  {
    if c == NUL && t.top.state != Finish && t.top.saved != Finish then UnexpectedEof else e
  }

  function Feed(t: Tok, c: char): (v: Verdict)
    requires Valid(t)
    ensures Valid(v.tok)
  {
    FeedObj(t, Null, c)
  }

  /** The result of a call: final tokener, error, characters left over, and
      whether it stopped before the end of the text. */
  datatype Outcome = Outcome(tok: Tok, err: Error, left: nat, halted: bool)

  function EndError(t: Tok): Error {
    if t.Depth() == 0 && t.top.state == EatWs && t.top.saved == Finish then Success else Continue
  }

  function RunObj(t: Tok, obj: Json, s: string): (r: Outcome)
    requires Valid(t)
    ensures Valid(r.tok) && r.left <= |s| && (!r.halted ==> r.left == 0)
    decreases |s|
  {
    if s == [] then Outcome(t, EndError(t), 0, false)
    else
      match FeedObj(t, obj, s[0])
      case Halt(u, e, eaten) => Outcome(u, e, if eaten then |s| - 1 else |s|, true)
      case More(u) => RunObj(u, Null, s[1..])
  }

  /** A call of json_tokener_parse_ex in state `t` on the characters `s`. */
  function Run(t: Tok, s: string): (r: Outcome)
    requires Valid(t)
    ensures Valid(r.tok) && r.left <= |s| && (!r.halted ==> r.left == 0)
  {
    RunObj(t, Null, s)
  }

  /** The local `obj` only matters to the two states that store it. */
  lemma {:induction false} ObjIrrelevant(t: Tok, obj: Json, c: char)
    requires Valid(t) && !Adding(t)
    ensures FeedObj(t, obj, c) == Feed(t, c)
    decreases Rank(t.top)
  {
    hide BlankMove, StartMove, NullMove, BooleanMove, NumberMove, StringMove, EscapeMove, UnicodeMove,
      ArrayMove, ObjectMove, FinishMove, Valid, Rank;
    var m := Dispatch(t, obj, c);
    if m.Redo? {
      ObjIrrelevant(m.tok, obj, c);
    }
  }

  /** What is left to do after a `break` out of the switch: s[0] is still to be skipped. */
  function AfterBreak(t: Tok, s: string): Outcome
    requires Valid(t) && s != []
  {
    if s[0] == NUL then Outcome(t, AtNul(t, NUL, Success), |s| - 1, true) else Run(t, s[1..])
  }

  /** How a run continues after one pass over the first character of `s`. */
  function AfterMove(m: Move, obj: Json, s: string): Outcome
    requires Valid(m.tok) && s != []
  {
    match m
    case Redo(u) => RunObj(u, obj, s)
    case Pop(u, o) => RunObj(u, o, s)
    case Advance(u) => AfterBreak(u, s)
    case Out(u, e) => Outcome(u, AtNul(u, s[0], e), |s|, true)
  }

  lemma {:induction false} RunMove(t: Tok, obj: Json, s: string)
    requires Valid(t) && s != []
    ensures RunObj(t, obj, s) == AfterMove(Dispatch(t, obj, s[0]), obj, s)
  {
  }

  /** After a redo the run continues without `obj`. */
  lemma {:induction false} RedoDropsObj(t: Tok, obj: Json, s: string)
    requires Valid(t) && s != [] && Dispatch(t, obj, s[0]).Redo?
    ensures var u := Dispatch(t, obj, s[0]).tok;
            !Adding(u) && RunObj(t, obj, s) == Run(u, s)
  {
    var u := Dispatch(t, obj, s[0]).tok;
    RunMove(t, obj, s);
    ObjIrrelevant(u, obj, s[0]);
  }

  lemma RunEmpty(t: Tok)
    requires Valid(t)
    ensures Run(t, "") == Outcome(t, EndError(t), 0, false)
  {
  }

  /** What json_tokener_parse returns: an object, or the error as a pointer value. */
  datatype ParseResult = Parsed(value: Json) | Failed(err: Error)

  function ParseSpec(s: string): ParseResult {
    var r := Run(NEW_TOK, s);
    if r.err == Success then Parsed(r.tok.top.current) else Failed(r.err)
  }

  // ---------- chunks ----------

  /** A call that used up its text can be continued by a call on the next text. */
  lemma {:induction false} RunAppend(t: Tok, a: string, b: string)
    requires Valid(t)
    ensures var r := Run(t, a);
            Run(t, a + b) == if r.halted then r.(left := r.left + |b|) else Run(r.tok, b)
    decreases |a|
  {
    if a == [] {
      assert a + b == b;
    } else {
      assert (a + b)[1..] == a[1..] + b;
      match Feed(t, a[0])
      case Halt(_, _, _) =>
      case More(u) => RunAppend(u, a[1..], b);
    }
  }

  lemma NulHalts(t: Tok, s: string)
    requires Valid(t) && s != "" && s[|s| - 1] == NUL
    ensures Run(t, s).halted
    decreases |s|
  {
    match Feed(t, s[0])
    case Halt(_, _, _) =>
    case More(u) =>
      FeedNul(t, Null, s[0]);
      NulHalts(u, s[1..]);
  }

  lemma {:induction false} FeedNul(t: Tok, obj: Json, c: char)
    requires Valid(t)
    ensures c == NUL ==> FeedObj(t, obj, c).Halt?
    decreases Rank(t.top)
  {
    match Dispatch(t, obj, c)
    case Redo(u) => FeedNul(u, obj, c);
    case Pop(u, o) => FeedNul(u, o, c);
    case _ =>
  }

  /** Nothing after the terminator is read. */
  lemma ParseStops(s: string, rest: string)
    ensures ParseSpec(s + ([NUL] + rest)) == ParseSpec(s + [NUL])
  {
    NulHalts(NEW_TOK, s + [NUL]);
    RunAppend(NEW_TOK, s + [NUL], rest);
    assert s + [NUL] + rest == s + ([NUL] + rest);
  }

  /** A sequence of calls, one on each piece; a call that stops before the end of its piece is the last. */
  function RunChunks(t: Tok, chunks: seq<string>): (r: Outcome)
    requires Valid(t)
    ensures Valid(r.tok)
    decreases |chunks|
  {
    if chunks == [] then Run(t, "")
    else
      var r := Run(t, chunks[0]);
      if r.halted then r.(left := r.left + |Concat(chunks[1..])|) else RunChunks(r.tok, chunks[1..])
  }

  function Concat(chunks: seq<string>): string {
    if chunks == [] then "" else chunks[0] + Concat(chunks[1..])
  }

  /** Chunking is invisible: however a text is cut, the calls on the pieces end
      like one call on the whole, in tokener state, error and position. */
  lemma {:induction false} ChunksInvisible(t: Tok, chunks: seq<string>)
    requires Valid(t)
    ensures RunChunks(t, chunks) == Run(t, Concat(chunks))
    decreases |chunks|
  {
    if chunks != [] {
      var r := Run(t, chunks[0]);
      RunAppend(t, chunks[0], Concat(chunks[1..]));
      if !r.halted {
        ChunksInvisible(r.tok, chunks[1..]);
      }
    }
  }

  /** `continue` is only reported when the whole text was used up. */
  lemma {:induction false} ContinueUsesAll(t: Tok, s: string)
    requires Valid(t)
    ensures Run(t, s).err == Continue ==> !Run(t, s).halted
    decreases |s|
  {
    if s != [] {
      NeverContinue(t, Null, s[0]);
      match Feed(t, s[0])
      case Halt(_, _, _) =>
      case More(u) => ContinueUsesAll(u, s[1..]);
    }
  }

  lemma {:induction false} NeverContinue(t: Tok, obj: Json, c: char)
    requires Valid(t)
    ensures FeedObj(t, obj, c).Halt? ==> FeedObj(t, obj, c).err != Continue
    decreases Rank(t.top)
  {
    hide Dispatch, Valid, Rank;
    match Dispatch(t, obj, c)
    case Redo(u) => NeverContinue(u, obj, c);
    case Pop(u, o) => NeverContinue(u, o, c);
    case _ =>
  }

  // ---------- unicode escapes ----------

  /** The digits from position `pos` on, at their places in a number of four hex digits. */
  function HexSum(ds: string, pos: nat): nat
    requires pos + |ds| <= 4 && forall i :: 0 <= i < |ds| ==> IsHexChar(ds[i])
  {
    if ds == "" then 0 else HexDigit(ds[0]) * HexWeight(pos) + HexSum(ds[1..], pos + 1)
  }

  /** The tokener some digits later: still in the escape, or, after the fourth, back in the string or key
      with the character appended. */
  function AfterDigits(t: Tok, ds: string): Tok
    requires 0 <= t.stPos && t.stPos + |ds| <= 4 && 0 <= t.ucs && forall i :: 0 <= i < |ds| ==> IsHexChar(ds[i])
  {
    var v, n := t.ucs + HexSum(ds, t.stPos), t.stPos + |ds|;
    if ds != "" && n == 4 then t.(ucs := v, stPos := n, top := t.top.(state := t.top.saved), pb := t.pb + Utf8(v))
    else t.(ucs := v, stPos := n)
  }

  /** An escape takes exactly four digits, in one call or spread over several. */
  lemma {:induction false} DigitsConsumed(t: Tok, ds: string)
    requires Valid(t) && t.top.state.EscapeUnicode? && t.stPos + |ds| <= 4
    requires forall i :: 0 <= i < |ds| ==> IsHexChar(ds[i])
    requires 0 <= t.stPos && 0 <= t.ucs && t.ucs + HexSum(ds, t.stPos) < 0x1_0000_0000
    ensures var u := AfterDigits(t, ds);
            Run(t, ds) == Outcome(u, EndError(u), 0, false)
    decreases |ds|
  {
    hide Dispatch, FeedObj, Valid, UnicodeMove, AfterDigits, HexSum;
    if ds == "" {
      NoDigits(t);
    } else {
      var u, rest := UnicodeMove(t, ds[0]).tok, ds[1..];
      assert forall i :: 0 <= i < |rest| ==> rest[i] == ds[i + 1];
      OneDigit(t, ds[0]);
      DigitStep(t, ds);
      if u.stPos < 4 {
        DigitsConsumed(u, rest);
      } else {
        assert rest == "";
        NoDigits(u);
        RunEmpty(u);
      }
    }
  }

  lemma NoDigits(t: Tok)
    requires 0 <= t.stPos <= 4 && 0 <= t.ucs
    ensures AfterDigits(t, "") == t
  {
  }

  lemma DigitStep(t: Tok, ds: string)
    requires Valid(t) && t.top.state.EscapeUnicode? && ds != "" && t.stPos + |ds| <= 4
    requires forall i :: 0 <= i < |ds| ==> IsHexChar(ds[i])
    requires 0 <= t.ucs && t.ucs + HexSum(ds, t.stPos) < 0x1_0000_0000
    ensures forall i :: 0 <= i < |ds[1..]| ==> IsHexChar(ds[1..][i])
    ensures
      var u := UnicodeMove(t, ds[0]).tok;
      && u.stPos == t.stPos + 1 && 0 <= u.ucs && u.ucs + HexSum(ds[1..], u.stPos) < 0x1_0000_0000
      && (u.stPos < 4 ==> u.top == t.top)
      && AfterDigits(u, ds[1..]) == AfterDigits(t, ds)
  {
    hide Utf8, Decodes;
    var c, rest := ds[0], ds[1..];
    var u := UnicodeMove(t, c).tok;
    assert u.ucs == t.ucs + HexDigit(c) * HexWeight(t.stPos);
    if t.stPos == 3 {
      assert rest == "";
    }
  }

  lemma OneDigit(t: Tok, c: char)
    requires Valid(t) && t.top.state.EscapeUnicode? && IsHexChar(c)
    ensures Feed(t, c) == More(UnicodeMove(t, c).tok)
  {
    assert Dispatch(t, Null, c) == UnicodeMove(t, c);
  }
}
