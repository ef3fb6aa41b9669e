/** The tokener as json-c runs it: in-place state, tight loops, resumable calls. */
module Tokener {
  import opened JsonValue
  import opened Lexemes
  import opened Automaton

  /** How a case of the switch is left. */
  datatype Jump = GoRedo | GoBreak | GoOut

  /** The characters a call may read: `len` of them, or up to the terminator when len is -1. */
  ghost function Input(str: string, len: int): string {
    if 0 <= len <= |str| then str[..len] else str
  }

  class JsonTokener {
    var pb: string
    var depth: int
    var isDouble: bool
    var stPos: int
    var charOffset: int
    var err: Error
    var ucs: int
    var quote: char
    const stack: array<Level>

    /** The levels above the one in use hold no pointer. */
    ghost predicate Shape()
      reads this, stack
    {
      && stack.Length == MAX_DEPTH && 0 <= depth < MAX_DEPTH
      && forall i :: depth < i < MAX_DEPTH ==> stack[i].current == Null && stack[i].field == None
    }

    ghost function State(): Tok
      requires Shape()
      reads this, stack
    {
      Tok(stack[..depth], stack[depth], pb, stPos, isDouble, ucs, quote)
    }

    ghost predicate Good()
      reads this, stack
    {
      Shape() && Valid(State())
    }

    // ---------- reading ----------

    ghost predicate Readable(str: string, len: int)
      reads this
    {
      && 0 <= charOffset <= |Input(str, len)|
      && (0 <= len <= |str| || NUL in str[charOffset..])
    }

    ghost function Rest(str: string, len: int): string
      requires 0 <= charOffset <= |Input(str, len)|
      reads this
    {
      Input(str, len)[charOffset..]
    }

    /** `c` is the current character and has not been skipped yet. */
    ghost predicate Pending(str: string, len: int, c: char)
      reads this, stack
    {
      && Good() && Readable(str, len) && err == Success
      && Rest(str, len) != [] && c == Rest(str, len)[0]
    }

    /** The outcome `r` is tokener state `u` with the present error and position,
        up to the check for the terminator at the label `out`. */
    ghost predicate Ended(r: Outcome, u: Tok, str: string, len: int, c: char)
      reads this
    {
      && 0 <= charOffset <= |Input(str, len)|
      && r.tok == u && r.err == AtNul(u, c, err) && r.left == |Rest(str, len)|
    }

    ghost predicate Ending(r: Outcome, str: string, len: int, c: char)
      reads this, stack
    {
      Good() && Ended(r, State(), str, len, c)
    }

    /** Leaving a case by `jump` still leads to the outcome `r`. */
    ghost predicate LeadsTo(r: Outcome, str: string, len: int, jump: Jump, c: char, obj: Json)
      reads this, stack
    {
      match jump
      case GoRedo => Pending(str, len, c) && r == RunObj(State(), if Adding(State()) then obj else Null, Rest(str, len))
      case GoBreak => Pending(str, len, c) && !Adding(State()) && r == AfterBreak(State(), Rest(str, len))
      case GoOut => Ending(r, str, len, c)
    }

    /** POP_CHAR */
    method PopChar(str: string, len: int, c: char) returns (d: char, ok: bool)
      requires Good() && Readable(str, len)
      modifies this`err
      ensures Good() && State() == old(State())
      ensures ok ==> Rest(str, len) != [] && d == Rest(str, len)[0] && err == old(err)
      ensures !ok ==> Rest(str, len) == [] && d == c && err == EndError(State())
    {
      d, ok := c, charOffset != len;
      if ok {
        d := str[charOffset];
      } else if depth == 0 && stack[depth].state == EatWs && stack[depth].saved == Finish {
        err := Success;
      } else {
        err := Continue;
      }
    }

    /** ADVANCE_CHAR followed, unless it skipped the terminator, by POP_CHAR;
        `u` is the present state once the characters of a tight loop are appended. */
    method Next(str: string, len: int, c: char, ghost u: Tok) returns (d: char, ok: bool)
      requires Pending(str, len, c) && Valid(u) && u.top == State().top && u.below == State().below
      modifies this`err, this`charOffset
      ensures Good() && State() == old(State())
      ensures charOffset == old(charOffset) + 1 && charOffset <= |Input(str, len)|
      ensures ok ==> Pending(str, len, d) && AfterBreak(u, old(Rest(str, len))) == Run(u, Rest(str, len))
      ensures !ok ==> d == c && Ended(AfterBreak(u, old(Rest(str, len))), u, str, len, c)
    {
      ghost var s := Rest(str, len);
      assert !(0 <= len <= |str|) ==> str[charOffset..] == [c] + str[charOffset + 1..];
      charOffset := charOffset + 1;
      assert Rest(str, len) == s[1..];
      d, ok := c, false;
      if c != NUL {
        d, ok := PopChar(str, len, c);
      }
    }

    method SetTop(l: Level)
      requires Shape()
      modifies stack
      ensures Shape() && State() == old(State()).(top := l)
    {
      stack[depth] := l;
      assert stack[..depth] == old(stack[..depth]);
    }

    // ---------- the tight loops ----------

    /** eatws: skip white space. */
    method SkipSpace(str: string, len: int, c0: char, ghost r: Outcome) returns (c: char, ok: bool)
      requires Pending(str, len, c0) && stack[depth].state == EatWs && r == Run(State(), Rest(str, len))
      modifies this`charOffset, this`err
      ensures charOffset >= old(charOffset) && Good() && State() == old(State())
      ensures ok ==> Pending(str, len, c) && r == Run(State(), Rest(str, len)) && !IsSpace(c)
      ensures !ok ==> Ending(r, str, len, c)
    {
      c, ok := c0, true;
      while ok && IsSpace(c)
        invariant charOffset >= old(charOffset) && Good() && State() == old(State())
        invariant ok ==> Pending(str, len, c) && r == Run(State(), Rest(str, len))
        invariant !ok ==> Ending(r, str, len, c)
        decreases |Input(str, len)| - charOffset
      {
        RunMove(State(), Null, Rest(str, len));
        c, ok := Next(str, len, c, State());
      }
    }

    /** Inside a tight loop that appends its characters at the end. */
    ghost predicate Looping(r: Outcome, str: string, len: int, caseStart: int, c: char, ok: bool)
      reads this, stack
    {
      && Good() && 0 <= caseStart <= charOffset <= |Input(str, len)|
      && var u := State().Append(str[caseStart..charOffset]);
      && Valid(u)
      && (ok ==> Pending(str, len, c) && r == Run(u, Rest(str, len)))
      && (!ok ==> Ended(r, u, str, len, c))
    }

    /** One round of a tight loop: the automaton appends `c`, the loop only moves on. */
    method LoopNext(str: string, len: int, caseStart: int, c0: char, ghost r: Outcome) returns (c: char, ok: bool)
      requires Looping(r, str, len, caseStart, c0, true)
      requires var u := State().Append(str[caseStart..charOffset]);
               Dispatch(u, Null, c0) == Advance(u.Append([c0]))
      modifies this`charOffset, this`err
      ensures State() == old(State()) && charOffset == old(charOffset) + 1
      ensures Looping(r, str, len, caseStart, c, ok)
    {
      hide RunObj, FeedObj, Dispatch, TopOk, Waiting;
      ghost var u := State().Append(str[caseStart..charOffset]);
      RunMove(u, Null, Rest(str, len));
      assert str[caseStart..charOffset + 1] == str[caseStart..charOffset] + [c0];
      assert State().Append(str[caseStart..charOffset + 1]) == u.Append([c0]);
      c, ok := Next(str, len, c0, u.Append([c0]));
    }

    /** printbuf_memappend_fast(tok->pb, case_start, str - case_start) */
    method Flush(str: string, len: int, caseStart: int, c: char, ok: bool, ghost r: Outcome)
      requires Looping(r, str, len, caseStart, c, ok)
      modifies this`pb
      ensures State() == old(State()).Append(str[caseStart..charOffset])
      ensures Gathered(r, str, len, c, ok)
    {
      pb := pb + str[caseStart..charOffset];
    }

    /** A tight loop has ended, in the text (`ok`) or with the text. */
    ghost predicate Gathered(r: Outcome, str: string, len: int, c: char, ok: bool)
      reads this, stack
    {
      && Good()
      && (ok ==> Pending(str, len, c) && r == Run(State(), Rest(str, len)))
      && (!ok ==> Ending(r, str, len, c))
    }

    lemma LoopStart(r: Outcome, str: string, len: int, c: char)
      requires Pending(str, len, c) && r == Run(State(), Rest(str, len))
      ensures Looping(r, str, len, charOffset, c, true)
    {
      assert State().Append(str[charOffset..charOffset]) == State();
    }

    /** comment: up to the next star. */
    method SkipComment(str: string, len: int, c0: char, ghost r: Outcome) returns (c: char, ok: bool)
      requires Pending(str, len, c0) && stack[depth].state == Comment && r == Run(State(), Rest(str, len))
      modifies this`charOffset, this`err, this`pb
      ensures charOffset >= old(charOffset) && State() == old(State()).(pb := pb)
      ensures Gathered(r, str, len, c, ok) && (ok ==> c == '*')
    {
      hide RunObj, FeedObj;
      var caseStart := charOffset;
      c, ok := c0, true;
      LoopStart(r, str, len, c);
      while ok && c != '*'
        invariant charOffset >= caseStart && Looping(r, str, len, caseStart, c, ok) && State() == old(State())
        decreases |Input(str, len)| - charOffset
      {
        c, ok := LoopNext(str, len, caseStart, c, r);
      }
      Flush(str, len, caseStart, c, ok, r);
    }

    /** comment_eol: up to the end of the line. */
    method SkipLine(str: string, len: int, c0: char, ghost r: Outcome) returns (c: char, ok: bool)
      requires Pending(str, len, c0) && stack[depth].state == CommentEol && r == Run(State(), Rest(str, len))
      modifies this`charOffset, this`err, this`pb
      ensures charOffset >= old(charOffset) && State() == old(State()).(pb := pb)
      ensures Gathered(r, str, len, c, ok) && (ok ==> c == '\n')
    {
      hide RunObj, FeedObj;
      var caseStart := charOffset;
      c, ok := c0, true;
      LoopStart(r, str, len, c);
      while ok && c != '\n'
        invariant charOffset >= caseStart && Looping(r, str, len, caseStart, c, ok) && State() == old(State())
        decreases |Input(str, len)| - charOffset
      {
        c, ok := LoopNext(str, len, caseStart, c, r);
      }
      Flush(str, len, caseStart, c, ok, r);
    }

    /** string and object_field: up to the closing quote or a backslash. */
    method GatherString(str: string, len: int, c0: char, ghost r: Outcome) returns (c: char, ok: bool)
      requires Pending(str, len, c0) && r == Run(State(), Rest(str, len))
      requires stack[depth].state == StringBody || stack[depth].state == Field
      modifies this`charOffset, this`err, this`pb
      ensures charOffset >= old(charOffset) && State() == old(State()).(pb := pb)
      ensures Gathered(r, str, len, c, ok) && (ok ==> c == quote || c == '\\')
    {
      hide RunObj, FeedObj;
      var caseStart := charOffset;
      c, ok := c0, true;
      LoopStart(r, str, len, c);
      while ok && c != quote && c != '\\'
        invariant charOffset >= caseStart && Looping(r, str, len, caseStart, c, ok) && State() == old(State())
        decreases |Input(str, len)| - charOffset
      {
        c, ok := LoopNext(str, len, caseStart, c, r);
      }
      Flush(str, len, caseStart, c, ok, r);
    }

    static lemma NumberStays(u: Tok, c: char)
      requires Valid(u) && u.top.state.Number? && IsNumberChar(c)
      ensures Dispatch(u, Null, c) == Advance(u.Append([c]).(isDouble := u.isDouble || c == '.' || c == 'e'))
    {
    }

    /** One round of the number loop, which also notes what makes a double. */
    method NumberNext(str: string, len: int, caseStart: int, c0: char, ghost r: Outcome) returns (c: char, ok: bool)
      requires Looping(r, str, len, caseStart, c0, true) && stack[depth].state == Number && IsNumberChar(c0)
      modifies this`charOffset, this`err, this`isDouble
      ensures State() == old(State()).(isDouble := isDouble) && charOffset == old(charOffset) + 1
      ensures Looping(r, str, len, caseStart, c, ok)
    {
      hide RunObj, FeedObj, Dispatch, TopOk, Waiting;
      ghost var u := State().Append(str[caseStart..charOffset]);
      NumberStays(u, c0);
      RunMove(u, Null, Rest(str, len));
      if c0 == '.' || c0 == 'e' {
        isDouble := true;
      }
      assert str[caseStart..charOffset + 1] == str[caseStart..charOffset] + [c0];
      ghost var w := State().Append(str[caseStart..charOffset + 1]);
      assert w == u.Append([c0]).(isDouble := isDouble);
      c, ok := Next(str, len, c0, w);
    }

    /** number: the characters of the lexeme. */
    method GatherNumber(str: string, len: int, c0: char, ghost r: Outcome) returns (c: char, ok: bool)
      requires Pending(str, len, c0) && stack[depth].state == Number && r == Run(State(), Rest(str, len))
      modifies this`charOffset, this`err, this`pb, this`isDouble
      ensures charOffset >= old(charOffset) && State() == old(State()).(pb := pb, isDouble := isDouble)
      ensures Gathered(r, str, len, c, ok) && (ok ==> !IsNumberChar(c))
    {
      hide RunObj, FeedObj;
      var caseStart := charOffset;
      c, ok := c0, true;
      LoopStart(r, str, len, c);
      while ok && IsNumberChar(c)
        invariant charOffset >= caseStart && Looping(r, str, len, caseStart, c, ok)
        invariant State() == old(State()).(isDouble := isDouble)
        decreases |Input(str, len)| - charOffset
      {
        c, ok := NumberNext(str, len, caseStart, c, r);
      }
      Flush(str, len, caseStart, c, ok, r);
    }

    /** One digit of a \u escape; the fourth appends the character and ends the escape. */
    method UnicodeDigit(c: char) returns (jump: Jump)
      requires Good() && err == Success && stack[depth].state == EscapeUnicode
      modifies this`ucs, this`stPos, this`pb, this`err, stack
      ensures Performed(UnicodeMove(old(State()), c), jump)
    {
      if IsHexChar(c) || c == NUL {
        ucs := (ucs + HexDigit(c) * HexWeight(stPos)) % 0x1_0000_0000;
        stPos := stPos + 1;
        if stPos == 4 {
          pb := pb + Utf8(ucs);
          SetTop(stack[depth].(state := stack[depth].saved));
        }
        jump := GoBreak;
      } else {
        err := BadString;
        jump := GoOut;
      }
    }

    /** escape_unicode: up to four digits. */
    method GatherUnicode(str: string, len: int, c0: char, ghost r: Outcome) returns (jump: Jump, c: char)
      requires Pending(str, len, c0) && stack[depth].state == EscapeUnicode && r == Run(State(), Rest(str, len))
      modifies this`ucs, this`stPos, this`pb, this`err, this`charOffset, stack
      ensures charOffset >= old(charOffset) && jump != GoRedo && LeadsTo(r, str, len, jump, c, Null)
    {
      hide RunObj, FeedObj;
      c := c0;
      var ok := true;
      while ok
        invariant charOffset >= old(charOffset) && Gathered(r, str, len, c, ok)
        invariant ok ==> stack[depth].state == EscapeUnicode
        decreases |Input(str, len)| - charOffset, ok
      {
        RunMove(State(), Null, Rest(str, len));
        jump := UnicodeDigit(c);
        if jump == GoOut || stack[depth].state != EscapeUnicode {
          return;
        }
        c, ok := Next(str, len, c, State());
      }
      jump := GoOut;
    }

    // ---------- the other cases of the switch: one pass ----------

    /** The case did what the automaton does in the pass `m`. */
    ghost predicate Performed(m: Move, jump: Jump)
      reads this, stack
    {
      && Shape() && State() == m.tok
      && jump == (if m.Redo? || m.Pop? then GoRedo else if m.Advance? then GoBreak else GoOut)
      && err == if m.Out? then m.err else Success
    }

    /** eatws after its loop, and the comment states after theirs. */
    method BlankPass(c: char) returns (jump: Jump)
      requires Good() && err == Success
      requires var s := stack[depth].state;
               (s.EatWs? && !IsSpace(c)) || s.CommentStart? || (s.Comment? && c == '*')
               || (s.CommentEol? && c == '\n') || s.CommentEnd?
      modifies this`pb, this`err, stack
      ensures Performed(BlankMove(old(State()), c), jump)
    {
      jump := GoBreak;
      match stack[depth].state
      case EatWs =>
        if c == '/' {
          pb := "";
          pb := pb + [c];
          SetTop(stack[depth].(state := CommentStart));
        } else {
          SetTop(stack[depth].(state := stack[depth].saved));
          jump := GoRedo;
        }
      case CommentStart =>
        if c == '*' {
          SetTop(stack[depth].(state := Comment));
        } else if c == '/' {
          SetTop(stack[depth].(state := CommentEol));
        } else {
          err := BadComment;
          return GoOut;
        }
        pb := pb + [c];
      case Comment =>
        pb := pb + [c];
        SetTop(stack[depth].(state := CommentEnd));
      case CommentEol =>
        SetTop(stack[depth].(state := EatWs));
      case CommentEnd =>
        pb := pb + [c];
        SetTop(stack[depth].(state := if c == '/' then EatWs else Comment));
    }

    /** start */
    method StartPass(c: char) returns (jump: Jump)
      requires Good() && err == Success && stack[depth].state == Start
      modifies this`pb, this`err, this`stPos, this`quote, this`isDouble, stack
      ensures Performed(StartMove(old(State()), c), jump)
    {
      hide Valid, TopOk, Rank;
      jump := GoBreak;
      match c
      case '{' =>
        SetTop(stack[depth].(state := EatWs, saved := FieldStart, current := Obj([])));
      case '[' =>
        SetTop(stack[depth].(state := EatWs, saved := Array, current := Arr([])));
      case 'N' | 'n' =>
        SetTop(stack[depth].(state := NullWord));
        pb, stPos, jump := "", 0, GoRedo;
      case '"' | '\'' =>
        SetTop(stack[depth].(state := StringBody));
        pb, quote := "", c;
      case 'T' | 't' | 'F' | 'f' =>
        SetTop(stack[depth].(state := Boolean));
        pb, stPos, jump := "", 0, GoRedo;
      case _ =>
        if '0' <= c <= '9' || c == '-' {
          SetTop(stack[depth].(state := Number));
          pb, isDouble, jump := "", false, GoRedo;
        } else {
          err := Unexpected;
          jump := GoOut;
        }
    }

    /** The end of a value: it becomes `current`, and white space may follow. */
    method SetValue(v: Json)
      requires Shape()
      modifies stack
      ensures Shape() && State() == AfterValue(old(State()), v)
    {
      SetTop(stack[depth].(state := EatWs, saved := Finish, current := v));
    }

    /** null */
    method NullPass(c: char) returns (jump: Jump)
      requires Good() && err == Success && stack[depth].state == NullWord
      modifies this`pb, this`err, this`stPos, stack
      ensures Performed(NullMove(old(State()), c), jump)
    {
      pb := pb + [c];
      if !SameWord("null", pb, Min(stPos + 1, 4)) {
        err := BadNull;
        return GoOut;
      }
      if stPos == 4 {
        SetValue(Null);
        return GoRedo;
      }
      stPos := stPos + 1;
      jump := GoBreak;
    }

    /** boolean */
    method BooleanPass(c: char) returns (jump: Jump)
      requires Good() && err == Success && stack[depth].state == Boolean
      modifies this`pb, this`err, this`stPos, stack
      ensures Performed(BooleanMove(old(State()), c), jump)
    {
      pb := pb + [c];
      if SameWord("true", pb, Min(stPos + 1, 4)) {
        if stPos == 4 {
          SetValue(Bool(true));
          return GoRedo;
        }
      } else if SameWord("false", pb, Min(stPos + 1, 5)) {
        if stPos == 5 {
          SetValue(Bool(false));
          return GoRedo;
        }
      } else {
        err := BadBoolean;
        return GoOut;
      }
      stPos := stPos + 1;
      jump := GoBreak;
    }

    /** number after its loop. */
    method NumberPass(c: char) returns (jump: Jump)
      requires Good() && err == Success && stack[depth].state == Number && !IsNumberChar(c)
      modifies this`err, stack
      ensures Performed(NumberMove(old(State()), c), jump)
    {
      match NumberValue(pb, isDouble)
      case Some(v) =>
        SetValue(v);
        jump := GoRedo;
      case None =>
        err := BadNumber;
        jump := GoOut;
    }

    /** string and object_field after their loop. */
    method StringPass(c: char) returns (jump: Jump)
      requires Good() && err == Success && (stack[depth].state == StringBody || stack[depth].state == Field)
      requires c == quote || c == '\\'
      modifies stack
      ensures Performed(StringMove(old(State()), c), jump)
    {
      jump := GoBreak;
      if c == quote {
        if stack[depth].state == Field {
          SetTop(stack[depth].(field := Some(CStr(pb)), state := EatWs, saved := FieldEnd));
        } else {
          SetValue(Str(CStr(pb)));
        }
      } else {
        SetTop(stack[depth].(saved := stack[depth].state, state := StringEscape));
      }
    }

    /** string_escape */
    method EscapePass(c: char) returns (jump: Jump)
      requires Good() && err == Success && stack[depth].state == StringEscape
      modifies this`pb, this`err, this`ucs, this`stPos, stack
      ensures Performed(EscapeMove(old(State()), c), jump)
    {
      jump := GoBreak;
      if c == 'u' {
        ucs, stPos := 0, 0;
        SetTop(stack[depth].(state := EscapeUnicode));
        return;
      }
      match c {
        case '"' | '\\' | '/' => pb := pb + [c];
        case 'b' => pb := pb + [8 as char];
        case 'n' => pb := pb + "\n";
        case 'r' => pb := pb + "\r";
        case 't' => pb := pb + "\t";
        case _ =>
          err := BadString;
          return GoOut;
      }
      SetTop(stack[depth].(state := stack[depth].saved));
    }

    /** json_tokener_reset_level */
    method ResetLevel(d: int)
      requires 0 <= d < stack.Length
      modifies stack
      ensures stack[d] == FRESH && forall i :: 0 <= i < stack.Length && i != d ==> stack[i] == old(stack[i])
    {
      stack[d] := FRESH;
    }

    /** Wait for a value one level up. What json_tokener_reset_level puts there is NULL. */
    method PushLevel(waiting: State)
      requires Shape() && depth < MAX_DEPTH - 1
      modifies this`depth, stack
      ensures Shape() && State() == Push(old(State()), waiting)
    {
      SetTop(stack[depth].(state := waiting));
      depth := depth + 1;
      assert stack[depth].current == Null && stack[depth].field == None;
      ResetLevel(depth);
      assert stack[..depth] == old(State()).below + [old(State()).top.(state := waiting)];
    }

    /** array and array_sep */
    method ArrayPass(c: char) returns (jump: Jump)
      requires Good() && err == Success && (stack[depth].state == Array || stack[depth].state == ArraySep)
      modifies this`err, this`depth, stack
      ensures Performed(ArrayMove(old(State()), c), jump)
    {
      jump := GoBreak;
      if c == ']' {
        SetTop(stack[depth].(saved := Finish, state := EatWs));
      } else if stack[depth].state == ArraySep {
        if c == ',' {
          SetTop(stack[depth].(saved := Array, state := EatWs));
        } else {
          err := BadArray;
          jump := GoOut;
        }
      } else if depth >= MAX_DEPTH - 1 {
        err := TooDeep;
        jump := GoOut;
      } else {
        PushLevel(ArrayAdd);
        jump := GoRedo;
      }
    }

    /** object_field_start, object_field_end, object_value and object_sep */
    method ObjectPass(c: char) returns (jump: Jump)
      requires Good() && err == Success
      requires var s := stack[depth].state; s.FieldStart? || s.FieldEnd? || s.ObjValue? || s.ObjSep?
      modifies this`err, this`depth, this`quote, this`pb, stack
      ensures Performed(ObjectMove(old(State()), c), jump)
    {
      jump := GoOut;
      match stack[depth].state
      case FieldStart =>
        if c == '}' {
          SetTop(stack[depth].(saved := Finish, state := EatWs));
          jump := GoBreak;
        } else if c == '"' || c == '\'' {
          quote, pb := c, "";
          SetTop(stack[depth].(state := Field));
          jump := GoBreak;
        } else {
          err := BadKeyName;
        }
      case FieldEnd =>
        if c == ':' {
          SetTop(stack[depth].(saved := ObjValue, state := EatWs));
          jump := GoBreak;
        } else {
          err := BadKeySep;
        }
      case ObjValue =>
        if depth >= MAX_DEPTH - 1 {
          err := TooDeep;
        } else {
          PushLevel(ObjValueAdd);
          jump := GoRedo;
        }
      case ObjSep =>
        if c == '}' {
          SetTop(stack[depth].(saved := Finish, state := EatWs));
          jump := GoBreak;
        } else if c == ',' {
          SetTop(stack[depth].(saved := FieldStart, state := EatWs));
          jump := GoBreak;
        } else {
          err := BadValueSep;
        }
    }

    /** finish: hand the value to the level below, which must be waiting for it. */
    method FinishPass() returns (jump: Jump, obj: Json)
      requires Good() && err == Success && stack[depth].state == Finish
      modifies this`depth, stack
      ensures Performed(FinishMove(old(State())), jump)
      ensures jump == GoRedo ==> obj == FinishMove(old(State())).obj
    {
      obj := Null;
      if depth == 0 {
        return GoOut, obj;
      }
      obj := stack[depth].current;
      ResetLevel(depth);
      depth := depth - 1;
      assert stack[..depth] == old(stack[..depth])[..depth];
      jump := GoRedo;
    }

    /** array_add and object_value_add */
    method AddPass(obj: Json) returns (jump: Jump)
      requires Good() && Adding(State())
      modifies stack
      ensures Shape() && State() == old(State()).(top := Adopt(old(State()).top, obj)) && jump == GoRedo
    {
      var l := stack[depth];
      if l.state == ArrayAdd {
        SetTop(l.(current := Arr(l.current.elems + [obj]), saved := ArraySep, state := EatWs));
      } else {
        SetTop(l.(current := Obj(Put(l.current.members, l.field.value, obj)), field := None, saved := ObjSep,
                  state := EatWs));
      }
      jump := GoRedo;
    }

    // ---------- the whole function ----------

    /** A pass of the automaton on the pending character leads on. */
    lemma {:induction false} PerformedLeadsOn(t: Tok, obj: Json, r: Outcome, str: string, len: int, c: char, jump: Jump,
                                              next: Json)
      requires Valid(t) && Readable(str, len) && Rest(str, len) != [] && c == Rest(str, len)[0]
      requires r == RunObj(t, obj, Rest(str, len)) && Performed(Dispatch(t, obj, c), jump)
      requires Dispatch(t, obj, c).Pop? ==> next == Dispatch(t, obj, c).obj
      ensures LeadsTo(r, str, len, jump, c, next)
      ensures jump == GoRedo ==> Rank(State().top) < Rank(t.top)
    {
      hide FeedObj, RunObj;
      RunMove(t, obj, Rest(str, len));
      var m := Dispatch(t, obj, c);
      if m.Redo? {
        RedoDropsObj(t, obj, Rest(str, len));
      }
    }

    /** The tight loop of the current state, if it has one, has come to its end at `c`. */
    ghost predicate LoopDone(c: char)
      requires Shape()
      reads this, stack
    {
      match stack[depth].state
      case EatWs => !IsSpace(c)
      case Comment => c == '*'
      case CommentEol => c == '\n'
      case StringBody | Field => c == quote || c == '\\'
      case Number => !IsNumberChar(c)
      case _ => true
    }

    /** The loop at the start of a case. */
    method TightLoop(str: string, len: int, c0: char, ghost r: Outcome) returns (c: char, ok: bool)
      requires Pending(str, len, c0) && r == Run(State(), Rest(str, len))
      modifies this`charOffset, this`err, this`pb, this`isDouble
      ensures charOffset >= old(charOffset) && State() == old(State()).(pb := pb, isDouble := isDouble)
      ensures Gathered(r, str, len, c, ok) && (ok ==> LoopDone(c))
    {
      hide RunObj, FeedObj;
      c, ok := c0, true;
      match stack[depth].state
      case EatWs => c, ok := SkipSpace(str, len, c0, r);
      case Comment => c, ok := SkipComment(str, len, c0, r);
      case CommentEol => c, ok := SkipLine(str, len, c0, r);
      case StringBody | Field => c, ok := GatherString(str, len, c0, r);
      case Number => c, ok := GatherNumber(str, len, c0, r);
      case _ =>
    }

    /** The rest of a case, for the character its loop stopped at. */
    method Pass(c: char, obj: Json) returns (jump: Jump, next: Json)
      requires Good() && err == Success && LoopDone(c)
      modifies this`pb, this`err, this`stPos, this`quote, this`isDouble, this`ucs, this`depth, stack
      ensures Performed(Dispatch(old(State()), obj, c), jump)
      ensures var m := Dispatch(old(State()), obj, c); next == if m.Pop? then m.obj else obj
    {
      hide BlankMove, StartMove, NullMove, BooleanMove, NumberMove, StringMove, EscapeMove, UnicodeMove,
        ArrayMove, ObjectMove, TopOk, Rank;
      next := obj;
      match stack[depth].state
      case EatWs | CommentStart | Comment | CommentEol | CommentEnd => jump := BlankPass(c);
      case Start => jump := StartPass(c);
      case Finish =>
        var v;
        jump, v := FinishPass();
        next := if jump == GoRedo then v else obj;
      case NullWord => jump := NullPass(c);
      case Boolean => jump := BooleanPass(c);
      case Number => jump := NumberPass(c);
      case StringBody | Field => jump := StringPass(c);
      case StringEscape => jump := EscapePass(c);
      case EscapeUnicode => jump := UnicodeDigit(c);
      case Array | ArraySep => jump := ArrayPass(c);
      case FieldStart | FieldEnd | ObjValue | ObjSep => jump := ObjectPass(c);
      case ArrayAdd | ObjValueAdd => jump := AddPass(obj);
    }

    /** A case from where its loop stopped. */
    method PassOn(str: string, len: int, c: char, obj: Json, ghost o: Json, ghost r: Outcome)
      returns (jump: Jump, next: Json)
      requires Pending(str, len, c) && LoopDone(c) && r == RunObj(State(), o, Rest(str, len))
      requires Adding(State()) ==> o == obj
      modifies this`pb, this`err, this`stPos, this`quote, this`isDouble, this`ucs, this`depth, stack
      ensures LeadsTo(r, str, len, jump, c, next)
      ensures jump == GoRedo ==> Rank(State().top) < old(Rank(State().top))
    {
      hide RunObj, FeedObj, BlankMove, StartMove, NullMove, BooleanMove, NumberMove, StringMove, EscapeMove,
        UnicodeMove, ArrayMove, ObjectMove, FinishMove, Adopt, LeadsTo, Rank, TopOk, LoopDone;
      ghost var t := State();
      jump, next := Pass(c, obj);
      PerformedLeadsOn(t, o, r, str, len, c, jump, next);
    }

    /** One execution of the switch. */
    method Switch(str: string, len: int, c0: char, obj: Json, ghost r: Outcome)
      returns (jump: Jump, c: char, next: Json)
      requires Pending(str, len, c0)
      requires r == RunObj(State(), if Adding(State()) then obj else Null, Rest(str, len))
      modifies this, stack
      ensures charOffset >= old(charOffset) && LeadsTo(r, str, len, jump, c, next)
      ensures jump == GoRedo && charOffset == old(charOffset) ==> Rank(State().top) < old(Rank(State().top))
    {
      hide RunObj, FeedObj, Dispatch, Rank, TopOk;
      next, c := obj, c0;
      if stack[depth].state == EscapeUnicode {
        jump, c := GatherUnicode(str, len, c0, r);
        return;
      }
      ghost var o := if Adding(State()) then obj else Null;
      if stack[depth].state != ArrayAdd && stack[depth].state != ObjValueAdd {
        var ok;
        c, ok := TightLoop(str, len, c0, r);
        if !ok {
          return GoOut, c, obj;
        }
      }
      jump, next := PassOn(str, len, c, obj, o, r);
    }

    /** json_tokener_new */
    constructor ()
      ensures Good() && State() == NEW_TOK && err == Success && fresh(stack)
    {
      pb, depth, isDouble, stPos, charOffset, err, ucs, quote := "", 0, false, 0, 0, Success, 0, NUL;
      stack := new Level[MAX_DEPTH](_ => Level(EatWs, EatWs, Null, None));
      new;
      Reset();
    }

    /** json_tokener_reset: drop every level in use; the scratch fields stay as they are. */
    method Reset()
      requires Shape()
      modifies this`depth, this`err, stack
      ensures Good() && State() == old(State()).(below := [], top := FRESH) && err == Success
    {
      var i := depth;
      while i >= 0
        invariant Shape() && depth == old(depth) && -1 <= i <= depth
        invariant forall k :: i < k <= depth ==> stack[k] == FRESH
        invariant forall k :: depth < k < MAX_DEPTH ==> stack[k] == old(stack[k])
      {
        ResetLevel(i);
        i := i - 1;
      }
      depth := 0;
      err := Success;
    }

    /** json_tokener_parse_ex. The call ends with the tokener, the error and the
        position of a run of the automaton over the characters it may read. */
    method ParseEx(str: string, len: int) returns (result: Json)
      requires Good() && (0 <= len <= |str| || NUL in str)
      modifies this, stack
      ensures Good()
      ensures var r := Run(old(State()), Input(str, len));
              && State() == r.tok && err == r.err && charOffset == |Input(str, len)| - r.left
              && result == if r.err == Success then r.tok.top.current else Null
    {
      hide RunObj, FeedObj, Dispatch, TopOk, Waiting;
      ghost var r := Run(State(), Input(str, len));
      var obj, c, jump := Null, 1 as char, GoRedo;
      charOffset := 0;
      err := Success;
      assert Input(str, len) == Rest(str, len);
      assert str[0..] == str;
      var ok;
      c, ok := PopChar(str, len, c);
      if !ok {
        RunEmpty(State());
      }
      while ok
        invariant ok ==> LeadsTo(r, str, len, GoRedo, c, obj)
        invariant !ok ==> Ending(r, str, len, c)
        decreases |Input(str, len)| - charOffset, ok, Rank(State().top)
      {
        jump, c, obj := Switch(str, len, c, obj, r);
        if jump == GoBreak {
          c, ok := Next(str, len, c, State());
        } else if jump == GoOut {
          ok := false;
        }
      }
      if c == NUL && stack[depth].state != Finish && stack[depth].saved != Finish {
        err := UnexpectedEof;
      }
      result := if err == Success then stack[depth].current else Null;
    }
  }

  /** json_tokener_parse: a call on a terminated string with a tokener of its own. */
  method Parse(str: string) returns (result: ParseResult)
    requires NUL in str
    ensures result == ParseSpec(str)
  {
    var tok := new JsonTokener();
    var obj := tok.ParseEx(str, -1);
    result := if tok.err != Success then Failed(tok.err) else Parsed(obj);
  }
}
