/** The serialiser of json_object.c: the text of a JSON tree, and the code that appends it. */
module Printer {
  import opened JsonValue
  import opened Lexemes
  import opened Printbuf

  // ---------- the text ----------

  predicate Escaped(c: char) {
    c == '"' || c == '\\' || c == '/' || c < ' '
  }

  function EscapeChar(c: char): string {
    if c == 8 as char then "\\b"
    else if c == '\n' then "\\n"
    else if c == '\r' then "\\r"
    else if c == '\t' then "\\t"
    else if c == '"' then "\\\""
    else if c == '\\' then "\\\\"
    else if c == '/' then "\\/"
    else if c < ' ' then "\\u00" + [HexChar(c as int / 16), HexChar(c as int % 16)]
    else [c]
  }

  function Escape(s: string): string {
    if s == "" then "" else EscapeChar(s[0]) + Escape(s[1..])
  }

  function Text(v: Json): string
    decreases v, 0
  {
    match v
    case Null => "null"
    case Bool(b) => if b then "true" else "false"
    case Int(i) => IntText(i)
    case Double(d) => DoubleText(d)
    case Str(s) => "\"" + Escape(s) + "\""
    case Arr(es) => "[" + ElemsText(es, true) + " ]"
    case Obj(ms) => "{" + MembersText(ms, true) + " }"
  }

  function ElemText(e: Json, first: bool): string
    decreases e, 1
  {
    (if first then " " else ", ") + Text(e)
  }

  function ElemsText(es: seq<Json>, first: bool): string
    decreases es, 0
  {
    if es == [] then "" else ElemText(es[0], first) + ElemsText(es[1..], false)
  }

  function KeyText(key: CString, first: bool): string {
    (if first then "" else ",") + " \"" + Escape(key) + "\": "
  }

  function MembersText(ms: seq<Member<Json>>, first: bool): string
    decreases ms, 0
  {
    if ms == [] then ""
    else
      var m := ms[0];
      KeyText(m.key, first) + Text(m.value) + MembersText(ms[1..], false)
  }

  // ---------- what its loops need ----------

  lemma {:induction false} EscapeAppend(a: string, b: string)
    ensures Escape(a + b) == Escape(a) + Escape(b)
  {
    if a == "" {
      assert a + b == b;
    } else {
      assert (a + b)[1..] == a[1..] + b;
      EscapeAppend(a[1..], b);
    }
  }

  lemma EscapeNext(s: string, i: nat)
    requires i < |s|
    ensures Escape(s[..i + 1]) == Escape(s[..i]) + EscapeChar(s[i])
  {
    assert s[..i + 1] == s[..i] + [s[i]];
    EscapeAppend(s[..i], [s[i]]);
    assert Escape([s[i]]) == EscapeChar(s[i]) + Escape([s[i]][1..]);
  }

  lemma Assoc(a: string, b: string, c: string)
    ensures a + b + c == a + (b + c)
  {
  }

  lemma {:induction false} ElemsTextAppend(es: seq<Json>, e: Json, first: bool)
    ensures ElemsText(es + [e], first) == ElemsText(es, first) + ElemText(e, es == [] && first)
  {
    if es == [] {
      assert [e][1..] == [];
    } else {
      assert (es + [e])[1..] == es[1..] + [e];
      ElemsTextAppend(es[1..], e, false);
      Assoc(ElemText(es[0], first), ElemsText(es[1..], false), ElemText(e, false));
    }
  }

  lemma {:induction false} MembersTextAppend(ms: seq<Member<Json>>, m: Member<Json>, first: bool)
    ensures MembersText(ms + [m], first) ==
            MembersText(ms, first) + (KeyText(m.key, ms == [] && first) + Text(m.value))
  {
    if ms == [] {
      assert [m][1..] == [];
    } else {
      assert (ms + [m])[1..] == ms[1..] + [m];
      MembersTextAppend(ms[1..], m, false);
      Assoc(KeyText(ms[0].key, first) + Text(ms[0].value), MembersText(ms[1..], false),
            KeyText(m.key, false) + Text(m.value));
    }
  }

  // ---------- what the text of a string looks like ----------

  /** The text p stands for the character c between quotes. */
  ghost predicate SpellsChar(p: string, c: char) {
    if c in {'"', '\\', '/'} then p == ['\\', c]
    else if c in {8 as char, '\n', '\r', '\t'} then
      p == (if c == '\n' then "\\n" else if c == '\r' then "\\r" else if c == '\t' then "\\t" else "\\b")
    else if c < ' ' then
      exists a, b :: 0 <= a < 16 && 0 <= b < 16 && c as int == 16 * a + b
        && p == ['\\', 'u', '0', '0', "0123456789abcdef"[a], "0123456789abcdef"[b]]
    else p == [c]
  }

  /** The text p stands for the characters of s, one after the other. */
  ghost predicate Spells(p: string, s: string)
    decreases |s|
  {
    if s == "" then p == ""
    else exists k :: 0 < k <= |p| && SpellsChar(p[..k], s[0]) && Spells(p[k..], s[1..])
  }

  lemma CharSpelled(c: char)
    ensures SpellsChar(EscapeChar(c), c) && forall i :: 0 <= i < |EscapeChar(c)| ==> EscapeChar(c)[i] >= ' '
  {
    if Escaped(c) && c < ' ' {
      var a, b := c as int / 16, c as int % 16;
      assert c as int == 16 * a + b && HexChar(a) == "0123456789abcdef"[a] && HexChar(b) == "0123456789abcdef"[b];
    }
  }

  lemma {:induction false} StringSpelled(s: string)
    ensures Spells(Escape(s), s) && Clean(Escape(s))
  {
    hide EscapeChar, SpellsChar;
    if s != "" {
      CharSpelled(s[0]);
      StringSpelled(s[1..]);
      var p, k := Escape(s), |EscapeChar(s[0])|;
      assert p[..k] == EscapeChar(s[0]) && p[k..] == Escape(s[1..]);
      NoEmptyEscape(s[0]);
    }
  }

  lemma NoEmptyEscape(c: char)
    ensures EscapeChar(c) != ""
  {
  }

  /** No control character in the text. */
  ghost predicate Clean(s: string) {
    forall i :: 0 <= i < |s| ==> s[i] >= ' '
  }

  lemma CleanDigits(s: string)
    requires AllDigits(s)
    ensures Clean(s)
  {
  }

  lemma IntClean(i: int)
    ensures Clean(IntText(i))
  {
    hide Numeral;
    CleanDigits(Numeral(if i < 0 then -i else i));
  }

  lemma DoubleClean(d: real)
    ensures Clean(DoubleText(d))
  {
    hide Numeral, Padded, Millionths;
    CleanDigits(Numeral(Millionths(d) / 1000000));
    CleanDigits(Padded(Millionths(d), 6));
  }

  /** No tree is printed with a control character. */
  lemma {:induction false} PrintedClean(v: Json)
    ensures Clean(Text(v))
    decreases v, 0
  {
    hide Escape, IntText, DoubleText, ElemsText, MembersText;
    match v
    case Null =>
    case Bool(_) =>
    case Int(i) => IntClean(i);
    case Double(d) => DoubleClean(d);
    case Str(s) => StringSpelled(s);
    case Arr(es) => ElemsClean(es, true);
    case Obj(ms) => MembersClean(ms, true);
  }

  lemma {:induction false} ElemsClean(es: seq<Json>, first: bool)
    ensures Clean(ElemsText(es, first))
    decreases es, 0
  {
    hide Text;
    if es != [] {
      PrintedClean(es[0]);
      ElemsClean(es[1..], false);
    }
  }

  lemma {:induction false} MembersClean(ms: seq<Member<Json>>, first: bool)
    ensures Clean(MembersText(ms, first))
    decreases ms, 0
  {
    hide Text, Escape;
    if ms != [] {
      StringSpelled(ms[0].key);
      PrintedClean(ms[0].value);
      MembersClean(ms[1..], false);
    }
  }

  // ---------- the code ----------

  /** The buffer holds `text` after what it held at first. */
  ghost predicate Holds(pb: Buffer, base: string, text: string)
    reads pb, pb.buf
  {
    pb.Valid() && pb.Contents() == base + text
  }

  /** Append one more piece. */
  method Emit(pb: Buffer, data: string, ghost base: string, ghost text: string)
    requires Holds(pb, base, text)
    modifies pb, pb.buf
    ensures Holds(pb, base, text + data)
    ensures pb.buf == old(pb.buf) || fresh(pb.buf)
  {
    Assoc(base, text, data);
    pb.MemAppend(data);
  }

  /** json_escape_str: plain runs are appended in one piece. */
  method EscapeStr(pb: Buffer, str: CString, ghost base: string, ghost text: string)
    requires Holds(pb, base, text)
    modifies pb, pb.buf
    ensures Holds(pb, base, text + Escape(str)) && Spells(Escape(str), str)
    ensures pb.buf == old(pb.buf) || fresh(pb.buf)
  {
    StringSpelled(str);
    hide Escape, EscapeChar;
    var pos, start := 0, 0;
    var c := 1 as char;
    EscapeNothing(str);
    while c != NUL
      invariant 0 <= start <= pos <= |str|
      invariant c == NUL ==> pos == |str|
      invariant pb.buf == old(pb.buf) || fresh(pb.buf)
      invariant Holds(pb, base, text + Escape(str[..start]))
      invariant Escape(str[..pos]) == Escape(str[..start]) + str[start..pos]
      decreases |str| - pos, c != NUL
    {
      c := if pos < |str| then str[pos] else NUL;
      if Escaped(c) && c != NUL {
        FlushRun(pb, str, start, pos, base, text);
        EmitEscape(pb, c, base, text + Escape(str[..pos]));
        EscapeNext(str, pos);
        Assoc(text, Escape(str[..pos]), EscapeChar(c));
        pos := pos + 1;
        start := pos;
        assert str[start..pos] == "";
      } else if c != NUL {
        PlainNext(str, start, pos);
        pos := pos + 1;
      }
    }
    FlushRun(pb, str, start, pos, base, text);
    assert str[..pos] == str;
  }

  /** The cases of json_escape_str that write something else than the character. */
  method EmitEscape(pb: Buffer, c: char, ghost base: string, ghost text: string)
    requires Holds(pb, base, text) && Escaped(c)
    modifies pb, pb.buf
    ensures Holds(pb, base, text + EscapeChar(c))
    ensures pb.buf == old(pb.buf) || fresh(pb.buf)
  {
    match c
    case '\n' => Emit(pb, "\\n", base, text);
    case '\r' => Emit(pb, "\\r", base, text);
    case '\t' => Emit(pb, "\\t", base, text);
    case '"' => Emit(pb, "\\\"", base, text);
    case '\\' => Emit(pb, "\\\\", base, text);
    case '/' => Emit(pb, "\\/", base, text);
    case _ =>
      if c == 8 as char {
        Emit(pb, "\\b", base, text);
      } else {
        var hex := "0123456789abcdef";
        Emit(pb, "\\u00" + [hex[c as int / 16], hex[c as int % 16]], base, text);
      }
  }

  lemma EscapeNothing(str: string)
    ensures Escape(str[..0]) == "" && str[0..0] == ""
  {
  }

  lemma PlainNext(str: string, start: nat, pos: nat)
    requires start <= pos < |str| && !Escaped(str[pos])
    requires Escape(str[..pos]) == Escape(str[..start]) + str[start..pos]
    ensures Escape(str[..pos + 1]) == Escape(str[..start]) + str[start..pos + 1]
  {
    EscapeNext(str, pos);
    assert str[start..pos + 1] == str[start..pos] + [str[pos]];
    Assoc(Escape(str[..start]), str[start..pos], [str[pos]]);
  }

  /** Append the plain characters passed over since the last escape, if any. */
  method FlushRun(pb: Buffer, str: CString, start: nat, pos: nat, ghost base: string, ghost text: string)
    requires start <= pos <= |str| && Holds(pb, base, text + Escape(str[..start]))
    requires Escape(str[..pos]) == Escape(str[..start]) + str[start..pos]
    modifies pb, pb.buf
    ensures Holds(pb, base, text + Escape(str[..pos]))
    ensures pb.buf == old(pb.buf) || fresh(pb.buf)
  {
    if pos - start > 0 {
      Emit(pb, str[start..pos], base, text + Escape(str[..start]));
    }
    Assoc(text, Escape(str[..start]), str[start..pos]);
  }

  /** The _to_json_string functions; a null pointer prints as null. */
  method ToJsonString(v: Json, pb: Buffer, ghost base: string, ghost text: string)
    requires Holds(pb, base, text)
    modifies pb, pb.buf
    ensures Holds(pb, base, text + Text(v))
    ensures pb.buf == old(pb.buf) || fresh(pb.buf)
    decreases v, 1
  {
    match v
    case Null => Emit(pb, "null", base, text);
    case Bool(b) => Emit(pb, if b then "true" else "false", base, text);
    case Int(i) => Emit(pb, IntText(i), base, text);
    case Double(d) => Emit(pb, DoubleText(d), base, text);
    case Str(s) => StringToJsonString(s, pb, base, text);
    case Arr(es) => ArrayToJsonString(v, pb, base, text);
    case Obj(ms) => ObjectToJsonString(v, pb, base, text);
  }

  /** json_object_string_to_json_string */
  method StringToJsonString(s: CString, pb: Buffer, ghost base: string, ghost text: string)
    requires Holds(pb, base, text)
    modifies pb, pb.buf
    ensures Holds(pb, base, text + ("\"" + Escape(s) + "\""))
    ensures pb.buf == old(pb.buf) || fresh(pb.buf)
  {
    Emit(pb, "\"", base, text);
    EscapeStr(pb, s, base, text + "\"");
    Assoc(text, "\"", Escape(s));
    Emit(pb, "\"", base, text + ("\"" + Escape(s)));
    Assoc(text, "\"" + Escape(s), "\"");
  }

  /** json_object_array_to_json_string */
  method ArrayToJsonString(v: Json, pb: Buffer, ghost base: string, ghost text: string)
    requires v.Arr? && Holds(pb, base, text)
    modifies pb, pb.buf
    ensures Holds(pb, base, text + Text(v))
    ensures pb.buf == old(pb.buf) || fresh(pb.buf)
    decreases v, 0
  {
    hide ElemsText;
    var es := v.elems;
    Emit(pb, "[", base, text);
    NothingYet(v);
    var i := 0;
    while i < |es|
      invariant 0 <= i <= |es|
      invariant pb.buf == old(pb.buf) || fresh(pb.buf)
      invariant Holds(pb, base, text + ("[" + ElemsText(es[..i], true)))
    {
      ghost var sofar := text + ("[" + ElemsText(es[..i], true));
      var sep := if i > 0 then ", " else " ";
      Emit(pb, sep, base, sofar);
      ToJsonString(es[i], pb, base, sofar + sep);
      NextElem(es, i, text);
      i := i + 1;
    }
    assert es[..i] == es;
    Emit(pb, " ]", base, text + ("[" + ElemsText(es, true)));
    Assoc(text, "[" + ElemsText(es, true), " ]");
  }

  lemma NothingYet(v: Json)
    ensures v.Arr? ==> "[" + ElemsText(v.elems[..0], true) == "["
    ensures v.Obj? ==> "{" + MembersText(v.members[..0], true) == "{"
  {
  }

  lemma NextElem(es: seq<Json>, i: nat, text: string)
    requires i < |es|
    ensures text + ("[" + ElemsText(es[..i], true)) + (if i > 0 then ", " else " ") + Text(es[i]) ==
            text + ("[" + ElemsText(es[..i + 1], true))
  {
    ElemsTextAppend(es[..i], es[i], true);
    assert es[..i + 1] == es[..i] + [es[i]];
    var done, sep := ElemsText(es[..i], true), if i > 0 then ", " else " ";
    Assoc(text + ("[" + done), sep, Text(es[i]));
    Assoc(text, "[" + done, sep + Text(es[i]));
    Assoc("[", done, sep + Text(es[i]));
  }

  /** json_object_object_to_json_string */
  method ObjectToJsonString(v: Json, pb: Buffer, ghost base: string, ghost text: string)
    requires v.Obj? && Holds(pb, base, text)
    modifies pb, pb.buf
    ensures Holds(pb, base, text + Text(v))
    ensures pb.buf == old(pb.buf) || fresh(pb.buf)
    decreases v, 0
  {
    hide MembersText, KeyText;
    var ms := v.members;
    Emit(pb, "{", base, text);
    NothingYet(v);
    var i := 0;
    while i < |ms|
      invariant 0 <= i <= |ms|
      invariant pb.buf == old(pb.buf) || fresh(pb.buf)
      invariant Holds(pb, base, text + ("{" + MembersText(ms[..i], true)))
    {
      var m := ms[i];
      ghost var sofar := text + ("{" + MembersText(ms[..i], true));
      KeyToJsonString(m.key, i == 0, pb, base, sofar);
      ToJsonString(m.value, pb, base, sofar + KeyText(m.key, i == 0));
      NextMember(ms, i, text);
      i := i + 1;
    }
    assert ms[..i] == ms;
    Emit(pb, " }", base, text + ("{" + MembersText(ms, true)));
    Assoc(text, "{" + MembersText(ms, true), " }");
  }

  /** The separator, the quoted key and the colon. */
  method KeyToJsonString(key: CString, first: bool, pb: Buffer, ghost base: string, ghost text: string)
    requires Holds(pb, base, text)
    modifies pb, pb.buf
    ensures Holds(pb, base, text + KeyText(key, first))
    ensures pb.buf == old(pb.buf) || fresh(pb.buf)
  {
    ghost var sep := if first then "" else ",";
    if !first {
      Emit(pb, ",", base, text);
    }
    assert text + sep == if first then text else text + ",";
    Emit(pb, " \"", base, text + sep);
    Assoc(text, sep, " \"");
    EscapeStr(pb, key, base, text + (sep + " \""));
    Assoc(text, sep + " \"", Escape(key));
    Emit(pb, "\": ", base, text + (sep + " \"" + Escape(key)));
    Assoc(text, sep + " \"" + Escape(key), "\": ");
  }

  lemma NextMember(ms: seq<Member<Json>>, i: nat, text: string)
    requires i < |ms|
    ensures text + ("{" + MembersText(ms[..i], true)) + KeyText(ms[i].key, i == 0) + Text(ms[i].value) ==
            text + ("{" + MembersText(ms[..i + 1], true))
  {
    MembersTextAppend(ms[..i], ms[i], true);
    assert ms[..i + 1] == ms[..i] + [ms[i]];
    var done, key, val := MembersText(ms[..i], true), KeyText(ms[i].key, i == 0), Text(ms[i].value);
    Assoc(text + ("{" + done), key, val);
    Assoc(text, "{" + done, key + val);
    Assoc("{", done, key + val);
  }

  /** json_object_to_json_string with a buffer of its own. Whatever is printed has no control character; a
      string is quoted and spelled character by character. */
  method Print(v: Json) returns (s: string)
    ensures s == Text(v)
    ensures forall i :: 0 <= i < |s| ==> s[i] >= ' '
    ensures v.Str? ==> |s| >= 2 && s[0] == s[|s| - 1] == '"' && Spells(s[1..|s| - 1], v.s)
  {
    PrintedClean(v);
    if v.Str? {
      StringSpelled(v.s);
      assert Text(v)[1..|Text(v)| - 1] == Escape(v.s);
    }
    var pb := new Buffer();
    ToJsonString(v, pb, "", "");
    s := pb.buf[..pb.bpos];
  }
}
