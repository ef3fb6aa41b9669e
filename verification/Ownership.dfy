/** Who owns the nodes while json_tokener_parse_ex runs: the stack slots, the containers, and for a
    moment the local `obj`. Each step of the automaton is paired with what it does to the counts. */
module Ownership {
  import opened Automaton
  import opened Bags
  import opened JsonValue
  import opened Lexemes
  import opened RefCount
  import LinkHash
  import ObjectStore

  /** The nodes, the `current` pointers of the levels in use, and the local `obj` while it owns a node. */
  datatype Hands = Hands(heap: Heap, slots: seq<Ref>, obj: Ref)

  function Outside(s: Hands): multiset<Ref> {
    multiset(s.slots) + multiset{s.obj}
  }

  function LevelAt(t: Tok, i: nat): Level
    requires i <= t.Depth()
  {
    if i < t.Depth() then t.below[i] else t.top
  }

  /** The state a level is in, behind white space, comments and escapes. */
  function Purpose(l: Level): State {
    match l.state
    case EatWs | CommentStart | Comment | CommentEol | CommentEnd | StringEscape | EscapeUnicode => l.saved
    case s => s
  }

  /** The level is about to get its value. */
  predicate Vacant(l: Level) {
    var s := Purpose(l);
    s.Start? || s.NullWord? || s.Boolean? || s.Number? || s.StringBody?
  }

  /** A slot points to a node exactly if the level has a value, and a container node has a place for each
      element or member. */
  ghost predicate Fits(h: Heap, r: Ref, v: Json) {
    && (r.None? <==> v.Null?)
    && (r.Some? ==> r.value < |h.kids| && Count(h, r.value) > 0)
    && (v.Arr? ==> |h.kids[r.value]| == |v.elems|)
    && (v.Obj? ==> |h.kids[r.value]| == |v.members| && DistinctKeys(v.members))
  }

  ghost predicate Ascending(rs: seq<Ref>) {
    forall i, j :: 0 <= i < j < |rs| && rs[i].Some? && rs[j].Some? ==> rs[i].value < rs[j].value
  }

  ghost predicate Single(h: Heap) {
    forall n: nat :: Count(h, n) <= 1
  }

  /** Counts are owners, every live node has one, and the slots match the levels. */
  ghost predicate Sound(t: Tok, obj: Json, s: Hands) {
    && |s.slots| == t.Depth() + 1
    && Counted(s.heap, Outside(s))
    && Single(s.heap)
    && (forall i :: 0 <= i <= t.Depth() ==> Fits(s.heap, s.slots[i], LevelAt(t, i).current))
    && Ascending(s.slots + [s.obj])
    && (if Adding(t) then s.obj.None? <==> obj.Null? else s.obj.None?)
    && (Vacant(t.top) ==> t.top.current == Null)
  }

  // ---------- what a pass does to the nodes ----------

  /** state = ...; current = json_object_new_...(). */
  function Fill(s: Hands): Hands
    requires s.slots != []
  {
    Hands(Made(s.heap), s.slots[|s.slots| - 1 := Some(|s.heap.counts|)], s.obj)
  }

  /** depth++ and json_tokener_reset_level, which puts NULL: levels above the one in use hold no pointer
      (Tokener.JsonTokener.Shape). */
  function Open(s: Hands): Hands { s.(slots := s.slots + [None]) }

  /** obj = json_object_get(current); json_tokener_reset_level; depth--. */
  ghost function Close(s: Hands): Hands
    requires s.slots != [] && s.obj.None? && Counted(s.heap, Outside(s))
  {
    var d := |s.slots| - 1;
    var r := s.slots[d];
    CloseCounts(s);
    Hands(PutRefs(Get(s.heap, r), [r], multiset(s.slots[..d]) + multiset{None, r}), s.slots[..d], r)
  }

  lemma CloseCounts(s: Hands)
    requires s.slots != [] && s.obj.None? && Counted(s.heap, Outside(s))
    ensures var d := |s.slots| - 1;
            Counted(Get(s.heap, s.slots[d]),
                    multiset(s.slots[..d]) + multiset{None, s.slots[d]} + multiset([s.slots[d]]))
  {
    hide Counted;
    var d := |s.slots| - 1;
    var r := s.slots[d];
    assert s.slots == s.slots[..d] + [r];
    assert Outside(s) + multiset{r} == multiset(s.slots[..d]) + multiset{None, r} + multiset([r]);
    if r.Some? {
      Owns(s.heap, Outside(s), r);
    }
    GetCounts(s.heap, Outside(s), r);
  }

  lemma Owns(h: Heap, out: multiset<Ref>, r: Ref)
    requires Counted(h, out) && r in out && r.Some?
    ensures r.value < |h.counts| == |h.kids| && Count(h, r.value) > 0
  {
    assert Count(h, r.value) == Owners(h, out, r.value);
  }

  /** Getting and putting at once is no change. */
  lemma {:induction false} GetThenPut(h: Heap, r: Ref, out: multiset<Ref>)
    requires Counted(h, out) && r in out && Counted(Get(h, r), out + multiset([r]))
    ensures PutRefs(Get(h, r), [r], out) == h
  {
    if r.Some? {
      Owns(h, out, r);
    }
  }

  /** json_object_array_add: the array takes over the reference of `obj`. */
  function AddElem(s: Hands): Hands
    requires s.slots != [] && s.slots[|s.slots| - 1].Some? && s.slots[|s.slots| - 1].value < |s.heap.kids|
  {
    s.(heap := Owned(s.heap, s.slots[|s.slots| - 1].value, s.obj), obj := None)
  }

  /** The place of a key among the members; their number if it is new. */
  function Place<V>(ms: seq<Member<V>>, k: CString): (p: nat)
    ensures p <= |ms| && (p < |ms| ==> ms[p].key == k)
    ensures forall i :: 0 <= i < p ==> ms[i].key != k
  {
    if ms == [] || ms[0].key == k then 0 else 1 + Place(ms[1..], k)
  }

  lemma {:induction false} PlaceWithout<V>(ms: seq<Member<V>>, k: CString)
    requires DistinctKeys(ms)
    ensures |Without(ms, k)| == if Place(ms, k) < |ms| then |ms| - 1 else |ms|
  {
    var p := Place(ms, k);
    if p < |ms| {
      LinkHash.CutIsWithout(ms, p);
    } else {
      WithoutFresh(ms, k);
    }
  }

  /** The first half of json_object_object_add: the old value of the key is put. */
  ghost function Replaced(h: Heap, out: multiset<Ref>, n: nat, p: nat): (r: Heap)
    requires Counted(h, out) && n < |h.kids| && p <= |h.kids[n]|
    ensures Counted(r, out)
  {
    if p < |h.kids[n]| then
      DisownedCounts(h, out, n, p);
      assert multiset([h.kids[n][p]]) == multiset{h.kids[n][p]};
      PutRefs(Disowned(h, n, p), [h.kids[n][p]], out)
    else h
  }

  lemma ReplacedKeeps(h: Heap, out: multiset<Ref>, n: nat, p: nat, m: nat)
    requires Counted(h, out) && n < |h.kids| && p <= |h.kids[n]| && Some(m) in out
    ensures var r := Replaced(h, out, n, p);
            && m < |r.kids| && m < |h.kids| && Count(r, m) > 0
            && (m != n ==> r.kids[m] == h.kids[m])
            && (m == n ==> |r.kids[m]| == if p < |h.kids[n]| then |h.kids[n]| - 1 else |h.kids[n]|)
  {
    var r := Replaced(h, out, n, p);
    Owns(r, out, Some(m));
    Owns(h, out, Some(m));
    if p < |h.kids[n]| {
      DisownedCounts(h, out, n, p);
      assert multiset([h.kids[n][p]]) == multiset{h.kids[n][p]};
      PutKeeps(Disowned(h, n, p), [h.kids[n][p]], out, m);
    }
  }

  lemma ReplacedSingle(h: Heap, out: multiset<Ref>, n: nat, p: nat)
    requires Counted(h, out) && n < |h.kids| && p <= |h.kids[n]| && Single(h)
    ensures Single(Replaced(h, out, n, p)) && |Replaced(h, out, n, p).counts| == |h.counts|
  {
    if p < |h.kids[n]| {
      DisownedCounts(h, out, n, p);
      assert multiset([h.kids[n][p]]) == multiset{h.kids[n][p]};
      PutKeeps(Disowned(h, n, p), [h.kids[n][p]], out, 0);
      forall m: nat ensures Count(Replaced(h, out, n, p), m) <= 1 {
        PutKeeps(Disowned(h, n, p), [h.kids[n][p]], out, m);
        assert Count(h, m) <= 1;
      }
    }
  }

  /** json_object_object_add: the old value of the key is put, the new one taken over. */
  ghost function AddMember(s: Hands, p: nat): Hands
    requires s.slots != [] && s.slots[|s.slots| - 1].Some? && Counted(s.heap, Outside(s))
    requires s.slots[|s.slots| - 1].value < |s.heap.kids| && p <= |s.heap.kids[s.slots[|s.slots| - 1].value]|
  {
    var n := s.slots[|s.slots| - 1].value;
    ReplacedKeepsSlot(s, p);
    s.(heap := Owned(Replaced(s.heap, Outside(s), n, p), n, s.obj), obj := None)
  }

  lemma ReplacedKeepsSlot(s: Hands, p: nat)
    requires s.slots != [] && s.slots[|s.slots| - 1].Some? && Counted(s.heap, Outside(s))
    requires s.slots[|s.slots| - 1].value < |s.heap.kids| && p <= |s.heap.kids[s.slots[|s.slots| - 1].value]|
    ensures s.slots[|s.slots| - 1].value < |Replaced(s.heap, Outside(s), s.slots[|s.slots| - 1].value, p).kids|
  {
    var r := s.slots[|s.slots| - 1];
    assert r in s.slots && r in Outside(s);
    ReplacedKeeps(s.heap, Outside(s), r.value, p, r.value);
  }

  /** The nodes after one pass through the switch. */
  ghost function Pass(t: Tok, obj: Json, c: char, s: Hands): Hands
    requires Valid(t) && Sound(t, obj, s)
  {
    hide Dispatch, Single, Ascending, Open, Fill, Close, AddElem, AddMember;
    var d := t.Depth();
    assert Fits(s.heap, s.slots[d], LevelAt(t, d).current);
    match t.top.state
    case ArrayAdd => AddElem(s)
    case ObjValueAdd => AddMember(s, Place(t.top.current.members, t.top.field.value))
    case Finish => if d == 0 then s else Close(s)
    case _ =>
      var m := Dispatch(t, obj, c);
      if m.tok.Depth() > d then Open(s)
      else if m.tok.top.current == t.top.current then s
      else Fill(s)
  }

  // ---------- every pass keeps the counts right ----------

  lemma AddNull(h: Heap, out: multiset<Ref>)
    requires Counted(h, out)
    ensures Counted(h, out + multiset{None})
  {
    hide Flat;
    forall n: nat ensures Count(h, n) == Owners(h, out + multiset{None}, n) {
      assert Count(h, n) == Owners(h, out, n);
    }
  }

  lemma SlotFits(t: Tok, obj: Json, s: Hands, i: nat)
    requires Sound(t, obj, s) && i <= t.Depth()
    ensures i < |s.slots| && Fits(s.heap, s.slots[i], LevelAt(t, i).current)
    ensures s.slots[i].Some? ==> s.slots[i] in Outside(s)
  {
    assert s.slots[i] in s.slots;
  }

  /** The container at the top takes over `obj`, after its kids became those of g. */
  lemma TakenOver(t: Tok, u: Tok, obj: Json, s: Hands, g: Heap, n: nat)
    requires Sound(t, obj, s) && Valid(t) && u.below == t.below && !Adding(u) && !Vacant(u.top)
    requires s.slots[t.Depth()] == Some(n) && Counted(g, Outside(s)) && Single(g) && n < |g.kids|
    requires forall i :: 0 <= i < t.Depth() ==> Fits(g, s.slots[i], LevelAt(t, i).current)
    requires Count(g, n) > 0 && Fits(Owned(g, n, s.obj), Some(n), u.top.current)
    ensures Sound(u, obj, Hands(Owned(g, n, s.obj), s.slots, None))
  {
    hide Counted, Single, Valid, Adding;
    var d, k := t.Depth(), Owned(g, n, s.obj);
    assert (s.slots + [s.obj])[d] == Some(n) && (s.slots + [s.obj])[d + 1] == s.obj;
    OwnedCounts(g, multiset(s.slots), n, s.obj);
    AddNull(k, multiset(s.slots));
    SameCounts(g, k);
    forall i | 0 <= i <= d ensures Fits(k, s.slots[i], LevelAt(u, i).current) {
      if i < d {
        assert Fits(g, s.slots[i], LevelAt(t, i).current);
        assert (s.slots + [s.obj])[i] == s.slots[i];
      }
    }
    Shorter(s.slots, s.obj);
  }

  lemma SameCounts(g: Heap, k: Heap)
    requires g.counts == k.counts && Single(g)
    ensures Single(k)
  {
    forall n: nat ensures Count(k, n) <= 1 {
      assert Count(g, n) <= 1;
    }
  }

  lemma Shorter(rs: seq<Ref>, r: Ref)
    requires Ascending(rs + [r])
    ensures Ascending(rs) && Ascending(rs + [None])
  {
    var t := rs + [r];
    assert forall i :: 0 <= i < |rs| ==> t[i] == rs[i] && (rs + [None])[i] == rs[i];
  }

  lemma AddElemSound(t: Tok, obj: Json, s: Hands)
    requires Valid(t) && Sound(t, obj, s) && t.top.state.ArrayAdd?
    ensures Sound(t.(top := Adopt(t.top, obj)), obj, Pass(t, obj, NUL, s))
  {
    var d := t.Depth();
    SlotFits(t, obj, s, d);
    var n := s.slots[d].value;
    forall i | 0 <= i < d ensures Fits(s.heap, s.slots[i], LevelAt(t, i).current) {
      SlotFits(t, obj, s, i);
    }
    TakenOver(t, t.(top := Adopt(t.top, obj)), obj, s, s.heap, n);
  }

  lemma {:induction false} MemberFits(s: Hands, n: nat, ms: seq<Member<Json>>, key: CString, obj: Json)
    requires Counted(s.heap, Outside(s)) && Some(n) in Outside(s) && Fits(s.heap, Some(n), Obj(ms))
    ensures var g := Replaced(s.heap, Outside(s), n, Place(ms, key));
            n < |g.kids| && Count(g, n) > 0 && Fits(Owned(g, n, s.obj), Some(n), Obj(JsonValue.Put(ms, key, obj)))
  {
    hide Counted, Replaced, DistinctKeys, Without;
    ReplacedKeeps(s.heap, Outside(s), n, Place(ms, key), n);
    PlaceWithout(ms, key);
    PutDistinct(ms, key, obj);
  }

  lemma BelowFits(t: Tok, obj: Json, s: Hands, p: nat, i: nat)
    requires Sound(t, obj, s) && i < t.Depth() && s.slots[t.Depth()].Some?
    requires s.slots[t.Depth()].value < |s.heap.kids| && p <= |s.heap.kids[s.slots[t.Depth()].value]|
    ensures Fits(Replaced(s.heap, Outside(s), s.slots[t.Depth()].value, p), s.slots[i], LevelAt(t, i).current)
  {
    hide Counted, Replaced, Single;
    var d := t.Depth();
    SlotFits(t, obj, s, i);
    if s.slots[i].Some? {
      ReplacedKeeps(s.heap, Outside(s), s.slots[d].value, p, s.slots[i].value);
      assert (s.slots + [s.obj])[i] == s.slots[i] && (s.slots + [s.obj])[d] == s.slots[d];
    }
  }

  lemma AddMemberSound(t: Tok, obj: Json, s: Hands)
    requires Valid(t) && Sound(t, obj, s) && t.top.state.ObjValueAdd?
    ensures Sound(t.(top := Adopt(t.top, obj)), obj, Pass(t, obj, NUL, s))
  {
    hide Replaced, Place, Ascending, Single, Dispatch, Counted;
    var d := t.Depth();
    SlotFits(t, obj, s, d);
    MemberSound(t, obj, s, s.slots[d].value, t.top.current.members, t.top.field.value);
  }

  lemma {:induction false} MemberSound(t: Tok, obj: Json, s: Hands, n: nat, ms: seq<Member<Json>>, key: CString)
    requires Valid(t) && Sound(t, obj, s) && t.top.state.ObjValueAdd? && t.top.current == Obj(ms)
             && t.top.field == Some(key)
    requires s.slots[t.Depth()] == Some(n) && Some(n) in Outside(s) && Fits(s.heap, Some(n), Obj(ms))
    ensures var g := Replaced(s.heap, Outside(s), n, Place(ms, key));
            n < |g.kids| && Sound(t.(top := Adopt(t.top, obj)), obj, Hands(Owned(g, n, s.obj), s.slots, None))
  {
    hide Replaced, Place, Ascending, Single, Dispatch;
    var d, p := t.Depth(), Place(ms, key);
    var g := Replaced(s.heap, Outside(s), n, p);
    ReplacedSingle(s.heap, Outside(s), n, p);
    hide Counted;
    MemberFits(s, n, ms, key, obj);
    forall i | 0 <= i < d ensures Fits(g, s.slots[i], LevelAt(t, i).current) {
      BelowFits(t, obj, s, p, i);
    }
    hide Fits;
    TakenOver(t, t.(top := Adopt(t.top, obj)), obj, s, g, n);
  }

  lemma PutDistinct(ms: seq<Member<Json>>, key: CString, v: Json)
    requires DistinctKeys(ms)
    ensures DistinctKeys(JsonValue.Put(ms, key, v))
  {
    ObjectStore.WithoutDistinct(ms, key);
    var w := Without(ms, key);
    assert forall i :: 0 <= i < |w| ==> w[i].key != key;
  }

  lemma CloseIs(s: Hands)
    requires s.slots != [] && s.obj.None? && Counted(s.heap, Outside(s))
    ensures var d := |s.slots| - 1;
            Close(s) == Hands(s.heap, s.slots[..d], s.slots[d]) && Counted(s.heap, Outside(Close(s)))
  {
    hide Counted;
    var d := |s.slots| - 1;
    var r := s.slots[d];
    var rest := multiset(s.slots[..d]);
    assert s.slots == s.slots[..d] + [r];
    assert Outside(s) == rest + multiset{None, r} == rest + multiset{r} + multiset{None};
    CloseCounts(s);
    GetThenPut(s.heap, r, Outside(s));
    DropNull(s.heap, rest + multiset{r});
  }

  lemma Lowered(t: Tok, u: Tok, obj: Json, s: Hands)
    requires Sound(t, obj, s) && t.Depth() > 0 && u.below == t.below[..t.Depth() - 1] && u.top == t.below[t.Depth() - 1]
    requires Adding(u) && !Vacant(u.top)
    requires Counted(s.heap, multiset(s.slots[..t.Depth()]) + multiset{s.slots[t.Depth()]})
    ensures Sound(u, t.top.current, Hands(s.heap, s.slots[..t.Depth()], s.slots[t.Depth()]))
  {
    hide Counted, Single;
    var d := t.Depth();
    SlotFits(t, obj, s, d);
    assert s.slots[..d] + [s.slots[d]] == s.slots;
    Shorter(s.slots, s.obj);
    hide Fits;
    forall i | 0 <= i <= u.Depth() ensures Fits(s.heap, s.slots[..d][i], LevelAt(u, i).current) {
      SlotFits(t, obj, s, i);
    }
  }

  lemma CloseSound(t: Tok, obj: Json, c: char, s: Hands)
    requires Valid(t) && Sound(t, obj, s) && t.top.state.Finish? && t.Depth() > 0
    ensures Dispatch(t, obj, c).Pop? && Sound(Dispatch(t, obj, c).tok, Dispatch(t, obj, c).obj, Pass(t, obj, c, s))
  {
    hide Counted, Single, Close, Fits, Ascending;
    var d := t.Depth();
    assert Waiting(t.below[d - 1]);
    CloseIs(s);
    Lowered(t, FinishMove(t).tok, obj, s);
  }

  /** The passes that neither finish a level nor store a value: they open a level, give the top its value,
      or leave all values alone; and a level that is about to get its value has none. */
  ghost predicate Plain(t: Tok, m: Move) {
    && !m.Pop? && !Adding(m.tok) && (Vacant(m.tok.top) ==> m.tok.top.current == Null)
    && (if m.tok.Depth() > t.Depth() then
          |m.tok.below| == |t.below| + 1 && m.tok.below[..|t.below|] == t.below
          && m.tok.below[|t.below|].current == t.top.current && m.tok.top.current == Null
        else
          m.tok.below == t.below
          && (m.tok.top.current == t.top.current || (t.top.current == Null && IsNew(m.tok.top.current))))
  }

  predicate IsNew(v: Json) {
    match v
    case Null => false
    case Arr(es) => es == []
    case Obj(ms) => ms == []
    case _ => true
  }

  lemma PlainBlank(t: Tok, c: char)
    requires Valid(t) && (Vacant(t.top) ==> t.top.current == Null)
    requires t.top.state.EatWs? || t.top.state.CommentStart? || t.top.state.Comment? || t.top.state.CommentEol?
             || t.top.state.CommentEnd?
    ensures Plain(t, BlankMove(t, c))
  {
  }

  lemma PlainWord(t: Tok, c: char)
    requires Valid(t) && t.top.current == Null
    ensures t.top.state.Start? ==> Plain(t, StartMove(t, c))
    ensures t.top.state.NullWord? ==> Plain(t, NullMove(t, c))
    ensures t.top.state.Boolean? ==> Plain(t, BooleanMove(t, c))
    ensures t.top.state.Number? ==> Plain(t, NumberMove(t, c))
  {
    hide SameWord, NumberValue;
    NumberIsNew(t.pb, t.isDouble);
  }

  lemma NumberIsNew(pb: string, isDouble: bool)
    ensures NumberValue(pb, isDouble).Some? ==> IsNew(NumberValue(pb, isDouble).value)
  {
  }

  lemma PlainString(t: Tok, c: char)
    requires Valid(t) && (Vacant(t.top) ==> t.top.current == Null)
    ensures t.top.state.StringBody? || t.top.state.Field? ==> Plain(t, StringMove(t, c))
    ensures t.top.state.StringEscape? ==> Plain(t, EscapeMove(t, c))
    ensures t.top.state.EscapeUnicode? ==> Plain(t, UnicodeMove(t, c))
  {
    hide Utf8, HexDigit, CStr;
  }

  lemma PlainArray(t: Tok, c: char)
    requires Valid(t)
    ensures t.top.state.Array? || t.top.state.ArraySep? ==> Plain(t, ArrayMove(t, c))
  {
  }

  lemma PlainObject(t: Tok, c: char)
    requires Valid(t)
    ensures t.top.state.FieldStart? || t.top.state.FieldEnd? || t.top.state.ObjValue? || t.top.state.ObjSep? ==>
              Plain(t, ObjectMove(t, c))
  {
  }

  lemma PlainMoves(t: Tok, obj: Json, c: char)
    requires Valid(t) && (Vacant(t.top) ==> t.top.current == Null)
    requires !Adding(t) && !t.top.state.Finish?
    ensures Plain(t, Dispatch(t, obj, c))
  {
    hide Plain, Valid, BlankMove, StartMove, NullMove, BooleanMove, NumberMove, StringMove, EscapeMove, UnicodeMove,
         ArrayMove, ObjectMove;
    match t.top.state
    case EatWs | CommentStart | Comment | CommentEol | CommentEnd => PlainBlank(t, c);
    case Start | NullWord | Boolean | Number => PlainWord(t, c);
    case StringBody | Field | StringEscape | EscapeUnicode => PlainString(t, c);
    case Array | ArraySep => PlainArray(t, c);
    case _ => PlainObject(t, c);
  }

  lemma OpenSound(t: Tok, u: Tok, obj: Json, s: Hands)
    requires Sound(t, obj, s) && !Adding(t) && !Adding(u) && u.top.current == Null
    requires |u.below| == t.Depth() + 1 && u.below[..t.Depth()] == t.below
             && u.below[t.Depth()].current == t.top.current
    ensures Sound(u, obj, Open(s))
  {
    hide Counted, Single;
    var k := Open(s);
    AddNull(s.heap, Outside(s));
    assert Outside(k) == Outside(s) + multiset{None};
    forall i | 0 <= i <= u.Depth() ensures Fits(k.heap, k.slots[i], LevelAt(u, i).current) {
      if i <= t.Depth() {
        SlotFits(t, obj, s, i);
      }
    }
    assert k.slots + [k.obj] == (s.slots + [s.obj]) + [None];
  }

  lemma KeepSound(t: Tok, u: Tok, obj: Json, s: Hands)
    requires Sound(t, obj, s) && !Adding(t) && !Adding(u) && u.below == t.below && u.top.current == t.top.current
    requires Vacant(u.top) ==> u.top.current == Null
    ensures Sound(u, obj, s)
  {
    hide Counted, Single, Ascending;
    forall i | 0 <= i <= u.Depth() ensures Fits(s.heap, s.slots[i], LevelAt(u, i).current) {
      SlotFits(t, obj, s, i);
    }
  }

  lemma MadeSingle(h: Heap)
    requires |h.counts| == |h.kids| && Single(h)
    ensures Single(Made(h))
  {
    forall n: nat ensures Count(Made(h), n) <= 1 {
      assert Count(h, n) <= 1;
    }
  }

  lemma FillCounts(s: Hands)
    requires s.slots != [] && s.slots[|s.slots| - 1].None? && Counted(s.heap, Outside(s)) && Single(s.heap)
    ensures Counted(Made(s.heap), Outside(Fill(s))) && Single(Made(s.heap))
  {
    var d, x := |s.slots| - 1, |s.heap.counts|;
    MadeSingle(s.heap);
    hide Counted, Single, Made;
    MadeCounts(s.heap, Outside(s));
    var filled := s.slots[d := Some(x)];
    assert s.slots == s.slots[..d] + [None] && filled == s.slots[..d] + [Some(x)];
    assert Outside(s) + multiset{Some(x)} == Outside(Fill(s)) + multiset{None};
    DropNull(Made(s.heap), Outside(Fill(s)));
  }

  lemma FillAscends(s: Hands)
    requires s.slots != [] && s.obj.None? && Counted(s.heap, Outside(s)) && Ascending(s.slots + [s.obj])
    ensures Ascending(Fill(s).slots + [s.obj])
  {
    var d, x := |s.slots| - 1, |s.heap.counts|;
    var was, now := s.slots + [s.obj], Fill(s).slots + [s.obj];
    forall i, j | 0 <= i < j < |now| && now[i].Some? && now[j].Some? ensures now[i].value < now[j].value {
      assert was[i] == now[i] && (j != d ==> was[j] == now[j]);
      assert s.slots[i] in s.slots && s.slots[i] in Outside(s);
      Owns(s.heap, Outside(s), s.slots[i]);
    }
  }

  lemma FillSound(t: Tok, u: Tok, obj: Json, s: Hands)
    requires Sound(t, obj, s) && !Adding(t) && !Adding(u) && !Vacant(u.top) && u.below == t.below
    requires t.top.current == Null && IsNew(u.top.current)
    ensures Sound(u, obj, Fill(s))
  {
    SlotFits(t, obj, s, t.Depth());
    FillCounts(s);
    FillAscends(s);
    hide Counted, Single, Ascending;
    var k := Fill(s);
    forall i | 0 <= i <= u.Depth() ensures Fits(k.heap, k.slots[i], LevelAt(u, i).current) {
      SlotFits(t, obj, s, i);
      if i == u.Depth() {
        NewNode(s.heap, u.top.current);
      } else if s.slots[i].Some? {
        assert k.heap.kids[s.slots[i].value] == s.heap.kids[s.slots[i].value];
      }
    }
  }

  lemma NewNode(h: Heap, v: Json)
    requires |h.counts| == |h.kids| && IsNew(v)
    ensures Fits(Made(h), Some(|h.counts|), v)
  {
  }

  /** Every pass through the switch keeps counts equal to owners: nothing leaks, nothing is put twice. */
  lemma PassSound(t: Tok, obj: Json, c: char, s: Hands)
    requires Valid(t) && Sound(t, obj, s)
    ensures var m := Dispatch(t, obj, c);
            Sound(m.tok, if m.Pop? then m.obj else obj, Pass(t, obj, c, s))
  {
    match t.top.state
    case ArrayAdd => AddElemSound(t, obj, s);
    case ObjValueAdd => AddMemberSound(t, obj, s);
    case Finish => if t.Depth() > 0 { CloseSound(t, obj, c, s); }
    case _ => PlainSound(t, obj, c, s);
  }

  lemma PlainSound(t: Tok, obj: Json, c: char, s: Hands)
    requires Valid(t) && Sound(t, obj, s) && !Adding(t) && !t.top.state.Finish?
    ensures Sound(Dispatch(t, obj, c).tok, obj, Pass(t, obj, c, s)) && !Dispatch(t, obj, c).Pop?
  {
    hide Dispatch, Fill, Open, Valid, Vacant, IsNew;
    var m := Dispatch(t, obj, c);
    assert Vacant(t.top) ==> t.top.current == Null;
    PlainMoves(t, obj, c);
    hide Sound;
    if m.tok.Depth() > t.Depth() {
      OpenSound(t, m.tok, obj, s);
    } else if m.tok.top.current == t.top.current {
      KeepSound(t, m.tok, obj, s);
    } else {
      FilledIsNot(m.tok.top);
      FillSound(t, m.tok, obj, s);
    }
  }

  lemma FilledIsNot(l: Level)
    requires Vacant(l) ==> l.current == Null
    ensures l.current != Null ==> !Vacant(l)
  {
  }

  // ---------- runs ----------

  /** The nodes after one character. */
  ghost function Fed(t: Tok, obj: Json, c: char, s: Hands): (r: Hands)
    requires Valid(t) && Sound(t, obj, s)
    ensures !Adding(FeedObj(t, obj, c).tok) && Sound(FeedObj(t, obj, c).tok, Null, r)
    decreases Rank(t.top)
  {
    PassSound(t, obj, c, s);
    var k := Pass(t, obj, c, s);
    match Dispatch(t, obj, c)
    case Redo(u) => Fed(u, obj, c, k)
    case Pop(u, o) => Fed(u, o, c, k)
    case Advance(u) => k
    case Out(u, e) =>
      OutIsPlain(t, obj, c, s);
      k
  }

  lemma OutIsPlain(t: Tok, obj: Json, c: char, s: Hands)
    requires Valid(t) && Sound(t, obj, s) && Dispatch(t, obj, c).Out?
    ensures !Adding(Dispatch(t, obj, c).tok)
  {
    if !t.top.state.Finish? {
      PlainMoves(t, obj, c);
    }
  }

  /** The nodes after a call of json_tokener_parse_ex, before it returns. */
  ghost function HandsAfter(t: Tok, text: string, s: Hands): (r: Hands)
    requires Valid(t) && !Adding(t) && Sound(t, Null, s)
    ensures !Adding(Run(t, text).tok) && Sound(Run(t, text).tok, Null, r)
    decreases |text|
  {
    if text == [] then s
    else
      var k := Fed(t, Null, text[0], s);
      match Feed(t, text[0])
      case Halt(_, _, _) => k
      case More(u) => HandsAfter(u, text[1..], k)
  }

  /** The nodes after a sequence of calls; one that stops before the end of its text is the last. The references
      the calls return are kept apart, see Given. */
  ghost function HandsAfterAll(t: Tok, chunks: seq<string>, s: Hands): (r: Hands)
    requires Valid(t) && !Adding(t) && Sound(t, Null, s)
    ensures !Adding(RunChunks(t, chunks).tok) && Sound(RunChunks(t, chunks).tok, Null, r)
    decreases |chunks|
  {
    if chunks == [] then s
    else
      var k := HandsAfter(t, chunks[0], s);
      var r := Run(t, chunks[0]);
      if r.halted then k else HandsAfterAll(r.tok, chunks[1..], k)
  }

  /** The references such calls return to their caller: json_object_get(current) by each that succeeds. */
  ghost function Given(t: Tok, chunks: seq<string>, s: Hands): seq<Ref>
    requires Valid(t) && !Adding(t) && Sound(t, Null, s)
    decreases |chunks|
  {
    if chunks == [] then []
    else
      var k := HandsAfter(t, chunks[0], s);
      var r := Run(t, chunks[0]);
      (if r.err == Success then [k.slots[r.tok.Depth()]] else []) +
      (if r.halted then [] else Given(r.tok, chunks[1..], k))
  }

  /** The node at the innermost level in use. */
  function Held(s: Hands): Ref { if s.slots == [] then None else s.slots[|s.slots| - 1] }

  /** One more call returns one more reference exactly if it is made and succeeds: that of the value at the top. */
  lemma {:induction false} GivenNext(t: Tok, chunks: seq<string>, text: string, s: Hands)
    requires Valid(t) && !Adding(t) && Sound(t, Null, s)
    ensures
      var before := RunChunks(t, chunks);
      var r := Run(before.tok, text);
      Given(t, chunks + [text], s) == Given(t, chunks, s) +
        if !before.halted && r.err == Success then [Held(HandsAfterAll(t, chunks + [text], s))] else []
    decreases |chunks|
  {
    hide Sound, HandsAfter, Run;
    if chunks == [] {
      OneCall(t, text, s);
    } else {
      assert (chunks + [text])[1..] == chunks[1..] + [text];
      var r := Run(t, chunks[0]);
      if !r.halted {
        GivenNext(r.tok, chunks[1..], text, HandsAfter(t, chunks[0], s));
      }
    }
  }

  lemma OneCall(t: Tok, text: string, s: Hands)
    requires Valid(t) && !Adding(t) && Sound(t, Null, s)
    ensures
      var r := Run(t, text);
      && RunChunks(t, []).tok == t && !RunChunks(t, []).halted
      && HandsAfterAll(t, [text], s) == HandsAfter(t, text, s)
      && Given(t, [text], s) == if r.err == Success then [Held(HandsAfter(t, text, s))] else []
  {
    RunEmpty(t);
    HeldIsTop(Run(t, text).tok, HandsAfter(t, text, s));
    hide HandsAfter, Run, Sound, Held;
    assert [text][1..] == [];
  }

  lemma HeldIsTop(t: Tok, s: Hands)
    requires Sound(t, Null, s)
    ensures |s.slots| == t.Depth() + 1 && Held(s) == s.slots[t.Depth()]
  {
  }

  /** The outermost value is complete; only white space and comments are read on. */
  predicate Resting(t: Tok) {
    t.Depth() == 0 && Purpose(t.top).Finish?
  }

  lemma RestingPass(t: Tok, c: char, s: Hands)
    requires Valid(t) && Sound(t, Null, s) && Resting(t)
    ensures var m := Dispatch(t, Null, c);
            Resting(m.tok) && !m.Pop? && Pass(t, Null, c, s) == s
  {
    hide Sound;
  }

  lemma {:induction false} RestingFed(t: Tok, c: char, s: Hands)
    requires Valid(t) && Sound(t, Null, s) && Resting(t)
    ensures Resting(FeedObj(t, Null, c).tok) && Fed(t, Null, c, s) == s
    decreases Rank(t.top)
  {
    hide Sound, Dispatch, Pass, Resting;
    RestingPass(t, c, s);
    PassSound(t, Null, c, s);
    match Dispatch(t, Null, c)
    case Redo(u) => RestingFed(u, c, s);
    case _ =>
  }

  /** A call on a tokener whose value is complete changes no node and no slot. */
  lemma {:induction false} RestingCall(t: Tok, text: string, s: Hands)
    requires Valid(t) && !Adding(t) && Sound(t, Null, s) && Resting(t)
    ensures Resting(Run(t, text).tok) && HandsAfter(t, text, s) == s
    decreases |text|
  {
    hide Sound, FeedObj, Fed, Resting;
    if text != [] {
      RestingFed(t, text[0], s);
      match Feed(t, text[0])
      case Halt(_, _, _) =>
      case More(u) => RestingCall(u, text[1..], s);
    }
  }

  lemma {:induction false} RestingCalls(t: Tok, chunks: seq<string>, s: Hands)
    requires Valid(t) && !Adding(t) && Sound(t, Null, s) && Resting(t)
    ensures Resting(RunChunks(t, chunks).tok) && HandsAfterAll(t, chunks, s) == s
    decreases |chunks|
  {
    hide Sound, Resting, Run, HandsAfter;
    if chunks == [] {
      RestingCall(t, "", s);
      RunEmpty(t);
    } else {
      RestingCall(t, chunks[0], s);
      if !Run(t, chunks[0]).halted {
        RestingCalls(Run(t, chunks[0]).tok, chunks[1..], s);
      }
    }
  }

  /** A call that used up its text and succeeded has a complete value. */
  lemma {:induction false} SuccessRests(t: Tok, text: string)
    requires Valid(t) && !Run(t, text).halted && Run(t, text).err == Success
    ensures Resting(Run(t, text).tok)
    decreases |text|
  {
    hide FeedObj;
    if text != [] {
      SuccessRests(Feed(t, text[0]).tok, text[1..]);
    }
  }

  /** Every call that succeeds returns the same node, and from the first one on no call changes a node or a slot:
      so counting the returned references after the last call is counting them when they are returned. */
  lemma {:induction false} GivenIsResult(t: Tok, chunks: seq<string>, s: Hands)
    requires Valid(t) && !Adding(t) && Sound(t, Null, s)
    ensures forall i :: 0 <= i < |Given(t, chunks, s)| ==>
              Given(t, chunks, s)[i] == HandsAfterAll(t, chunks, s).slots[RunChunks(t, chunks).tok.Depth()]
    ensures chunks != [] && Run(t, chunks[0]).err == Success ==>
              HandsAfterAll(t, chunks, s) == HandsAfter(t, chunks[0], s)
    decreases |chunks|
  {
    hide Sound, HandsAfter, Run, Resting;
    if chunks != [] {
      var k := HandsAfter(t, chunks[0], s);
      var r := Run(t, chunks[0]);
      if !r.halted {
        GivenIsResult(r.tok, chunks[1..], k);
        if r.err == Success {
          SuccessRests(t, chunks[0]);
          RestingCalls(r.tok, chunks[1..], k);
          RestsAtBottom(r.tok, RunChunks(r.tok, chunks[1..]).tok);
        }
      }
    }
  }

  lemma RestsAtBottom(t: Tok, u: Tok)
    requires Resting(t) && Resting(u)
    ensures t.Depth() == u.Depth() == 0
  {
  }

  /** A new tokener owns nothing. */
  ghost function EmptyHanded(): (s: Hands)
    ensures Sound(NEW_TOK, Null, s)
  {
    assert Outside(Hands(NO_NODES, [None], None)) == multiset{None, None};
    Hands(NO_NODES, [None], None)
  }

  /** The slots as json_tokener_reset puts them: from the innermost level out. */
  function InnermostFirst(slots: seq<Ref>): (r: seq<Ref>)
    ensures multiset(r) == multiset(slots)
  {
    if slots == [] then []
    else
      var d := |slots| - 1;
      assert slots == slots[..d] + [slots[d]];
      [slots[d]] + InnermostFirst(slots[..d])
  }

  lemma SlotsOnly(t: Tok, s: Hands)
    requires Sound(t, Null, s) && !Adding(t)
    ensures Counted(s.heap, multiset{None} + multiset(InnermostFirst(s.slots)))
  {
    assert multiset{None} + multiset(InnermostFirst(s.slots)) == Outside(s);
  }

  lemma HeldCounts(t: Tok, s: Hands, given: seq<Ref>)
    requires Sound(t, Null, s) && !Adding(t) && forall r :: r in given ==> r == s.slots[t.Depth()]
    ensures var h := GetAll(s.heap, given);
            && Counted(h, multiset(given) + multiset{None} + multiset(InnermostFirst(s.slots)))
            && h.kids == s.heap.kids
            && (forall n: nat :: Count(h, n) == Count(s.heap, n) + multiset(given)[Some(n)])
  {
    hide Counted, Single;
    SlotFits(t, Null, s, t.Depth());
    SlotsOnly(t, s);
    var out := multiset{None} + multiset(InnermostFirst(s.slots));
    GetAllCounts(s.heap, out, given);
    assert out + multiset(given) == multiset(given) + multiset{None} + multiset(InnermostFirst(s.slots));
  }

  /** The references the caller was given, then json_tokener_free. */
  ghost function Freed(t: Tok, s: Hands, given: seq<Ref>): Heap
    requires Sound(t, Null, s) && !Adding(t) && forall r :: r in given ==> r == s.slots[t.Depth()]
  {
    HeldCounts(t, s, given);
    PutRefs(GetAll(s.heap, given), InnermostFirst(s.slots), multiset(given) + multiset{None})
  }

  lemma {:induction false} AllSame<T>(s: seq<T>, x: T)
    requires forall y :: y in s ==> y == x
    ensures multiset(s)[x] == |s| && forall y :: y != x ==> multiset(s)[y] == 0
  {
    if s != [] {
      var before, y := s[..|s| - 1], s[|s| - 1];
      assert s == before + [y] && y in s;
      assert forall z :: z in before ==> z in s;
      AllSame(before, x);
    }
  }

  lemma SameButLast(given: seq<Ref>, x: Ref, n: nat)
    requires given != [] && forall r :: r in given ==> r == x
    ensures
      var before := given[..|given| - 1];
      && given == before + [x] && (forall r :: r in before ==> r == x)
      && multiset(before)[Some(n)] == (if Some(n) == x then |given| - 1 else 0)
      && (multiset(given) + multiset{None})[Some(n)] == (if Some(n) == x then |given| else 0)
  {
    var before := given[..|given| - 1];
    assert given[|given| - 1] in given && given == before + [x];
    assert forall r :: r in before ==> r in given;
    AllSame(before, x);
    AllSame(given, x);
  }

  /** Putting the slot of the result undoes the last get. */
  lemma {:induction false} LastGivenStays(t: Tok, s: Hands, before: seq<Ref>)
    requires Sound(t, Null, s) && !Adding(t) && forall r :: r in before ==> r == s.slots[t.Depth()]
    ensures
      var g, given := GetAll(s.heap, before), before + [s.slots[t.Depth()]];
      var rest, out := InnermostFirst(s.slots[..t.Depth()]), multiset(given) + multiset{None};
      Counted(g, out + multiset(rest)) && Freed(t, s, given) == PutRefs(g, rest, out)
  {
    hide Counted, Single, Fits, Vacant;
    var d := t.Depth();
    var x := s.slots[d];
    var given, rest := before + [x], InnermostFirst(s.slots[..d]);
    var out := multiset(given) + multiset{None};
    HeldCounts(t, s, given);
    HeldCounts(t, s, before);
    assert given[..|given| - 1] == before;
    assert InnermostFirst(s.slots) == [x] + rest;
    assert multiset(before) + multiset{None} + multiset([x] + rest) == out + multiset(rest);
    FirstPut(GetAll(s.heap, before), x, rest, out);
  }

  /** Freeing the tokener leaves the caller with what it was given: counts are owners, the result is counted once
      for each time it was returned, every other node once at most, and what is live owns what it owned. */
  lemma {:induction false} SuccessKeepsResult(t: Tok, s: Hands, given: seq<Ref>, n: nat)
    requires Sound(t, Null, s) && !Adding(t) && forall r :: r in given ==> r == s.slots[t.Depth()]
    requires given != []
    ensures
      var h := Freed(t, s, given);
      && Counted(h, multiset(given) + multiset{None})
      && (if Some(n) == s.slots[t.Depth()] then Count(h, n) == |given| else Count(h, n) <= 1)
      && (Count(h, n) > 0 ==> n < |h.kids| == |s.heap.kids| && h.kids[n] == s.heap.kids[n])
  {
    SlotFits(t, Null, s, t.Depth());
    AtMostOne(t, s, n);
    hide Counted, Single, Sound, Freed, Fits, Count, GetAll, InnermostFirst, PutRefs, Adding;
    var x, before, out := s.slots[t.Depth()], given[..|given| - 1], multiset(given) + multiset{None};
    SameButLast(given, x, n);
    HeldCounts(t, s, before);
    LastGivenStays(t, s, before);
    PutKeeps(GetAll(s.heap, before), InnermostFirst(s.slots[..t.Depth()]), out, n);
    CountAtLeast(Freed(t, s, given), out, n);
  }

  lemma AtMostOne(t: Tok, s: Hands, n: nat)
    requires Sound(t, Null, s)
    ensures Count(s.heap, n) <= 1 && |s.heap.counts| == |s.heap.kids|
  {
  }

  lemma CountAtLeast(h: Heap, out: multiset<Ref>, n: nat)
    requires Counted(h, out)
    ensures Count(h, n) >= out[Some(n)] && |h.counts| == |h.kids| && (Count(h, n) > 0 ==> n < |h.kids|)
  {
    assert Count(h, n) == Owners(h, out, n);
  }

  /** Freeing the tokener of a caller who was given nothing leaves no node live. */
  lemma {:induction false} FailureFreesAll(t: Tok, s: Hands, n: nat)
    requires Sound(t, Null, s) && !Adding(t)
    ensures Counted(Freed(t, s, []), multiset{None}) && Count(Freed(t, s, []), n) == 0
  {
    hide Counted, Sound;
    HeldCounts(t, s, []);
    var none: seq<Ref> := [];
    assert multiset(none) + multiset{None} == multiset{None};
    NothingLeft(Freed(t, s, []), multiset{None}, n);
  }

  lemma GetReleased(h: Heap, n: nat)
    requires n < |h.counts| == |h.kids| && h.counts[n] > 0
    ensures Get(h, Some(n)).counts[n] > 1 && Released(Get(h, Some(n)), n) == h && Pending(Get(h, Some(n)), n) == []
  {
    var g := Get(h, Some(n));
    assert g.counts[n := g.counts[n] - 1] == h.counts;
  }

  lemma {:induction false} FirstPut(h: Heap, x: Ref, rest: seq<Ref>, out: multiset<Ref>)
    requires Counted(Get(h, x), out + multiset([x] + rest)) && Counted(h, out + multiset(rest)) && x in out
    ensures PutRefs(Get(h, x), [x] + rest, out) == PutRefs(h, rest, out)
  {
    assert ([x] + rest)[1..] == rest;
    if x.Some? {
      Owns(h, out + multiset(rest), x);
      GetReleased(h, x.value);
      hide Counted, Released, Pending, Get, Total;
      assert [] + rest == rest;
    }
  }

  /** What is live is what is reached from the result, if the caller was given it. */
  lemma {:induction false} LiveIffReached(t: Tok, s: Hands, given: seq<Ref>, n: nat)
    requires Sound(t, Null, s) && !Adding(t) && forall r :: r in given ==> r == s.slots[t.Depth()]
    ensures
      var h, x := Freed(t, s, given), s.slots[t.Depth()];
      Count(h, n) > 0 <==> given != [] && x.Some? && Reached(h, x.value, n)
  {
    hide Counted, Reached, Freed, Sound;
    SlotFits(t, Null, s, t.Depth());
    AllSame(given, s.slots[t.Depth()]);
    var h, x, out := Freed(t, s, given), s.slots[t.Depth()], multiset(given) + multiset{None};
    if given == [] {
      FailureFreesAll(t, s, n);
    } else {
      SuccessKeepsResult(t, s, given, n);
      if Count(h, n) > 0 {
        LiveIsReached(h, out, x, n);
      }
      if x.Some? && Reached(h, x.value, n) {
        SuccessKeepsResult(t, s, given, x.value);
        ReachedIsLive(h, out, x.value, n);
      }
    }
  }

  /** For every text in any number of pieces, and whatever the calls returned: after json_tokener_free counts are
      owners, the caller being the owner of what it was given, which is always the same node; live is exactly
      what is reached from that node, so nothing if no call succeeded; the node is counted once for each time it
      was returned, the others once; and each live node still owns what it owned. */
  lemma {:induction false} NothingLeaks(chunks: seq<string>, n: nat)
    ensures
      var t := RunChunks(NEW_TOK, chunks).tok;
      var s := HandsAfterAll(NEW_TOK, chunks, EmptyHanded());
      var given := Given(NEW_TOK, chunks, EmptyHanded());
      var x := s.slots[t.Depth()];
      && (forall r :: r in given ==> r == x)
      && var h := Freed(t, s, given);
      && Counted(h, multiset(given) + multiset{None})
      && (Count(h, n) > 0 <==> given != [] && x.Some? && Reached(h, x.value, n))
      && (if Some(n) == x then Count(h, n) == |given| else Count(h, n) <= 1)
      && (Count(h, n) > 0 ==> n < |h.kids| == |s.heap.kids| && h.kids[n] == s.heap.kids[n])
  {
    hide Counted, Reached, Freed, Count, HandsAfterAll, RunChunks, Given, Sound;
    var t := RunChunks(NEW_TOK, chunks).tok;
    var s := HandsAfterAll(NEW_TOK, chunks, EmptyHanded());
    var given := Given(NEW_TOK, chunks, EmptyHanded());
    GivenIsResult(NEW_TOK, chunks, EmptyHanded());
    LiveIffReached(t, s, given, n);
    if given == [] {
      FailureFreesAll(t, s, n);
      assert multiset(given) + multiset{None} == multiset{None};
    } else {
      SuccessKeepsResult(t, s, given, n);
    }
  }
}
