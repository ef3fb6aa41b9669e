/** The values json-c builds: a JSON tree whose objects keep insertion order.
    NULL pointers stand for JSON null, so `Null` also models an absent node. */
module JsonValue {

  const NUL: char := 0 as char

  /** A C string: no embedded NUL. */
  type CString = s: string | NUL !in s witness ""

  /** The C type int of the platforms the daemon runs on. */
  type Int32 = x: int | -0x8000_0000 <= x < 0x8000_0000

  datatype Option<+T> = None | Some(value: T)

  /** One key with its value, as an object holds it. */
  datatype Member<+V> = Member(key: CString, value: V)

  datatype Json =
    | Null
    | Bool(b: bool)
    | Int(i: Int32)
    | Double(d: real)
    | Str(s: CString)
    | Arr(elems: seq<Json>)
    | Obj(members: seq<Member<Json>>)

  /** The members of an ordered object other than the ones stored under `k`. */
  function Without<V>(ms: seq<Member<V>>, k: CString): (r: seq<Member<V>>)
    ensures forall i :: 0 <= i < |r| ==> r[i] in ms && r[i].key != k
  {
    if ms == [] then []
    else if ms[0].key == k then Without(ms[1..], k)
    else [ms[0]] + Without(ms[1..], k)
  }

  /** json_object_object_add: drop the old entry, then append the new one. */
  function Put<V>(ms: seq<Member<V>>, k: CString, v: V): seq<Member<V>> {
    Without(ms, k) + [Member(k, v)]
  }

  /** json_object_object_get on an ordered member list (None: no such key). */
  function Lookup<V>(ms: seq<Member<V>>, k: CString): Option<V> {
    if ms == [] then None
    else if ms[0].key == k then Some(ms[0].value)
    else Lookup(ms[1..], k)
  }

  ghost predicate DistinctKeys<V>(ms: seq<Member<V>>) {
    forall i, j :: 0 <= i < j < |ms| ==> ms[i].key != ms[j].key
  }

  /** Two member lists without a common key. */
  ghost predicate KeysApart<V>(a: seq<Member<V>>, b: seq<Member<V>>) {
    forall i, j :: 0 <= i < |a| && 0 <= j < |b| ==> a[i].key != b[j].key
  }

  /** The first member moves over from one list to the other. */
  lemma KeysApartNext<V>(done: seq<Member<V>>, ms: seq<Member<V>>, v: V)
    requires ms != [] && DistinctKeys(ms) && KeysApart(done, ms)
    ensures DistinctKeys(ms[1..]) && KeysApart(done + [Member(ms[0].key, v)], ms[1..])
    ensures forall i :: 0 <= i < |done| ==> done[i].key != ms[0].key
  {
    var next, rest := done + [Member(ms[0].key, v)], ms[1..];
    assert forall j :: 0 <= j < |rest| ==> rest[j] == ms[j + 1];
    assert forall i :: 0 <= i < |done| ==> next[i] == done[i];
  }

  lemma {:induction false} WithoutFresh<V>(ms: seq<Member<V>>, k: CString)
    requires forall i :: 0 <= i < |ms| ==> ms[i].key != k
    ensures Without(ms, k) == ms
  {
    if ms != [] {
      WithoutFresh(ms[1..], k);
    }
  }

  /** The number of containers on the longest path from a node down to a leaf. */
  function Height(v: Json): nat {
    match v
    case Arr(es) => if es == [] then 0 else 1 + ElemsHeight(es)
    case Obj(ms) => if ms == [] then 0 else 1 + MembersHeight(ms)
    case _ => 0
  }

  function ElemsHeight(es: seq<Json>): nat {
    if es == [] then 0
    else Max(Height(es[0]), ElemsHeight(es[1..]))
  }

  function MembersHeight(ms: seq<Member<Json>>): nat {
    if ms == [] then 0
    else Max(Height(ms[0].value), MembersHeight(ms[1..]))
  }

  function Max(a: nat, b: nat): nat { if a < b then b else a }

  function Min(a: int, b: int): int { if a < b then a else b }
}
