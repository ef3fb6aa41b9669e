/** The object operations of json_object.c on their hash table, and runs of them. */
module ObjectStore {
  import opened Bags
  import opened JsonValue
  import opened LinkHash
  import opened Ring
  import opened Lexemes

  /** JSON_OBJECT_DEF_HASH_ENTRIES */
  const DEF_ENTRIES := 16

  /** A freed slot on the probe path of its own key is the slot the key returns to. */
  lemma TombstoneRefilled<V>(t: seq<Entry<V>>, u: seq<Entry<V>>, w: seq<Entry<V>>, hash: CString -> nat, k: CString,
                             m: int)
    requires |t| > 0 && Reachable(t, hash) && NoTombstone(t)
    requires FreedOnly(t, u, k) && Filled(u, w, hash(k), k, m)
    ensures NoTombstone(w)
  {
    var n :| && InRange(|t|, n) && t[n].k == Key(k) && u[n].k == Freed
             && forall x :: InRange(|t|, x) && x != n ==> u[x].k == t[x].k;
    assert !Before(|t|, hash(k), n, m);
    if m != n {
      assert t[m].k == Empty;
      assert !Before(|t|, hash(k), m, n);
      DistInjective(|t|, hash(k) % |t|, m, n);
    }
  }

  /** Without tombstones a table that is not full has an EMPTY slot. */
  lemma CleanHasEmpty<V>(t: Table<V>)
    requires t.Valid() && NoTombstone(t.table[..])
    ensures SomeEmpty(t.table[..]) && forall k :: CanStop(t.table[..], k)
  {
    var s := t.Free();
    assert InRange(t.size, s) && t.table[..][s].k == Empty;
    forall k
      ensures CanStop(t.table[..], k)
    {
      assert Stops(t.table[..], k, s);
    }
  }

  /** json_object_object_add: an old entry under the key is dropped, the new one goes last. */
  method ObjectAdd<V>(t: Table<V>, k: CString, v: V)
    requires t.Valid() && DistinctKeys(t.contents) && CanStop(t.table[..], k)
    modifies t, t.table
    ensures t.Valid() && t.contents == Put(old(t.contents), k, v) && DistinctKeys(t.contents)
    ensures t.table == old(t.table) || fresh(t.table)
    ensures old(NoTombstone(t.table[..])) ==> NoTombstone(t.table[..]) && SomeEmpty(t.table[..])
    ensures old(forall i :: 0 <= i < |t.contents| ==> t.contents[i].key != k) && !Crowded(old(t.count), old(t.size)) ==>
              t.table == old(t.table) && Filled(old(t.table[..]), t.table[..], t.hash(k), k, t.tail)
  {
    hide Listed, Linked, Stores, Reachable;
    ghost var was, slots := t.contents, t.table[..];
    var status := t.Delete(k);
    ghost var freed := t.table[..];
    WithoutDistinct(was, k);
    assert status == 0 ==> |t.contents| == |was| - 1;
    t.Insert(k, v);
    if NoTombstone(slots) {
      if status == 0 {
        TombstoneRefilled(slots, freed, t.table[..], t.hash, k, t.tail);
      }
      CleanHasEmpty(t);
    }
  }

  lemma {:induction false} WithoutDistinct<V>(ms: seq<Member<V>>, k: CString)
    requires DistinctKeys(ms)
    ensures DistinctKeys(Without(ms, k))
  {
    if ms != [] {
      WithoutDistinct(ms[1..], k);
      var rest := Without(ms[1..], k);
      forall j | 0 <= j < |rest|
        ensures rest[j].key != ms[0].key
      {
        var m := rest[j];
        var i :| 0 <= i < |ms[1..]| && ms[1..][i] == m;
        assert ms[i + 1].key != ms[0].key;
      }
    }
  }

  /** What a run of additions leaves in an object that started as `done`. */
  function PutAll<V>(done: seq<Member<V>>, ms: seq<Member<V>>): seq<Member<V>>
    decreases |ms|
  {
    if ms == [] then done else PutAll(Put(done, ms[0].key, ms[0].value), ms[1..])
  }

  lemma {:induction false} PutAllNext<V>(done: seq<Member<V>>, ms: seq<Member<V>>, m: Member<V>)
    ensures PutAll(done, ms + [m]) == Put(PutAll(done, ms), m.key, m.value)
    decreases |ms|
  {
    if ms == [] {
      assert [m][1..] == [];
    } else {
      assert (ms + [m])[1..] == ms[1..] + [m];
      PutAllNext(Put(done, ms[0].key, ms[0].value), ms[1..], m);
    }
  }

  /** json_object_new_object followed by any additions: the table stays free of
      tombstones, its keys are distinct, an EMPTY slot remains, so every lookup ends. */
  method NewObjectWith<V>(hash: CString -> nat, ms: seq<Member<V>>) returns (t: Table<V>)
    ensures fresh(t) && t.Valid() && t.contents == PutAll([], ms) && DistinctKeys(t.contents)
    ensures ms == [] ==> t.size == 16
    ensures NoTombstone(t.table[..]) && SomeEmpty(t.table[..]) && forall k :: CanStop(t.table[..], k)
  {
    hide Listed, Linked, Stores, Reachable;
    t := new Table<V>(DEF_ENTRIES, hash);
    for i := 0 to |ms|
      invariant fresh(t) && fresh(t.table) && t.Valid() && NoTombstone(t.table[..])
      invariant t.contents == PutAll([], ms[..i]) && DistinctKeys(t.contents) && (i == 0 ==> t.size == 16)
    {
      CleanHasEmpty(t);
      ObjectAdd(t, ms[i].key, ms[i].value);
      PutAllNext([], ms[..i], ms[i]);
      assert ms[..i + 1] == ms[..i] + [ms[i]];
    }
    assert ms[..|ms|] == ms;
    CleanHasEmpty(t);
  }

  /** Looking a key up after it was added finds the new value; other keys are not disturbed. */
  lemma {:induction false} LookupPut<V>(ms: seq<Member<V>>, k: CString, v: V, k': CString)
    ensures Lookup(Put(ms, k, v), k') == if k' == k then Some(v) else Lookup(ms, k')
  {
    if ms == [] {
      assert Put(ms, k, v) == [Member(k, v)] && [Member(k, v)][1..] == [];
    } else {
      LookupPut(ms[1..], k, v, k');
      assert Put(ms[1..], k, v) == Without(ms[1..], k) + [Member(k, v)];
      if ms[0].key != k {
        assert Put(ms, k, v)[1..] == Put(ms[1..], k, v);
      }
    }
  }

  // ---------- deletions wear a table out ----------

  /** Some of the first i keys has slot s as its home. */
  ghost predicate Used(hash: CString -> nat, keys: seq<CString>, i: nat, s: int)
    requires i <= |keys|
  {
    exists x :: 0 <= x < i && Home(hash, keys[x]) == s
  }

  function Home(hash: CString -> nat, k: CString): int { hash(k) % DEF_ENTRIES }

  /** Sixteen keys with sixteen different home slots. */
  ghost predicate Spread(hash: CString -> nat, keys: seq<CString>) {
    && |keys| == DEF_ENTRIES
    && forall i, j :: 0 <= i < j < |keys| ==> Home(hash, keys[i]) != Home(hash, keys[j])
  }

  /** As many different numbers below n as there are. */
  lemma {:induction false} AllTaken(homes: seq<int>, n: nat, s: int)
    requires |homes| == n && Distinct(homes) && Within(homes, n) && 0 <= s < n
    ensures s in homes
    decreases n
  {
    hide Cut;
    var last := n - 1;
    if last in homes {
      var p :| 0 <= p < n && homes[p] == last;
      CutDistinctInts(homes, p);
      assert forall i :: 0 <= i < |Cut(homes, p)| ==> Cut(homes, p)[i] in Cut(homes, p);
      if s != last {
        AllTaken(Cut(homes, p), last, s);
      }
    } else {
      var rest := homes[1..];
      assert homes == [homes[0]] + rest;
      assert homes[0] in homes && forall x :: x in rest ==> x in homes;
      AllTaken(rest, last, homes[0]);
      assert false;
    }
  }

  /** What is left after a cut. */
  lemma CutDistinctInts(homes: seq<int>, p: nat)
    requires Distinct(homes) && p < |homes|
    ensures Distinct(Cut(homes, p)) && forall x :: x in Cut(homes, p) <==> x in homes && x != homes[p]
  {
    var cut := Cut(homes, p);
    assert forall i :: 0 <= i < |cut| ==> cut[i] == homes[if i < p then i else i + 1];
    forall x | x in homes && x != homes[p] ensures x in cut {
      var i :| 0 <= i < |homes| && homes[i] == x;
      assert cut[if i < p then i else i - 1] == x;
    }
  }

  lemma AllUsed(hash: CString -> nat, keys: seq<CString>, s: int)
    requires Spread(hash, keys) && 0 <= s < DEF_ENTRIES
    ensures Used(hash, keys, DEF_ENTRIES, s)
  {
    var homes := seq(DEF_ENTRIES, i requires 0 <= i < DEF_ENTRIES => Home(hash, keys[i]));
    AllTaken(homes, DEF_ENTRIES, s);
    var x :| 0 <= x < DEF_ENTRIES && homes[x] == s;
    assert Home(hash, keys[x]) == s;
  }

  /** A key with a free home slot goes there. */
  lemma GoesHome<V>(t: seq<Entry<V>>, u: seq<Entry<V>>, hash: CString -> nat, k: CString, n: int)
    requires |t| == DEF_ENTRIES && Filled(t, u, hash(k), k, n) && t[Home(hash, k)].k == Empty
    ensures n == Home(hash, k)
  {
    var home := Home(hash, k);
    assert !Before(DEF_ENTRIES, hash(k), home, n);
    DistInjective(DEF_ENTRIES, home, n, home);
  }

  /** Under any hash: sixteen times adding and deleting a key, each with another home slot, on a fresh
      object. It is empty again, but no slot is EMPTY, and no lookup would end. */
  method ChurnedObject<V>(hash: CString -> nat, keys: seq<CString>, v: V) returns (t: Table<V>)
    requires Spread(hash, keys)
    ensures fresh(t) && t.Valid() && t.contents == [] && t.hash == hash && t.size == 16
    ensures forall s :: InRange(t.size, s) ==> t.table[s].k == Freed
    ensures !SomeEmpty(t.table[..]) && forall k :: !CanStop(t.table[..], k)
  {
    hide Listed, Linked, Stores, Reachable, Used;
    t := new Table<V>(DEF_ENTRIES, hash);
    NoneUsed(hash, keys);
    for i := 0 to DEF_ENTRIES
      invariant fresh(t) && fresh(t.table) && t.Valid() && t.contents == [] && t.size == DEF_ENTRIES && t.hash == hash
      invariant forall s :: 0 <= s < DEF_ENTRIES ==> t.table[s].k == if Used(hash, keys, i, s) then Freed else Empty
    {
      Churn(t, keys, i, v);
    }
    forall s | InRange(DEF_ENTRIES, s)
      ensures t.table[s].k == Freed
    {
      AllUsed(hash, keys, s);
    }
    forall k
      ensures !CanStop(t.table[..], k)
    {
      assert forall s :: InRange(DEF_ENTRIES, s) ==> t.table[..][s].k == Freed;
    }
  }

  lemma NoneUsed(hash: CString -> nat, keys: seq<CString>)
    ensures forall s :: !Used(hash, keys, 0, s)
  {
  }

  lemma OneMoreUsed(hash: CString -> nat, keys: seq<CString>, i: nat)
    requires Spread(hash, keys) && i < DEF_ENTRIES
    ensures !Used(hash, keys, i, Home(hash, keys[i]))
    ensures forall s :: Used(hash, keys, i + 1, s) <==> Used(hash, keys, i, s) || s == Home(hash, keys[i])
  {
    forall s ensures Used(hash, keys, i + 1, s) <==> Used(hash, keys, i, s) || s == Home(hash, keys[i]) {
      if Used(hash, keys, i, s) {
        var x :| 0 <= x < i && Home(hash, keys[x]) == s;
        assert x < i + 1;
      }
      assert i < i + 1 && Home(hash, keys[i]) == Home(hash, keys[i]);
    }
  }

  /** One addition and one deletion turn the home slot of the key from EMPTY to FREED. */
  method Churn<V>(t: Table<V>, keys: seq<CString>, i: nat, v: V)
    requires t.Valid() && t.contents == [] && t.size == DEF_ENTRIES && Spread(t.hash, keys) && i < DEF_ENTRIES
    requires forall s :: 0 <= s < DEF_ENTRIES ==> t.table[s].k == if Used(t.hash, keys, i, s) then Freed else Empty
    modifies t, t.table
    ensures t.Valid() && t.contents == [] && t.size == DEF_ENTRIES && t.table == old(t.table)
    ensures forall s :: 0 <= s < DEF_ENTRIES ==> t.table[s].k == if Used(t.hash, keys, i + 1, s) then Freed else Empty
  {
    hide Listed, Linked, Stores, Reachable, Used;
    var k := keys[i];
    ghost var home, was := Home(t.hash, k), t.table[..];
    OneMoreUsed(t.hash, keys, i);
    assert Stops(was, k, home);
    ObjectAdd(t, k, v);
    GoesHome(was, t.table[..], t.hash, k, t.tail);
    assert Stops(t.table[..], k, home);
    ghost var filled := t.table[..];
    var status := t.Delete(k);
    assert FreedOnly(filled, t.table[..], k);
  }

  /** lh_char_hash */
  function CharHash(k: string): nat {
    if k == "" then 0 else (CharHash(k[..|k| - 1]) * 129 + k[|k| - 1] as int + 0x9e37_0001) % 0x1_0000_0000
  }

  /** The hash value as a polynomial: each character plus the prime, in powers of 129, in 32 bits. */
  function Polynomial(k: string): int {
    if k == "" then 0 else (k[0] as int + 2654404609) * Power129(|k| - 1) + Polynomial(k[1..])
  }

  function Power129(n: nat): nat { if n == 0 then 1 else 129 * Power129(n - 1) }

  lemma {:induction false} PolynomialLast(k: string, c: char)
    ensures Polynomial(k + [c]) == Polynomial(k) * 129 + c as int + 2654404609
  {
    if k == "" {
      assert [c][1..] == "" && k + [c] == [c];
    } else {
      assert (k + [c])[1..] == k[1..] + [c];
      PolynomialLast(k[1..], c);
    }
  }

  lemma ModTimesPlus(a: int, b: int, m: int)
    requires m > 0
    ensures (a % m * 129 + b) % m == (a * 129 + b) % m
  {
    var q := a / m;
    assert a == q * m + a % m;
    ModShift(a % m * 129 + b, q * 129, m);
    assert a * 129 + b == a % m * 129 + b + q * 129 * m;
  }

  lemma ModShift(x: int, k: int, m: int)
    requires m > 0
    ensures (x + k * m) % m == x % m
  {
    ModUnique(x + k * m, m, x / m + k, x % m);
  }

  lemma {:induction false} CharHashIs(k: string)
    ensures CharHash(k) == Polynomial(k) % 0x1_0000_0000
  {
    if k != "" {
      var front, c := k[..|k| - 1], k[|k| - 1];
      CharHashIs(front);
      assert k == front + [c];
      PolynomialLast(front, c);
      ModTimesPlus(Polynomial(front), c as int + 2654404609, 0x1_0000_0000);
    }
  }

  /** The letters from a to p. */
  function Letter(i: nat): (k: CString)
    requires i < DEF_ENTRIES
    ensures |k| == 1 && k[0] as int == 97 + i
  {
    [(97 + i) as char]
  }

  function Letters(): seq<CString> {
    seq(DEF_ENTRIES, i requires 0 <= i < DEF_ENTRIES => Letter(i))
  }

  lemma LetterHome(i: nat)
    requires i < DEF_ENTRIES
    ensures CharHash(Letter(i)) % DEF_ENTRIES == (i + 2) % DEF_ENTRIES
  {
    var k := Letter(i);
    assert k[..0] == "";
    assert CharHash(k) == 97 + i + 0x9e37_0001;
  }

  lemma LettersSpread()
    ensures Spread((k: CString) => CharHash(k), Letters())
  {
    hide CharHash;
    var hash := (k: CString) => CharHash(k);
    forall i | 0 <= i < DEF_ENTRIES ensures Home(hash, Letters()[i]) == (i + 2) % DEF_ENTRIES {
      LetterHome(i);
    }
  }

  /** With the hash function of json-c, sixteen letters are enough. */
  method ChurnedLetters() returns (t: Table<int>)
    ensures fresh(t) && t.Valid() && t.contents == [] && t.size == 16
    ensures !SomeEmpty(t.table[..]) && forall k :: !CanStop(t.table[..], k)
  {
    LettersSpread();
    t := ChurnedObject((k: CString) => CharHash(k), Letters(), 0);
  }
}
