/** linkhash.c: open addressing with tombstones, and a doubly linked list through
    the slots that keeps insertion order. */
module LinkHash {
  import opened Bags
  import opened JsonValue
  import opened Ring

  /** The key field of a slot: LH_EMPTY, LH_FREED or a key. */
  datatype Cell = Empty | Freed | Key(key: CString)

  /** One lh_entry; links are slot numbers, NIL for NULL. */
  datatype Entry<+V> = Entry(k: Cell, v: Option<V>, next: int, prev: int)

  const NIL := -1

  // ---------- probing ----------

  /** Slot x comes before slot s on the probe path of the hash value h. */
  predicate Before(size: int, h: nat, x: int, s: int)
    requires size > 0
  {
    Dist(size, h % size, x) < Dist(size, h % size, s)
  }

  // ---------- the table as a value ----------

  ghost predicate InRange(size: int, s: int) { 0 <= s < size }

  ghost predicate Within(order: seq<int>, size: int) {
    forall i :: 0 <= i < |order| ==> 0 <= order[i] < size
  }

  /** `order` lists the live slots, each once. */
  ghost predicate Listed<V>(t: seq<Entry<V>>, order: seq<int>) {
    && Within(order, |t|)
    && (forall i :: 0 <= i < |order| ==> t[order[i]].k.Key?)
    && Distinct(order)
    && (forall s :: InRange(|t|, s) && t[s].k.Key? ==> s in order)
  }

  /** The links run through the slots of `order`. */
  ghost predicate Linked<V>(t: seq<Entry<V>>, order: seq<int>, head: int, tail: int)
    requires Within(order, |t|)
  {
    && head == (if order == [] then NIL else order[0])
    && tail == (if order == [] then NIL else order[|order| - 1])
    && (forall i :: 0 <= i < |order| ==> LinkedAt(t, order, i))
  }

  function Succ(order: seq<int>, i: int): int {
    if 0 <= i + 1 < |order| then order[i + 1] else NIL
  }

  function Pred(order: seq<int>, i: int): int {
    if 0 <= i - 1 < |order| then order[i - 1] else NIL
  }

  ghost predicate LinkedAt<V>(t: seq<Entry<V>>, order: seq<int>, i: int)
    requires 0 <= i < |order| && Within(order, |t|)
  {
    t[order[i]].next == Succ(order, i) && t[order[i]].prev == Pred(order, i)
  }

  /** The slots of `order` hold the members of `contents`. */
  ghost predicate Stores<V>(t: seq<Entry<V>>, order: seq<int>, contents: seq<Member<V>>)
    requires Within(order, |t|)
  {
    && |contents| == |order|
    && (forall i :: 0 <= i < |order| ==>
          t[order[i]].k == Key(contents[i].key) && t[order[i]].v == Some(contents[i].value))
  }

  /** Every live slot is reached from the home slot of its key without meeting an EMPTY one. */
  ghost predicate Reachable<V>(t: seq<Entry<V>>, hash: CString -> nat)
    requires |t| > 0
  {
    forall s, x :: InRange(|t|, s) && t[s].k.Key? && InRange(|t|, x) && Before(|t|, hash(t[s].k.key), x, s) ==>
      t[x].k != Empty
  }

  ghost predicate NoTombstone<V>(t: seq<Entry<V>>) {
    forall s :: InRange(|t|, s) ==> t[s].k != Freed
  }

  ghost predicate SomeEmpty<V>(t: seq<Entry<V>>) {
    exists s :: InRange(|t|, s) && t[s].k == Empty
  }

  /** A probe for `k` stops at such a slot. */
  ghost predicate Stops<V>(t: seq<Entry<V>>, k: CString, s: int) {
    InRange(|t|, s) && (t[s].k == Empty || t[s].k == Key(k))
  }

  ghost predicate CanStop<V>(t: seq<Entry<V>>, k: CString) {
    exists s :: Stops(t, k, s)
  }

  function Drop(order: seq<int>, x: int): (r: seq<int>)
    ensures forall y :: y in r <==> y in order && y != x
    ensures |r| <= |order| && (x in order ==> |r| < |order|)
  {
    if order == [] then []
    else if order[0] == x then Drop(order[1..], x)
    else [order[0]] + Drop(order[1..], x)
  }

  /** Fewer listed slots than slots: one is not listed. */
  lemma {:induction false} FreeSlot(order: seq<int>, size: int) returns (s: int)
    requires |order| < size
    ensures InRange(size, s) && s !in order
    decreases size
  {
    s := size - 1;
    if s in order {
      s := FreeSlot(Drop(order, size - 1), size - 1);
    }
  }

  /** A lookup ends if and only if some slot is EMPTY or holds the key: otherwise
      no number of probe steps ever meets a slot to stop at. */
  lemma {:induction false} LookupEndsIff<V>(t: seq<Entry<V>>, k: CString, home: int)
    requires InRange(|t|, home)
    ensures CanStop(t, k) <==> exists n: nat :: Stops(t, k, Walk(|t|, home, n))
  {
    if CanStop(t, k) {
      var s :| Stops(t, k, s);
      var n := Dist(|t|, home, s);
      WalkReaches(|t|, home, n);
      DistInjective(|t|, home, s, Walk(|t|, home, n));
      assert Stops(t, k, Walk(|t|, home, n));
    }
  }

  // ---------- changes to the table, on values ----------

  /** The table itself: slots, list, members. */
  ghost predicate Wf<V>(t: seq<Entry<V>>, hash: CString -> nat, order: seq<int>, contents: seq<Member<V>>, head: int,
                        tail: int) {
    && |t| > 0 && Listed(t, order) && Linked(t, order, head, tail) && Stores(t, order, contents) && Reachable(t, hash)
  }

  /** The slots after slot n took a new last entry. */
  ghost function Appended<V>(t: seq<Entry<V>>, tail: int, n: int, k: CString, v: V): seq<Entry<V>>
    requires InRange(|t|, n) && (tail == NIL || InRange(|t|, tail))
  {
    var u := t[n := Entry(Key(k), Some(v), NIL, tail)];
    if tail == NIL then u else u[tail := u[tail].(next := n)]
  }

  /** What an append leaves alone. */
  lemma AppendedSlots<V>(t: seq<Entry<V>>, tail: int, n: int, k: CString, v: V)
    requires InRange(|t|, n) && (tail == NIL || InRange(|t|, tail)) && tail != n
    ensures var u := Appended(t, tail, n, k, v);
            && |u| == |t| && u[n] == Entry(Key(k), Some(v), NIL, tail)
            && (forall s :: InRange(|t|, s) && s != n ==>
                  u[s].k == t[s].k && u[s].v == t[s].v && u[s].prev == t[s].prev)
            && (forall s :: InRange(|t|, s) && s != n ==> u[s].next == if s == tail then n else t[s].next)
  {
  }

  lemma AppendedListed<V>(t: seq<Entry<V>>, order: seq<int>, tail: int, n: int, k: CString, v: V)
    requires Listed(t, order) && InRange(|t|, n) && !t[n].k.Key? && (tail == NIL || InRange(|t|, tail)) && tail != n
    ensures Listed(Appended(t, tail, n, k, v), order + [n])
  {
    AppendedSlots(t, tail, n, k, v);
    assert forall s :: s in order || s == n ==> s in order + [n];
  }

  lemma AppendedLinked<V>(t: seq<Entry<V>>, order: seq<int>, head: int, tail: int, n: int, k: CString, v: V)
    requires Listed(t, order) && Linked(t, order, head, tail) && InRange(|t|, n) && !t[n].k.Key?
    ensures Within(order + [n], |t|) && (tail == NIL || InRange(|t|, tail)) && tail != n
    ensures Linked(Appended(t, tail, n, k, v), order + [n], if head == NIL then n else head, n)
  {
    AppendedSlots(t, tail, n, k, v);
    var longer := order + [n];
    forall i | 0 <= i < |longer|
      ensures LinkedAt(Appended(t, tail, n, k, v), longer, i)
    {
      if i < |order| {
        assert LinkedAt(t, order, i);
        if i < |order| - 1 {
          DistinctAt(order, i, |order| - 1);
        }
      }
    }
  }

  lemma AppendedStores<V>(t: seq<Entry<V>>, order: seq<int>, contents: seq<Member<V>>, tail: int, n: int, k: CString,
                          v: V)
    requires Listed(t, order) && Stores(t, order, contents) && InRange(|t|, n) && !t[n].k.Key?
    requires (tail == NIL || InRange(|t|, tail)) && tail != n
    ensures Within(order + [n], |t|) && Stores(Appended(t, tail, n, k, v), order + [n], contents + [Member(k, v)])
  {
    AppendedSlots(t, tail, n, k, v);
  }

  lemma AppendedReachable<V>(t: seq<Entry<V>>, hash: CString -> nat, tail: int, n: int, k: CString, v: V)
    requires |t| > 0 && Reachable(t, hash) && InRange(|t|, n) && (tail == NIL || InRange(|t|, tail)) && tail != n
    requires forall x :: InRange(|t|, x) && Before(|t|, hash(k), x, n) ==> t[x].k.Key?
    ensures Reachable(Appended(t, tail, n, k, v), hash)
  {
    AppendedSlots(t, tail, n, k, v);
  }

  lemma AppendedWf<V>(t: seq<Entry<V>>, hash: CString -> nat, order: seq<int>, contents: seq<Member<V>>, head: int,
                      tail: int, n: int, k: CString, v: V)
    requires Wf(t, hash, order, contents, head, tail)
    requires InRange(|t|, n) && !t[n].k.Key?
    requires forall x :: InRange(|t|, x) && Before(|t|, hash(k), x, n) ==> t[x].k.Key?
    ensures (tail == NIL || InRange(|t|, tail)) && tail != n
    ensures Wf(Appended(t, tail, n, k, v), hash, order + [n], contents + [Member(k, v)],
               if head == NIL then n else head, n)
  {
    hide Listed, Linked, Stores, Reachable;
    AppendedLinked(t, order, head, tail, n, k, v);
    AppendedListed(t, order, tail, n, k, v);
    AppendedStores(t, order, contents, tail, n, k, v);
    AppendedReachable(t, hash, tail, n, k, v);
  }

  ghost predicate Detachable<V>(t: seq<Entry<V>>, n: int) {
    && InRange(|t|, n)
    && (t[n].prev == NIL || (InRange(|t|, t[n].prev) && t[n].prev != n))
    && (t[n].next == NIL || (InRange(|t|, t[n].next) && t[n].next != n))
    && (t[n].prev == t[n].next ==> t[n].prev == NIL)
  }

  /** The slots after slot n was freed and unlinked. */
  ghost function Removed<V>(t: seq<Entry<V>>, n: int): (r: seq<Entry<V>>)
    requires Detachable(t, n)
    ensures |r| == |t|
  {
    var e, u := t[n], t[n := Entry(Freed, None, NIL, NIL)];
    var w := if e.prev == NIL then u else u[e.prev := u[e.prev].(next := e.next)];
    if e.next == NIL then w else w[e.next := w[e.next].(prev := e.prev)]
  }

  lemma RemovedSlots<V>(t: seq<Entry<V>>, n: int)
    requires Detachable(t, n)
    ensures var u := Removed(t, n);
            && u[n] == Entry(Freed, None, NIL, NIL)
            && (forall s :: InRange(|t|, s) && s != n ==> u[s].k == t[s].k && u[s].v == t[s].v)
            && (forall s :: InRange(|t|, s) && s != n ==> u[s].next == if s == t[n].prev then t[n].next else t[s].next)
            && (forall s :: InRange(|t|, s) && s != n ==> u[s].prev == if s == t[n].next then t[n].prev else t[s].prev)
  {
  }

  function Cut<T>(s: seq<T>, p: int): (r: seq<T>)
    requires 0 <= p < |s|
    ensures |r| == |s| - 1
  {
    s[..p] + s[p + 1..]
  }

  lemma LinkedDetachable<V>(t: seq<Entry<V>>, order: seq<int>, head: int, tail: int, p: int)
    requires Listed(t, order) && Linked(t, order, head, tail) && 0 <= p < |order|
    ensures Detachable(t, order[p])
  {
    assert LinkedAt(t, order, p);
  }

  lemma RemovedListed<V>(t: seq<Entry<V>>, order: seq<int>, p: int)
    requires Listed(t, order) && 0 <= p < |order| && Detachable(t, order[p])
    ensures Listed(Removed(t, order[p]), Cut(order, p))
  {
    RemovedSlots(t, order[p]);
    var cut := Cut(order, p);
    forall s | s in order && s != order[p]
      ensures s in cut
    {
      var i :| 0 <= i < |order| && order[i] == s;
      assert cut[if i < p then i else i - 1] == s;
    }
  }

  lemma DistinctAt(order: seq<int>, i: int, j: int)
    requires Distinct(order) && 0 <= i < |order| && 0 <= j < |order| && i != j
    ensures order[i] != order[j]
  {
  }

  /** The neighbours of the cut point become neighbours, the others keep theirs. */
  lemma CutNeighbours(order: seq<int>, p: int, i: int)
    requires 0 <= p < |order| && 0 <= i < |order| - 1
    ensures var cut, j := Cut(order, p), if i < p then i else i + 1;
            && cut[i] == order[j]
            && Succ(cut, i) == (if j + 1 == p then Succ(order, p) else Succ(order, j))
            && Pred(cut, i) == (if j - 1 == p then Pred(order, p) else Pred(order, j))
  {
  }

  lemma RemovedLinkedAt<V>(t: seq<Entry<V>>, order: seq<int>, p: int, i: int)
    requires Within(order, |t|) && Distinct(order) && 0 <= p < |order| && Detachable(t, order[p])
    requires LinkedAt(t, order, p) && 0 <= i < |order| - 1 && LinkedAt(t, order, if i < p then i else i + 1)
    ensures Within(Cut(order, p), |t|) && LinkedAt(Removed(t, order[p]), Cut(order, p), i)
  {
    var n, j := order[p], if i < p then i else i + 1;
    RemovedSlots(t, n);
    CutNeighbours(order, p, i);
    DistinctAt(order, j, p);
    if p > 0 && j != p - 1 {
      DistinctAt(order, j, p - 1);
    }
    if p + 1 < |order| && j != p + 1 {
      DistinctAt(order, j, p + 1);
    }
  }

  lemma RemovedLinked<V>(t: seq<Entry<V>>, order: seq<int>, head: int, tail: int, p: int)
    requires Listed(t, order) && Linked(t, order, head, tail) && 0 <= p < |order| && Detachable(t, order[p])
    ensures Within(Cut(order, p), |t|)
    ensures var n := order[p];
            Linked(Removed(t, n), Cut(order, p),
                   if head == n then t[n].next else head, if tail == n then t[n].prev else tail)
  {
    hide Removed;
    var cut := Cut(order, p);
    assert LinkedAt(t, order, p);
    forall i | 0 <= i < |cut|
      ensures LinkedAt(Removed(t, order[p]), cut, i)
    {
      assert LinkedAt(t, order, if i < p then i else i + 1);
      RemovedLinkedAt(t, order, p, i);
    }
    CutEnds(order, p);
  }

  lemma CutEnds(order: seq<int>, p: int)
    requires Distinct(order) && 0 <= p < |order|
    ensures var cut := Cut(order, p);
            && (if cut == [] then NIL else cut[0]) == (if order[0] == order[p] then Succ(order, p) else order[0])
            && (if cut == [] then NIL else cut[|cut| - 1]) ==
               (if order[|order| - 1] == order[p] then Pred(order, p) else order[|order| - 1])
  {
    if p > 0 {
      DistinctAt(order, 0, p);
    }
    if p < |order| - 1 {
      DistinctAt(order, |order| - 1, p);
    }
  }

  lemma RemovedStores<V>(t: seq<Entry<V>>, order: seq<int>, contents: seq<Member<V>>, p: int)
    requires Listed(t, order) && Stores(t, order, contents) && 0 <= p < |order| && Detachable(t, order[p])
    ensures Within(Cut(order, p), |t|) && Stores(Removed(t, order[p]), Cut(order, p), Cut(contents, p))
  {
    RemovedSlots(t, order[p]);
    var cut := Cut(order, p);
    assert forall i :: 0 <= i < |cut| ==> cut[i] == order[if i < p then i else i + 1];
    assert forall i :: 0 <= i < |cut| ==> Cut(contents, p)[i] == contents[if i < p then i else i + 1];
  }

  lemma RemovedReachable<V>(t: seq<Entry<V>>, hash: CString -> nat, n: int)
    requires |t| > 0 && Reachable(t, hash) && Detachable(t, n) && t[n].k.Key?
    ensures Reachable(Removed(t, n), hash)
  {
    RemovedSlots(t, n);
  }

  lemma RemovedWf<V>(t: seq<Entry<V>>, hash: CString -> nat, order: seq<int>, contents: seq<Member<V>>, head: int,
                     tail: int, p: int)
    requires Wf(t, hash, order, contents, head, tail) && 0 <= p < |order|
    ensures Detachable(t, order[p])
    ensures var n := order[p];
            Wf(Removed(t, n), hash, Cut(order, p), Cut(contents, p),
               if head == n then t[n].next else head, if tail == n then t[n].prev else tail)
  {
    LinkedDetachable(t, order, head, tail, p);
    RemovedListed(t, order, p);
    RemovedLinked(t, order, head, tail, p);
    RemovedStores(t, order, contents, p);
    RemovedReachable(t, hash, order[p]);
  }

  /** What an insertion without a resize did to the slots: it took slot n, the first
      one on the probe path of its key without a live key. */
  ghost predicate Filled<V>(t: seq<Entry<V>>, u: seq<Entry<V>>, h: nat, k: CString, n: int) {
    && |u| == |t| && InRange(|t|, n) && !t[n].k.Key? && u[n].k == Key(k)
    && (forall x :: InRange(|t|, x) && x != n ==> u[x].k == t[x].k)
    && (forall x :: InRange(|t|, x) && Before(|t|, h, x, n) ==> t[x].k.Key?)
  }

  /** One entry with the key of `cell` was taken out of the list. */
  ghost predicate CutEntry<V>(was: seq<Member<V>>, now: seq<Member<V>>, cell: Cell) {
    exists p :: 0 <= p < |was| && Key(was[p].key) == cell && now == Cut(was, p)
  }

  // ---------- the table as linkhash.c runs it ----------

  /** lh_table_insert grows the table when count > size * 0.66. */
  predicate Crowded(count: int, size: int) {
    100 * count > 66 * size
  }

  class Table<V> {
    var size: int
    var count: int
    var head: int
    var tail: int
    var table: array<Entry<V>>
    const hash: CString -> nat
    ghost var order: seq<int>
    ghost var contents: seq<Member<V>>

    ghost predicate Valid()
      reads this, table
    {
      && size == table.Length >= 3 && count == |contents|
      && Wf(table[..], hash, order, contents, head, tail)
      && !Crowded(count - 1, size)
    }

    /** lh_table_new */
    constructor (size: int, hash: CString -> nat)
      requires size >= 3
      ensures Valid() && contents == [] && this.size == size && this.hash == hash && fresh(table)
      ensures forall s :: InRange(size, s) ==> table[s].k == Empty
    {
      this.size, this.count, this.hash := size, 0, hash;
      head, tail, order, contents := NIL, NIL, [], [];
      table := new Entry<V>[size](_ => Entry(Empty, None, NIL, NIL));
    }

    lemma Free() returns (s: int)
      requires Valid() && count < size
      ensures InRange(size, s) && !table[s].k.Key?
    {
      s := FreeSlot(order, size);
      assert table[..][s].k.Key? ==> s in order;
    }

    /** The probe loop of lh_table_insert: the first slot on the path without a live key. */
    method FindFree(k: CString) returns (n: int)
      requires Valid() && count < size
      ensures InRange(size, n) && !table[n].k.Key?
      ensures forall x :: InRange(size, x) && Before(size, hash(k), x, n) ==> table[x].k.Key?
    {
      hide Listed, Linked, Stores, Reachable;
      ghost var free := Free();
      var home := hash(k) % size;
      n := home;
      while table[n].k.Key?
        invariant InRange(size, n) && Dist(size, home, n) <= Dist(size, home, free)
        invariant forall x :: InRange(size, x) && Dist(size, home, x) < Dist(size, home, n) ==> table[x].k.Key?
        decreases Dist(size, home, free) - Dist(size, home, n)
      {
        n := Step(size, n);
      }
    }

    /** lh_table_lookup_entry: the slot of an entry with the key, or NIL when there is
        none. The loop only ends if some slot is EMPTY or holds the key. */
    method LookupEntry(k: CString) returns (n: int)
      requires Valid() && CanStop(table[..], k)
      ensures n == NIL <==> forall i :: 0 <= i < |contents| ==> contents[i].key != k
      ensures n != NIL ==> InRange(size, n) && table[n].k == Key(k)
    {
      hide Listed, Linked, Stores, Reachable;
      ghost var stop :| Stops(table[..], k, stop);
      var home := hash(k) % size;
      n := home;
      while table[n].k != Empty && table[n].k != Key(k)
        invariant InRange(size, n) && Dist(size, home, n) <= Dist(size, home, stop)
        invariant forall x :: InRange(size, x) && Dist(size, home, x) < Dist(size, home, n) ==> table[x].k != Key(k)
        decreases Dist(size, home, stop) - Dist(size, home, n)
      {
        n := Step(size, n);
      }
      if table[n].k == Empty {
        NotStored(k, n);
        n := NIL;
      } else {
        ghost var i := StoredAt(n);
      }
    }

    /** An EMPTY slot at the end of a probe without the key shows that the key is nowhere. */
    lemma NotStored(k: CString, n: int)
      requires Valid() && InRange(size, n) && table[n].k == Empty
      requires forall x :: InRange(size, x) && Dist(size, hash(k) % size, x) < Dist(size, hash(k) % size, n) ==>
                 table[x].k != Key(k)
      ensures forall i :: 0 <= i < |contents| ==> contents[i].key != k
    {
      forall i | 0 <= i < |contents|
        ensures contents[i].key != k
      {
        var s := order[i];
        assert table[..][s].k == Key(contents[i].key) && table[..][n].k == Empty;
        if contents[i].key == k {
          assert !Before(size, hash(k), n, s);
          if Dist(size, hash(k) % size, s) == Dist(size, hash(k) % size, n) {
            DistInjective(size, hash(k) % size, s, n);
          }
        }
      }
    }

    lemma StoredAt(n: int) returns (i: int)
      requires Valid() && InRange(size, n) && table[n].k.Key?
      ensures 0 <= i < |contents| == |order| && order[i] == n && table[n].k == Key(contents[i].key)
    {
      assert table[..][n].k.Key?;
      i :| 0 <= i < |order| && order[i] == n;
    }

    /** The second half of lh_table_insert: fill slot n and make it the tail. */
    method Place(n: int, k: CString, v: V)
      requires Valid() && InRange(size, n) && !table[n].k.Key? && !Crowded(count, size)
      requires forall x :: InRange(size, x) && Before(size, hash(k), x, n) ==> table[x].k.Key?
      modifies this`count, this`head, this`tail, this`order, this`contents, table
      ensures Valid() && contents == old(contents) + [Member(k, v)]
      ensures tail == n && table[n].k == Key(k)
      ensures forall x :: InRange(size, x) && x != n ==> table[x].k == old(table[x].k)
    {
      hide Listed, Linked, Stores, Reachable;
      AppendedWf(table[..], hash, order, contents, head, tail, n, k, v);
      AppendedSlots(table[..], tail, n, k, v);
      HeadAndTail();
      ghost var u := Appended(table[..], tail, n, k, v);
      table[n] := Entry(Key(k), Some(v), NIL, NIL);
      count := count + 1;
      if head == NIL {
        head := n;
      } else {
        table[tail] := table[tail].(next := n);
        table[n] := table[n].(prev := tail, next := NIL);
      }
      tail := n;
      order := order + [n];
      contents := contents + [Member(k, v)];
      assert table[..] == u;
    }

    lemma HeadAndTail()
      requires Valid()
      ensures (head == NIL <==> tail == NIL) && |contents| == |order|
      ensures head == if order == [] then NIL else order[0]
      ensures Within(order, size)
    {
    }

    lemma EntryAt(i: int)
      requires Valid() && 0 <= i < |order|
      ensures |contents| == |order| && InRange(size, order[i])
      ensures table[order[i]] == Entry(Key(contents[i].key), Some(contents[i].value), Succ(order, i), Pred(order, i))
    {
      assert LinkedAt(table[..], order, i);
      assert table[..][order[i]].k == Key(contents[i].key);
    }

    /** lh_table_insert: append an entry, growing the table first when it is crowded. */
    method Insert(k: CString, v: V)
      requires Valid()
      modifies this, table
      ensures Valid() && contents == old(contents) + [Member(k, v)]
      ensures table == old(table) || fresh(table)
      ensures size == if old(count) as real > old(size) as real * 0.66 then 2 * old(size) else old(size)
      ensures old(NoTombstone(table[..])) || Crowded(old(count), old(size)) ==> NoTombstone(table[..])
      ensures !Crowded(old(count), old(size)) ==>
                table == old(table) && Filled(old(table[..]), table[..], hash(k), k, tail)
      decreases if Crowded(count, size) then 2 else 0
    {
      hide Listed, Linked, Stores, Reachable, Wf;
      if Crowded(count, size) {
        Resize(size * 2);
      }
      var n := FindFree(k);
      Place(n, k, v);
    }

    /** lh_table_resize: rebuild the table in list order. When the new size is too small for the entries, the
        insertions make the new table larger while the size becomes the one asked for, so the two agree if and
        only if the entries fit. */
    method Resize(newSize: int)
      requires Valid() && newSize >= 3
      modifies this
      ensures Wf(table[..], hash, order, contents, head, tail) && NoTombstone(table[..]) && fresh(table)
      ensures contents == old(contents) && count == old(count) && size == newSize
      ensures Valid() <==> !Crowded(count - 1, newSize)
      ensures table.Length > size <==> Crowded(count - 1, newSize)
      decreases if Crowded(count - 1, newSize) then 3 else 1
    {
      hide Listed, Linked, Stores, Reachable, Wf;
      var t := new Table<V>(newSize, hash);
      var ent := head;
      ghost var i := 0;
      HeadAndTail();
      while ent != NIL
        invariant Valid() && unchanged(this)
        invariant fresh(t) && fresh(t.table) && t.Valid() && t.hash == hash && NoTombstone(t.table[..])
        invariant t.size >= newSize && (t.size > newSize <==> Crowded(i - 1, newSize))
        invariant 0 <= i <= |order| && ent == if i < |order| then order[i] else NIL
        invariant |contents| == |order| && Within(order, size) && t.contents == contents[..i]
        decreases |order| - i
      {
        EntryAt(i);
        t.Insert(table[ent].k.key, table[ent].v.value);
        ent := table[ent].next;
        assert contents[..i + 1] == contents[..i] + [contents[i]];
        i := i + 1;
      }
      assert contents[..i] == contents;
      table, size, head, tail := t.table, newSize, t.head, t.tail;
      order, contents := t.order, t.contents;
    }

    /** lh_table_delete_entry: free the entry in slot n and unlink it (-1: not a live entry). */
    method DeleteEntry(n: int) returns (status: int)
      requires Valid() && n < size
      modifies this`count, this`head, this`tail, this`order, this`contents, table
      ensures Valid()
      ensures status == if n < 0 then -2 else if old(table[n].k.Key?) then 0 else -1
      ensures status != 0 ==> unchanged(this) && unchanged(table)
      ensures status == 0 ==> CutEntry(old(contents), contents, old(table[n].k))
      ensures status == 0 ==>
                table[n].k == Freed && forall x :: InRange(size, x) && x != n ==> table[x].k == old(table[x].k)
    {
      hide Listed, Linked, Stores, Reachable;
      if n < 0 {
        return -2;
      }
      if !table[n].k.Key? {
        return -1;
      }
      ghost var p := StoredAt(n);
      HeadAndTail();
      RemovedWf(table[..], hash, order, contents, head, tail, p);
      RemovedSlots(table[..], n);
      EndsAt(p);
      Unlink(n, p);
      status := 0;
    }

    /** An entry at an end of the list is the one without a neighbour there. */
    lemma EndsAt(p: int)
      requires Valid() && 0 <= p < |order|
      ensures table[order[p]].next == Succ(order, p) && table[order[p]].prev == Pred(order, p)
      ensures head == order[0] && tail == order[|order| - 1] && |contents| == |order|
      ensures head == order[p] <==> p == 0
      ensures tail == order[p] <==> p == |order| - 1
      ensures forall i :: 0 <= i < |order| ==> InRange(size, order[i])
    {
      EntryAt(p);
      if p > 0 {
        DistinctAt(order, 0, p);
      }
      if p < |order| - 1 {
        DistinctAt(order, p, |order| - 1);
      }
    }

    /** The body of lh_table_delete_entry: the four cases of the list surgery. */
    method Unlink(n: int, ghost p: int)
      requires Valid() && 0 <= p < |order| && order[p] == n && InRange(size, n) && Detachable(table[..], n)
      requires table[n].next == Succ(order, p) && table[n].prev == Pred(order, p)
      requires (head == n <==> p == 0) && (tail == n <==> p == |order| - 1)
      requires forall i :: 0 <= i < |order| ==> InRange(size, order[i])
      requires head == order[0] && tail == order[|order| - 1] && |contents| == |order|
      requires Wf(Removed(table[..], n), hash, Cut(order, p), Cut(contents, p),
                  if head == n then table[n].next else head, if tail == n then table[n].prev else tail)
      modifies this`count, this`head, this`tail, this`order, this`contents, table
      ensures Valid() && table[..] == old(Removed(table[..], n)) && contents == old(Cut(contents, p))
    {
      hide Listed, Linked, Stores, Reachable, Wf, Removed, Cut;
      ghost var u := Removed(table[..], n);
      RemovedSlots(table[..], n);
      count := count - 1;
      table[n] := table[n].(v := None, k := Freed);
      if tail == n && head == n {
        head, tail := NIL, NIL;
      } else if head == n {
        var next := table[n].next;
        table[next] := table[next].(prev := NIL);
        head := next;
      } else if tail == n {
        var prev := table[n].prev;
        table[prev] := table[prev].(next := NIL);
        tail := prev;
      } else {
        var next, prev := table[n].next, table[n].prev;
        table[prev] := table[prev].(next := next);
        table[next] := table[next].(prev := prev);
      }
      table[n] := table[n].(next := NIL, prev := NIL);
      order := Cut(order, p);
      contents := Cut(contents, p);
      assert forall s :: 0 <= s < size ==> table[s] == u[s];
      assert table[..] == u;
    }

    /** lh_foreach: following the list from the head visits every member once, in order. */
    method Enumerate() returns (ms: seq<Member<V>>)
      requires Valid()
      ensures ms == contents
    {
      hide Listed, Linked, Stores, Reachable, Wf;
      ms := [];
      var ent := head;
      HeadAndTail();
      while ent != NIL
        invariant |ms| <= |order| == |contents| && ent == if |ms| < |order| then order[|ms|] else NIL
        invariant Within(order, size) && ms == contents[..|ms|]
        decreases |order| - |ms|
      {
        EntryAt(|ms|);
        ms := ms + [Member(table[ent].k.key, table[ent].v.value)];
        ent := table[ent].next;
      }
    }

    /** lh_table_lookup */
    method LookupValue(k: CString) returns (r: Option<V>)
      requires Valid() && CanStop(table[..], k)
      ensures r == None <==> forall i :: 0 <= i < |contents| ==> contents[i].key != k
      ensures r.Some? ==> Member(k, r.value) in contents
      ensures DistinctKeys(contents) ==> r == Lookup(contents, k)
    {
      hide Listed, Linked, Stores, Reachable;
      var n := LookupEntry(k);
      r := None;
      if n != NIL {
        ghost var i := StoredAt(n);
        EntryAt(i);
        r := table[n].v;
        assert contents[i] == Member(k, r.value);
      }
      if DistinctKeys(contents) {
        LookupIs(contents, k, r);
      }
    }

    /** lh_table_delete */
    method Delete(k: CString) returns (status: int)
      requires Valid() && CanStop(table[..], k)
      modifies this`count, this`head, this`tail, this`order, this`contents, table
      ensures Valid()
      ensures status == if exists i :: 0 <= i < |old(contents)| && old(contents)[i].key == k then 0 else -1
      ensures status != 0 ==> unchanged(this) && unchanged(table)
      ensures status == 0 ==> FreedOnly(old(table[..]), table[..], k) && CutEntry(old(contents), contents, Key(k))
      ensures DistinctKeys(old(contents)) ==> contents == Without(old(contents), k)
    {
      hide Listed, Linked, Stores, Reachable;
      var n := LookupEntry(k);
      if n == NIL {
        WithoutFresh(contents, k);
        return -1;
      }
      ghost var was, slots := contents, table[..];
      ghost var i := StoredAt(n);
      status := DeleteEntry(n);
      assert slots[n].k == Key(k) && table[..][n].k == Freed;
      if DistinctKeys(was) {
        ghost var p :| 0 <= p < |was| && Key(was[p].key) == Key(k) && contents == Cut(was, p);
        CutIsWithout(was, p);
      }
    }
  }

  /** One slot with key k became FREED, the keys of the others stayed. */
  ghost predicate FreedOnly<V>(t: seq<Entry<V>>, u: seq<Entry<V>>, k: CString) {
    && |u| == |t|
    && exists n :: InRange(|t|, n) && t[n].k == Key(k) && u[n].k == Freed &&
         forall x :: InRange(|t|, x) && x != n ==> u[x].k == t[x].k
  }

  lemma {:induction false} LookupIs<V>(ms: seq<Member<V>>, k: CString, r: Option<V>)
    requires DistinctKeys(ms)
    requires r == None ==> forall i :: 0 <= i < |ms| ==> ms[i].key != k
    requires r.Some? ==> Member(k, r.value) in ms
    ensures Lookup(ms, k) == r
  {
    if ms != [] {
      if ms[0].key == k {
        assert r.Some? && ms[0] == Member(k, r.value);
      } else {
        LookupIs(ms[1..], k, r);
      }
    }
  }

  lemma {:induction false} CutIsWithout<V>(ms: seq<Member<V>>, p: int)
    requires DistinctKeys(ms) && 0 <= p < |ms|
    ensures Cut(ms, p) == Without(ms, ms[p].key)
  {
    if p == 0 {
      WithoutFresh(ms[1..], ms[0].key);
    } else {
      assert ms[1..][p - 1] == ms[p];
      CutIsWithout(ms[1..], p - 1);
      assert Cut(ms, p) == [ms[0]] + Cut(ms[1..], p - 1);
    }
  }
}
