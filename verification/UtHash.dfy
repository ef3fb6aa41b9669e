/** uthash.h: chained buckets that double in number, and the list of items in application order. */
module UtHash {
  import opened Bags
  import opened JsonValue
  import opened ListSort
  import opened Words
  import LinkHash

  const INITIAL_LOG2: nat := 5
  const INITIAL_BUCKETS: nat := 32
  const CAPACITY: nat := 10

  datatype Bucket<V> = Bucket(head: Node?<Member<V>>, count: nat, expandMult: nat)

  function Slot<V>(hash: CString -> nat, buckets: nat, n: Node<Member<V>>): (b: nat)
    requires buckets > 0
    ensures b < buckets
  {
    hash(n.item.key) % buckets
  }

  // ---------- chains as values ----------

  /** Each item is in the bucket its hash value names. */
  ghost predicate Placed<V>(hash: CString -> nat, cs: seq<seq<Node<Member<V>>>>) {
    forall k :: 0 <= k < |cs| ==> InBucket(hash, |cs|, k, cs[k])
  }

  ghost predicate InBucket<V>(hash: CString -> nat, buckets: nat, k: int, c: seq<Node<Member<V>>>)
    requires buckets > 0
  {
    forall n :: n in c ==> Slot(hash, buckets, n) == k
  }

  /** How many items lie deeper in their chain than the ideal length. */
  function Excess<T>(cs: seq<seq<T>>, ideal: nat): nat {
    if cs == [] then 0 else Excess(cs[..|cs| - 1], ideal) + Over(|cs[|cs| - 1]|, ideal)
  }

  function Over(count: nat, ideal: nat): nat { if count > ideal then count - ideal else 0 }

  lemma {:induction false} ExcessUpdate<T>(cs: seq<seq<T>>, x: nat, c: seq<T>, ideal: nat)
    requires x < |cs|
    ensures Excess(cs[x := c], ideal) + Over(|cs[x]|, ideal) == Excess(cs, ideal) + Over(|c|, ideal)
  {
    var last := |cs| - 1;
    var us := cs[x := c];
    if x == last {
      assert us[..last] == cs[..last];
    } else {
      ExcessUpdate(cs[..last], x, c, ideal);
      assert us[..last] == cs[..last][x := c];
    }
  }

  /** The chains after items were pushed, in this order, onto empty buckets. */
  function Spread<V>(hash: CString -> nat, buckets: nat, moved: seq<Node<Member<V>>>): (cs: seq<seq<Node<Member<V>>>>)
    requires buckets > 0
    ensures |cs| == buckets
  {
    if moved == [] then seq(buckets, _ => [])
    else
      var cs, n := Spread(hash, buckets, moved[..|moved| - 1]), moved[|moved| - 1];
      var x := Slot(hash, buckets, n);
      cs[x := [n] + cs[x]]
  }

  lemma {:induction false} SpreadNext<V>(hash: CString -> nat, buckets: nat, moved: seq<Node<Member<V>>>,
                                         n: Node<Member<V>>)
    requires buckets > 0
    ensures var cs, x := Spread(hash, buckets, moved), Slot(hash, buckets, n);
            Spread(hash, buckets, moved + [n]) == cs[x := [n] + cs[x]]
  {
    assert (moved + [n])[..|moved|] == moved;
  }

  lemma {:induction false} SpreadPlaces<V>(hash: CString -> nat, buckets: nat, moved: seq<Node<Member<V>>>)
    requires buckets > 0
    ensures Placed(hash, Spread(hash, buckets, moved))
  {
    hide Slot;
    if moved != [] {
      var before, n := moved[..|moved| - 1], moved[|moved| - 1];
      SpreadPlaces(hash, buckets, before);
      var was := Spread(hash, buckets, before);
      SpreadNext(hash, buckets, before, n);
      assert moved == before + [n];
      PushPlaces(hash, was, n);
    }
  }

  lemma PushPlaces<V>(hash: CString -> nat, cs: seq<seq<Node<Member<V>>>>, n: Node<Member<V>>)
    requires |cs| > 0 && Placed(hash, cs)
    ensures var x := Slot(hash, |cs|, n);
            Placed(hash, cs[x := [n] + cs[x]])
  {
    hide Slot;
    var x := Slot(hash, |cs|, n);
    var us := cs[x := [n] + cs[x]];
    forall k | 0 <= k < |us| ensures InBucket(hash, |us|, k, us[k]) {
      assert InBucket(hash, |cs|, k, cs[k]);
    }
  }

  lemma {:induction false} SpreadKeeps<V>(hash: CString -> nat, buckets: nat, moved: seq<Node<Member<V>>>)
    requires buckets > 0
    ensures multiset(Flat(Spread(hash, buckets, moved))) == multiset(moved)
  {
    hide Slot;
    if moved == [] {
      FlatEmpty(Spread(hash, buckets, moved));
    } else {
      var before, n := moved[..|moved| - 1], moved[|moved| - 1];
      SpreadKeeps(hash, buckets, before);
      var was, x := Spread(hash, buckets, before), Slot(hash, buckets, n);
      SpreadNext(hash, buckets, before, n);
      assert moved == before + [n];
      PushKeeps(was, x, n);
    }
  }

  lemma PushKeeps<T>(cs: seq<seq<T>>, x: nat, n: T)
    requires x < |cs|
    ensures multiset(Flat(cs[x := [n] + cs[x]])) == multiset(Flat(cs)) + multiset{n}
  {
    FlatUpdate(cs, x, [n] + cs[x]);
    var pushed := [n] + cs[x];
    assert multiset(pushed) == multiset{n} + multiset(cs[x]);
    BagCancel(multiset(Flat(cs[x := pushed])), multiset(cs[x]), multiset(Flat(cs)), multiset{n});
  }

  /** An item is in the bucket its hash value names, and in no other. */
  lemma {:induction false} OneBucket<V>(hash: CString -> nat, cs: seq<seq<Node<Member<V>>>>, n: Node<Member<V>>)
    requires |cs| > 0 && Placed(hash, cs) && n in Flat(cs)
    ensures forall k :: 0 <= k < |cs| ==> (n in cs[k] <==> k == Slot(hash, |cs|, n))
  {
    var x := FlatFrom(cs, n);
    forall k | 0 <= k < |cs| ensures n in cs[k] <==> k == Slot(hash, |cs|, n) {
      assert InBucket(hash, |cs|, k, cs[k]) && InBucket(hash, |cs|, x, cs[x]);
    }
  }

  /** Doubling sends the items of bucket b to bucket b or bucket b + buckets. */
  lemma {:induction false} DoublingSplits<V>(hash: CString -> nat, cs: seq<seq<Node<Member<V>>>>, b: nat,
                                             n: Node<Member<V>>)
    requires b < |cs| && Placed(hash, cs) && n in cs[b]
    ensures
      var wide := Spread(hash, 2 * |cs|, Flat(cs));
      && (n in wide[b] <==> n !in wide[b + |cs|])
      && (forall k :: 0 <= k < |wide| && k != b && k != b + |cs| ==> n !in wide[k])
  {
    hide Spread;
    var wide := Spread(hash, 2 * |cs|, Flat(cs));
    FlatMember(cs, b, n);
    SpreadPlaces(hash, 2 * |cs|, Flat(cs));
    SpreadKeeps(hash, 2 * |cs|, Flat(cs));
    BagMembers(Flat(wide), Flat(cs));
    OneBucket(hash, cs, n);
    OneBucket(hash, wide, n);
    DoubledPlace(hash(n.item.key), |cs|);
  }

  // ---------- chains in the heap ----------

  /** The links of a bucket chain. */
  ghost predicate Chained<T>(c: seq<Node<T>>)
    reads c
  {
    && (forall i :: 0 <= i < |c| - 1 ==> c[i].hhNext == c[i + 1])
    && (forall i :: 0 < i < |c| ==> c[i].hhPrev == c[i - 1])
    && (c != [] ==> c[0].hhPrev == null && c[|c| - 1].hhNext == null)
  }

  /** What HASH_FSCK checks of one bucket. */
  ghost predicate Holds<V>(b: Bucket<V>, c: seq<Node<Member<V>>>)
    reads c
  {
    b.head == First(c) && b.count == |c| && Distinct(c) && Chained(c)
  }

  ghost predicate Inside<T>(all: set<T>, c: seq<T>) { forall n :: n in c ==> n in all }

  ghost predicate AllHold<V>(all: set<Node<Member<V>>>, bs: seq<Bucket<V>>, cs: seq<seq<Node<Member<V>>>>)
    reads all
  {
    |bs| == |cs| && forall k :: 0 <= k < |cs| ==> Inside(all, cs[k]) && Holds(bs[k], cs[k])
  }

  /** Puts n at the front of the chain of bucket b. */
  method Prepend<V>(b: Bucket<V>, n: Node<Member<V>>, ghost c: seq<Node<Member<V>>>)
    requires Holds(b, c) && n !in c
    modifies {n}`hhNext, {n}`hhPrev, (if c == [] then {} else {c[0]})`hhPrev
    ensures Chained([n] + c) && Distinct([n] + c)
  {
    n.hhNext := b.head;
    n.hhPrev := null;
    if b.head != null {
      b.head.hhPrev := n;
    }
  }

  lemma {:induction false} OtherChains<V>(hash: CString -> nat, cs: seq<seq<Node<Member<V>>>>, x: nat,
                                          n: Node<Member<V>>, k: nat)
    requires Placed(hash, cs) && x < |cs| && k < |cs| && n !in Flat(cs)
    ensures n !in cs[k] && (k != x && cs[x] != [] ==> cs[x][0] !in cs[k])
  {
    if n in cs[k] {
      FlatMember(cs, k, n);
    }
    assert InBucket(hash, |cs|, k, cs[k]) && InBucket(hash, |cs|, x, cs[x]);
  }

  /** The same in a table: the other chains are not touched. */
  method Push<V>(ghost hash: CString -> nat, ghost all: set<Node<Member<V>>>, bs: seq<Bucket<V>>,
                 ghost cs: seq<seq<Node<Member<V>>>>, x: nat, n: Node<Member<V>>, mult: nat)
    returns (r: seq<Bucket<V>>)
    requires AllHold(all, bs, cs) && Placed(hash, cs) && x < |bs|
    requires n in all && n !in Flat(cs)
    modifies {n}`hhNext, {n}`hhPrev, (if cs[x] == [] then {} else {cs[x][0]})`hhPrev
    ensures r == bs[x := Bucket(n, bs[x].count + 1, mult)]
    ensures AllHold(all, r, cs[x := [n] + cs[x]])
  {
    hide Placed, Flat, Chained;
    r := bs[x := Bucket(n, bs[x].count + 1, mult)];
    OtherChains(hash, cs, x, n, x);
    forall k | 0 <= k < |cs| ensures n !in cs[k] && (k != x && cs[x] != [] ==> cs[x][0] !in cs[k]) {
      OtherChains(hash, cs, x, n, k);
    }
    Prepend(bs[x], n, cs[x]);
  }

  // ---------- doubling ----------

  /** The hash values kept in the items are those of their keys. */
  ghost predicate HashesKept<V>(hash: CString -> nat, all: set<Node<Member<V>>>)
    reads all
  {
    forall n :: n in all ==> n.hashv == hash(n.item.key)
  }

  /** How far a chain above the ideal length delays the next doubling. */
  function Multiplier(count: nat, ideal: nat): nat
    requires ideal > 0
  {
    if count > ideal then count / ideal else 0
  }

  ghost predicate Delayed<V>(bs: seq<Bucket<V>>, ideal: nat)
    requires ideal > 0
  {
    forall k :: 0 <= k < |bs| ==> bs[k].expandMult == Multiplier(bs[k].count, ideal)
  }

  /** The new buckets after the items `moved` went over. */
  ghost predicate Migrated<V>(hash: CString -> nat, all: set<Node<Member<V>>>, bs: seq<Bucket<V>>,
                              moved: seq<Node<Member<V>>>, ideal: nat, nonideal: nat)
    reads all
  {
    && |bs| > 0 && ideal > 0
    && AllHold(all, bs, Spread(hash, |bs|, moved))
    && Delayed(bs, ideal)
    && nonideal == Excess(Spread(hash, |bs|, moved), ideal)
  }

  /** Moves one item to its new bucket. */
  method MoveItem<V>(ghost hash: CString -> nat, ghost all: set<Node<Member<V>>>, bs: seq<Bucket<V>>, lg: nat,
                     ideal: nat, nonideal: nat, n: Node<Member<V>>, ghost moved: seq<Node<Member<V>>>)
    returns (r: seq<Bucket<V>>, deep: nat)
    requires Migrated(hash, all, bs, moved, ideal, nonideal) && |bs| == Pow2(lg)
    requires n in all && n !in moved && n.hashv == hash(n.item.key)
    modifies {n}`hhNext, (set m | m == n || m in moved)`hhPrev
    ensures Migrated(hash, all, r, moved + [n], ideal, deep) && |r| == |bs|
  {
    hide AllHold, Spread, Placed, Pow2, Flat, Excess;
    var x := And(n.hashv, |bs| - 1);
    AndMask(n.hashv, lg);
    ghost var cs := Spread(hash, |bs|, moved);
    SpreadPlaces(hash, |bs|, moved);
    SpreadKeeps(hash, |bs|, moved);
    BagMembers(Flat(cs), moved);
    SpreadNext(hash, |bs|, moved, n);
    ExcessUpdate(cs, x, [n] + cs[x], ideal);
    BucketHolds(all, bs, cs, x);
    if cs[x] != [] {
      FlatMember(cs, x, cs[x][0]);
    }
    var count, mult := bs[x].count + 1, bs[x].expandMult;
    deep := nonideal;
    if count > ideal {
      deep := deep + 1;
      mult := count / ideal;
    }
    r := Push(hash, all, bs, cs, x, n, mult);
  }

  lemma BucketHolds<V>(all: set<Node<Member<V>>>, bs: seq<Bucket<V>>, cs: seq<seq<Node<Member<V>>>>, x: nat)
    requires AllHold(all, bs, cs) && x < |cs|
    ensures |bs| == |cs| && Holds(bs[x], cs[x]) && Inside(all, cs[x])
  {
  }

  /** What is left of an old chain: the forward links are all that is still needed. */
  ghost predicate Trailing<T>(c: seq<Node<T>>, from: nat)
    reads c
  {
    && (forall i :: from <= i < |c| - 1 ==> c[i].hhNext == c[i + 1])
    && (from < |c| ==> c[|c| - 1].hhNext == null)
  }

  /** Moves the items of one old bucket. */
  method MoveBucket<V>(ghost hash: CString -> nat, ghost all: set<Node<Member<V>>>, bs: seq<Bucket<V>>, lg: nat,
                       ideal: nat, nonideal: nat,
                       first: Node?<Member<V>>, ghost moved: seq<Node<Member<V>>>, ghost c: seq<Node<Member<V>>>)
    returns (r: seq<Bucket<V>>, deep: nat)
    requires Migrated(hash, all, bs, moved, ideal, nonideal) && |bs| == Pow2(lg)
    requires Trailing(c, 0) && HashesKept(hash, all) && Inside(all, c) && Distinct(moved + c) && first == First(c)
    modifies (set n | n in c)`hhNext, (set n | n in moved || n in c)`hhPrev
    ensures Migrated(hash, all, r, moved + c, ideal, deep) && |r| == |bs|
  {
    hide Migrated, Pow2;
    r, deep := bs, nonideal;
    var n := first;
    ghost var i := 0;
    assert moved + c[..0] == moved;
    while n != null
      invariant 0 <= i <= |c| && n == (if i < |c| then c[i] else null) && Trailing(c, i)
      invariant Migrated(hash, all, r, moved + c[..i], ideal, deep) && |r| == |bs|
      decreases |c| - i
    {
      var next := n.hhNext;
      FrontApart(moved, c, i);
      assert moved + c[..i] + [c[i]] == moved + c[..i + 1];
      assert forall m :: m in moved + c[..i] ==> m in moved || m in c;
      assert c[i] in c;
      r, deep := MoveItem(hash, all, r, lg, ideal, deep, n, moved + c[..i]);
      i := i + 1;
      n := next;
    }
    assert c[..i] == c;
  }

  lemma FrontApart<T>(moved: seq<T>, c: seq<T>, i: nat)
    requires Distinct(moved + c) && i < |c|
    ensures c[i] !in moved + c[..i]
    ensures forall j :: i < j < |c| ==> c[j] != c[i]
  {
    var t := moved + c;
    assert t[|moved| + i] == c[i];
    assert moved + c[..i] == t[..|moved| + i];
    assert forall j :: 0 <= j < |c| ==> t[|moved| + j] == c[j];
  }

  ghost predicate TrailingFrom<V>(all: set<Node<Member<V>>>, bs: seq<Bucket<V>>, cs: seq<seq<Node<Member<V>>>>, b: nat)
    reads all
  {
    |bs| == |cs| && forall k :: b <= k < |cs| ==> Inside(all, cs[k]) && bs[k].head == First(cs[k]) && Trailing(cs[k], 0)
  }

  lemma {:induction false} FlatDistinct<T>(cs: seq<seq<T>>, b: nat)
    requires Distinct(Flat(cs)) && b <= |cs|
    ensures Distinct(Flat(cs[..b]))
    decreases |cs|
  {
    if b == |cs| {
      assert cs[..b] == cs;
    } else {
      var last := |cs| - 1;
      assert Flat(cs[..last]) == Flat(cs)[..|Flat(cs[..last])|];
      FlatDistinct(cs[..last], b);
      assert cs[..last][..b] == cs[..b];
    }
  }

  lemma NothingMoved<V>(hash: CString -> nat, all: set<Node<Member<V>>>, bs: seq<Bucket<V>>, ideal: nat)
    requires |bs| > 0 && ideal > 0 && forall k :: 0 <= k < |bs| ==> bs[k] == Bucket(null, 0, 0)
    ensures Migrated(hash, all, bs, [], ideal, 0)
  {
    NoExcess(Spread<V>(hash, |bs|, []), ideal);
  }

  lemma {:induction false} NoExcess<T>(cs: seq<seq<T>>, ideal: nat)
    requires forall k :: 0 <= k < |cs| ==> cs[k] == []
    ensures Excess(cs, ideal) == 0
  {
    if cs != [] {
      NoExcess(cs[..|cs| - 1], ideal);
    }
  }

  lemma ChainsApart<V>(hash: CString -> nat, cs: seq<seq<Node<Member<V>>>>, b: nat)
    requires Placed(hash, cs) && b < |cs|
    ensures forall k, i :: b < k < |cs| && 0 <= i < |cs[k]| ==> cs[k][i] !in cs[b]
  {
    forall k, i | b < k < |cs| && 0 <= i < |cs[k]| ensures cs[k][i] !in cs[b] {
      assert InBucket(hash, |cs|, k, cs[k]) && InBucket(hash, |cs|, b, cs[b]);
    }
  }

  /** Moves the items of all old buckets to twice as many new ones. */
  method Redistribute<V>(ghost hash: CString -> nat, ghost all: set<Node<Member<V>>>, bs: seq<Bucket<V>>, lg: nat,
                         ideal: nat, ghost cs: seq<seq<Node<Member<V>>>>)
    returns (r: seq<Bucket<V>>, deep: nat)
    requires AllHold(all, bs, cs) && Placed(hash, cs) && Distinct(Flat(cs)) && HashesKept(hash, all)
    requires |bs| > 0 && ideal > 0 && Pow2(lg) == 2 * |bs|
    modifies all`hhNext, all`hhPrev
    ensures Migrated(hash, all, r, Flat(cs), ideal, deep) && |r| == 2 * |bs|
  {
    hide Migrated, Pow2, Placed, Flat, Distinct;
    r, deep := seq(2 * |bs|, _ => Bucket(null, 0, 0)), 0;
    NothingMoved(hash, all, r, ideal);
    FlatEmpty(cs[..0]);
    var b := 0;
    while b < |bs|
      invariant 0 <= b <= |bs| && TrailingFrom(all, bs, cs, b)
      invariant Migrated(hash, all, r, Flat(cs[..b]), ideal, deep) && |r| == 2 * |bs|
      invariant forall n :: n in Flat(cs[..b]) ==> n in all
    {
      FlatNext(cs, b);
      FlatDistinct(cs, b + 1);
      ChainsApart(hash, cs, b);
      r, deep := MoveBucket(hash, all, r, lg, ideal, deep, bs[b].head, Flat(cs[..b]), cs[b]);
      b := b + 1;
    }
    assert cs[..|cs|] == cs;
  }

  // ---------- the table ----------

  function Nodes<T>(s: seq<Node<T>>): set<Node<T>> { set n | n in s }

  ghost predicate KeysDistinct<V>(items: seq<Node<Member<V>>>) {
    forall i, j :: 0 <= i < j < |items| ==> items[i].item.key != items[j].item.key
  }

  /** HASH_ADD_TO_BKT: with one more item the bucket is long enough for a doubling, which is not switched off. */
  predicate Doubles<V>(hash: CString -> nat, bs: seq<Bucket<V>>, noexpand: bool, n: Node<Member<V>>) {
    |bs| > 0 && !noexpand && var b := bs[Slot(hash, |bs|, n)]; b.count + 1 >= (b.expandMult + 1) * 10
  }

  /** The buckets hold exactly the items, each where its hash value belongs. */
  ghost predicate Indexed<V>(hash: CString -> nat, items: seq<Node<Member<V>>>, bs: seq<Bucket<V>>,
                             cs: seq<seq<Node<Member<V>>>>)
    reads items
  {
    && |bs| > 0
    && AllHold(Nodes(items), bs, cs) && Placed(hash, cs)
    && multiset(Flat(cs)) == multiset(items)
    && HashesKept(hash, Nodes(items))
  }

  /** A user's head pointer with the UT_hash_table behind it, which exists while there are items. */
  class Table<V> {
    const hash: CString -> nat
    var head: Node?<Member<V>>
    var tail: Node?<Member<V>>
    var buckets: seq<Bucket<V>>
    var numBuckets: nat
    var log2: nat
    var numItems: nat
    var ideal: nat
    var nonideal: nat
    var ineffective: nat
    var noexpand: bool
    ghost var items: seq<Node<Member<V>>>
    ghost var chains: seq<seq<Node<Member<V>>>>

    ghost predicate Sized()
      reads this
    {
      numBuckets == |buckets| == Pow2(log2) && numItems == |items|
    }

    ghost predicate Valid()
      reads this, items
    {
      && head == First(items)
      && (items != [] ==>
            && tail == Last(items) && IsList(Shape.Hashed, items)
            && Sized() && Indexed(hash, items, buckets, chains))
    }

    constructor (hash: CString -> nat)
      ensures Valid() && items == [] && this.hash == hash
    {
      this.hash := hash;
      head, tail, buckets, items, chains := null, null, [], [], [];
    }

    /** HASH_EXPAND_BUCKETS. */
    method Expand()
      requires items != [] && Distinct(items) && Sized() && Indexed(hash, items, buckets, chains)
      modifies this`buckets, this`numBuckets, this`log2, this`ideal, this`nonideal, this`ineffective, this`noexpand,
               this`chains
      modifies Nodes(items)`hhNext, Nodes(items)`hhPrev
      ensures numBuckets == 2 * old(numBuckets) && numBuckets > 0 && Sized()
      ensures Indexed(hash, items, buckets, chains) && chains == Spread(hash, numBuckets, Flat(old(chains)))
      ensures IsCeiling(ideal, numItems, numBuckets) && nonideal == Excess(chains, ideal)
      ensures ideal > 0 && forall k :: 0 <= k < numBuckets ==>
                buckets[k].expandMult == if buckets[k].count > ideal then buckets[k].count / ideal else 0
      ensures ineffective == (if nonideal > numItems / 2 then old(ineffective) + 1 else 0)
      ensures noexpand == (old(noexpand) || ineffective > 1)
    {
      hide Pow2, IsCeiling, Indexed, Spread, Flat, Excess, Distinct;
      DoublePow(log2);
      var c, bs, deep := Rebuild(hash, items, buckets, log2, numItems, chains);
      ideal, nonideal, buckets, chains := c, deep, bs, Spread(hash, 2 * numBuckets, Flat(chains));
      numBuckets, log2 := numBuckets * 2, log2 + 1;
      ineffective := if nonideal > numItems / 2 then ineffective + 1 else 0;
      if ineffective > 1 {
        noexpand := true;
      }
    }

    /** HASH_MAKE_TABLE. */
    method MakeTable()
      modifies this`buckets, this`numBuckets, this`log2, this`numItems, this`ideal, this`nonideal, this`ineffective,
               this`noexpand, this`chains
      requires items == []
      ensures Sized() && numBuckets == INITIAL_BUCKETS && Indexed(hash, items, buckets, chains) && !noexpand
      ensures forall n :: !Doubles(hash, buckets, noexpand, n)
    {
      hide Pow2, Indexed, Slot;
      buckets, chains := seq(INITIAL_BUCKETS, _ => Bucket(null, 0, 0)), seq(INITIAL_BUCKETS, _ => []);
      numBuckets, log2, numItems := INITIAL_BUCKETS, INITIAL_LOG2, 0;
      ideal, nonideal, ineffective, noexpand := 0, 0, 0, false;
      InitialPow();
      EmptyIndexed(hash, buckets, chains);
    }

    /** The item goes behind the tail. */
    method AppendLast(n: Node<Member<V>>)
      requires Valid() && items != [] && n !in items
      modifies {n}`next, {n}`prev, {tail}`next
      ensures IsList(Shape.Hashed, items + [n]) && Indexed(hash, items, buckets, chains)
    {
      hide IsList, Placed, Flat, Distinct;
      AppendItem(tail, n, items);
      forall k | 0 <= k < |chains| ensures Holds(buckets[k], chains[k]) {
        assert old(Holds(buckets[k], chains[k]));
        assert forall i :: 0 <= i < |chains[k]| ==> chains[k][i] in chains[k];
      }
    }

    /** The first half of HASH_ADD_KEYPTR: the item joins the application order; the first one makes the table. */
    method LinkIn(n: Node<Member<V>>)
      requires Valid() && n !in items
      modifies this`head, this`tail, this`buckets, this`numBuckets, this`log2, this`numItems, this`ideal, this`nonideal,
               this`ineffective, this`noexpand, this`chains
      modifies {n}`next, {n}`prev, Nodes(items)`next
      ensures IsList(Shape.Hashed, items + [n]) && head == First(items + [n]) && tail == n
      ensures Sized() && Indexed(hash, items, buckets, chains)
      ensures items != [] ==> buckets == old(buckets) && numBuckets == old(numBuckets) && noexpand == old(noexpand)
      ensures items == [] ==> numBuckets == INITIAL_BUCKETS && !Doubles(hash, buckets, noexpand, n)
    {
      hide IsList, Indexed, Pow2, Slot, Doubles;
      if head == null {
        AppendItem(null, n, items);
        head := n;
        MakeTable();
      } else {
        AppendLast(n);
      }
      tail := n;
    }

    /** The second half: the item joins its bucket, which may set off a doubling. */
    method StoreIn(n: Node<Member<V>>)
      requires Distinct(items + [n]) && Sized() && Indexed(hash, items, buckets, chains)
      modifies this`buckets, this`numBuckets, this`log2, this`numItems, this`ideal, this`nonideal,
               this`ineffective, this`noexpand, this`chains, this`items
      modifies {n}`hashv, Nodes(items + [n])`hhNext, Nodes(items + [n])`hhPrev
      ensures items == old(items) + [n]
      ensures Sized() && Indexed(hash, items, buckets, chains)
      ensures numBuckets == if old(Doubles(hash, buckets, noexpand, n)) then 2 * old(numBuckets) else old(numBuckets)
    {
      hide Indexed, Pow2, Slot, Distinct;
      ghost var longer := items + [n];
      DistinctLast(items, n);
      numItems := numItems + 1;
      var bs, x := Enter(hash, items, buckets, log2, chains, n);
      buckets, chains := bs, chains[x := [n] + chains[x]];
      items := longer;
      if buckets[x].count >= (buckets[x].expandMult + 1) * CAPACITY && !noexpand {
        Expand();
      }
      assert forall i :: 0 <= i < |longer| ==> longer[i] in longer;
    }

    /** The same, seen from the application order: its links are not touched. */
    method StoreListed(n: Node<Member<V>>)
      requires IsList(Shape.Hashed, items + [n]) && Sized() && Indexed(hash, items, buckets, chains)
      modifies this`buckets, this`numBuckets, this`log2, this`numItems, this`ideal, this`nonideal,
               this`ineffective, this`noexpand, this`chains, this`items
      modifies {n}`hashv, Nodes(items + [n])`hhNext, Nodes(items + [n])`hhPrev
      ensures items == old(items) + [n] && IsList(Shape.Hashed, items)
      ensures Sized() && Indexed(hash, items, buckets, chains)
      ensures numBuckets == if old(Doubles(hash, buckets, noexpand, n)) then 2 * old(numBuckets) else old(numBuckets)
    {
      hide Sized, Indexed, Distinct, Doubles;
      StoreIn(n);
    }

    /** HASH_ADD_KEYPTR, whether or not the key is in the table already. */
    method Add(n: Node<Member<V>>)
      requires Valid() && n !in items
      modifies this, n, items
      ensures Valid() && items == old(items) + [n]
      ensures KeysDistinct(items) <==>
                KeysDistinct(old(items)) && forall m :: m in old(items) ==> m.item.key != n.item.key
      ensures numBuckets == if old(items) == [] then 32
                            else if old(Doubles(hash, buckets, noexpand, n)) then 2 * old(numBuckets)
                            else old(numBuckets)
    {
      hide IsList, Indexed, Sized, KeysDistinct, Doubles;
      KeysNext(items, n);
      LinkIn(n);
      StoreListed(n);
    }

    /** HASH_FIND. */
    method Find(key: CString) returns (out: Node?<Member<V>>)
      requires Valid()
      ensures out == null <==> forall n :: n in items ==> n.item.key != key
      ensures out != null ==> out in items && out.item.key == key
      ensures KeysDistinct(items) ==> Lookup(Contents(items), key) == if out == null then None else Some(out.item.value)
    {
      hide KeysDistinct, Lookup, Contents, IsList, Pow2, Flat, Placed;
      out := null;
      if head != null {
        var bkt := And(hash(key), numBuckets - 1);
        AndMask(hash(key), log2);
        BagMembers(Flat(chains), items);
        forall n | n in items ensures n in chains[Slot(hash, numBuckets, n)] {
          OneBucket(hash, chains, n);
        }
        forall n | n in chains[bkt] ensures n in items {
          FlatMember(chains, bkt, n);
        }
        out := FindInBucket(buckets[bkt], key, chains[bkt]);
      }
      if KeysDistinct(items) {
        ContentsLookup(items, key, out);
      }
    }

    /** HASH_DELETE of an item of the table. */
    method Delete(n: Node<Member<V>>)
      requires Valid() && n in items
      modifies this, items
      ensures Valid() && n !in items && multiset(old(items)) == multiset(items) + multiset{n}
      ensures exists p :: 0 <= p < |old(items)| && old(items)[p] == n && items == LinkHash.Cut(old(items), p)
      ensures KeysDistinct(old(items)) ==>
                KeysDistinct(items) && Contents(items) == Without(Contents(old(items)), n.item.key)
    {
      hide Indexed, IsList, Sized, KeysDistinct, Contents, Without, LinkHash.Cut, Distinct;
      ghost var p :| 0 <= p < |items| && items[p] == n;
      if KeysDistinct(items) {
        ContentsCut(items, p);
      }
      SingleItem(items, p);
      CutDistinct(items, p);
      if n.prev == null && n.next == null {
        head, items := null, LinkHash.Cut(items, p);
      } else {
        Unhook(n, p);
        Drop(n, p);
      }
    }

    /** The list half of HASH_DELETE: the buckets still hold the item. */
    method Unhook(n: Node<Member<V>>, ghost p: nat)
      requires Valid() && p < |items| && items[p] == n
      modifies this`head, this`tail, Nodes(items)`next, Nodes(items)`prev
      ensures IsList(Shape.Hashed, LinkHash.Cut(items, p))
      ensures head == First(LinkHash.Cut(items, p)) && tail == Last(LinkHash.Cut(items, p))
      ensures Sized() && Indexed(hash, items, buckets, chains)
    {
      hide IsList, Indexed, KeysDistinct;
      head, tail := UnlistIndexed(hash, head, tail, n, items, p, buckets, chains);
    }

    /** The bucket half. */
    method Drop(n: Node<Member<V>>, ghost p: nat)
      requires Sized() && Indexed(hash, items, buckets, chains) && Distinct(items) && p < |items| && items[p] == n
      requires IsList(Shape.Hashed, LinkHash.Cut(items, p))
      modifies this`buckets, this`chains, this`items, this`numItems, Nodes(items)`hhNext, Nodes(items)`hhPrev
      ensures items == LinkHash.Cut(old(items), p) && Sized() && Indexed(hash, items, buckets, chains)
      ensures IsList(Shape.Hashed, items)
    {
      hide Indexed, Distinct, Pow2;
      var bs, us := TakeOut(hash, items, buckets, log2, chains, n, p);
      buckets, chains, items, numItems := bs, us, LinkHash.Cut(items, p), numItems - 1;
    }

    /** HASH_SRT: the application order becomes the stable sort; the buckets and their chains stay as they are. */
    method Sort(cmp: (Member<V>, Member<V>) -> int)
      requires Valid()
      modifies this`head, this`tail, this`items, Nodes(items)`next, Nodes(items)`prev
      ensures Valid() && items == (if old(items) == [] then [] else Arranged(cmp, old(items), 1))
      ensures KeysDistinct(items) == KeysDistinct(old(items))
    {
      hide IsList, Indexed, Arranged, KeysDistinct;
      if head != null {
        SingleItem(items, 0);
        SortedKeys(cmp, items);
        ArrangedBag(cmp, items, 1);
        head, tail := SortIndexed(hash, cmp, head, items, buckets, chains);
        items := Arranged(cmp, items, 1);
      }
    }
  }

  /** The new ideal length, and the items in their new buckets. */
  method Rebuild<V>(ghost hash: CString -> nat, ghost items: seq<Node<Member<V>>>, bs: seq<Bucket<V>>, log2: nat,
                    numItems: nat, ghost cs: seq<seq<Node<Member<V>>>>)
    returns (ideal: nat, r: seq<Bucket<V>>, deep: nat)
    requires items != [] && Distinct(items) && numItems == |items| && |bs| == Pow2(log2) && Indexed(hash, items, bs, cs)
    modifies Nodes(items)`hhNext, Nodes(items)`hhPrev
    ensures |cs| == |bs| > 0 && |r| == 2 * |bs| && Indexed(hash, items, r, Spread(hash, 2 * |bs|, Flat(cs)))
    ensures IsCeiling(ideal, numItems, 2 * |bs|) && deep == Excess(Spread(hash, 2 * |bs|, Flat(cs)), ideal)
    ensures ideal > 0 && forall k :: 0 <= k < |r| ==>
              r[k].expandMult == if r[k].count > ideal then r[k].count / ideal else 0
  {
    hide Pow2, Placed, Flat, Distinct, Excess, Shr, And, Migrated, Spread, IsCeiling, Slot;
    ideal := Shr(numItems, log2 + 1) + (if And(numItems, 2 * |bs| - 1) != 0 then 1 else 0);
    DoublePow(log2);
    CeilShiftIsCeiling(numItems, log2 + 1);
    BagDistinct(Flat(cs), items);
    r, deep := Redistribute(hash, Nodes(items), bs, log2 + 1, ideal, cs);
    hide AllHold;
    MovedIndexed(hash, items, r, Flat(cs), ideal, deep);
  }

  lemma {:induction false} MovedIndexed<V>(hash: CString -> nat, items: seq<Node<Member<V>>>, bs: seq<Bucket<V>>,
                                           moved: seq<Node<Member<V>>>, ideal: nat, deep: nat)
    requires Migrated(hash, Nodes(items), bs, moved, ideal, deep) && multiset(moved) == multiset(items)
    requires HashesKept(hash, Nodes(items))
    ensures Indexed(hash, items, bs, Spread(hash, |bs|, moved)) && deep == Excess(Spread(hash, |bs|, moved), ideal)
    ensures ideal > 0 && forall k :: 0 <= k < |bs| ==>
              bs[k].expandMult == if bs[k].count > ideal then bs[k].count / ideal else 0
  {
    hide AllHold, Placed, Flat, Spread, Excess, HashesKept;
    SpreadPlaces(hash, |bs|, moved);
    SpreadKeeps(hash, |bs|, moved);
  }

  /** The application-order list gets a new last item. */
  method AppendItem<T>(tail: Node?<T>, n: Node<T>, ghost s: seq<Node<T>>)
    requires IsList(Shape.Hashed, s) && tail == Last(s) && n !in s
    modifies {n}`next, {n}`prev, (if tail == null then {} else {tail})`next
    ensures IsList(Shape.Hashed, s + [n])
  {
    DistinctLast(s, n);
    n.next := null;
    n.prev := tail;
    if tail != null {
      tail.next := n;
    }
  }

  /** The item goes to the front of the bucket its hash value names. */
  method Enter<V>(hash: CString -> nat, ghost items: seq<Node<Member<V>>>, bs: seq<Bucket<V>>, lg: nat,
                  ghost cs: seq<seq<Node<Member<V>>>>, n: Node<Member<V>>)
    returns (r: seq<Bucket<V>>, x: nat)
    requires Indexed(hash, items, bs, cs) && |bs| == Pow2(lg) && n !in items
    modifies {n}`hashv, {n}`hhNext, {n}`hhPrev, Nodes(items)`hhPrev
    ensures |cs| == |bs| > 0 && x == Slot(hash, |bs|, n) && |r| == |bs|
    ensures r[x].count == bs[x].count + 1 && r[x].expandMult == bs[x].expandMult
    ensures Indexed(hash, items + [n], r, cs[x := [n] + cs[x]])
  {
    hide Pow2, Placed, Flat, Slot, Holds;
    n.hashv := hash(n.item.key);
    AndMask(n.hashv, lg);
    x := And(n.hashv, |bs| - 1);
    assert x == Slot(hash, |bs|, n) by {
      SlotIs(hash, |bs|, n);
    }
    BagMembers(Flat(cs), items);
    Enlarged(Nodes(items), n, bs, cs);
    if cs[x] != [] {
      FlatMember(cs, x, cs[x][0]);
    }
    r := Push(hash, Nodes(items) + {n}, bs, cs, x, n, bs[x].expandMult);
    PushPlaces(hash, cs, n);
    PushKeeps(cs, x, n);
    assert Nodes(items + [n]) == Nodes(items) + {n};
  }

  lemma SlotIs<V>(hash: CString -> nat, buckets: nat, n: Node<Member<V>>)
    requires buckets > 0
    ensures Slot(hash, buckets, n) == hash(n.item.key) % buckets
  {
  }

  lemma Enlarged<V>(all: set<Node<Member<V>>>, n: Node<Member<V>>, bs: seq<Bucket<V>>, cs: seq<seq<Node<Member<V>>>>)
    requires AllHold(all, bs, cs)
    ensures AllHold(all + {n}, bs, cs)
  {
  }

  // ---------- taking an item out ----------

  lemma CutDistinct<T>(s: seq<T>, p: nat)
    requires Distinct(s) && p < |s|
    ensures Distinct(LinkHash.Cut(s, p)) && s[p] !in LinkHash.Cut(s, p)
    ensures multiset(s) == multiset(LinkHash.Cut(s, p)) + multiset{s[p]}
  {
    assert s == s[..p] + [s[p]] + s[p + 1..];
    var cut := LinkHash.Cut(s, p);
    assert forall i :: 0 <= i < |cut| ==> cut[i] == s[if i < p then i else i + 1];
  }

  /** Takes an item out of the application order. */
  method Unlist<T>(head: Node<T>, tail: Node<T>, n: Node<T>, ghost s: seq<Node<T>>, ghost p: nat)
    returns (newHead: Node?<T>, newTail: Node?<T>)
    requires IsList(Shape.Hashed, s) && p < |s| && s[p] == n && head == s[0] && tail == Last(s)
    modifies (if p == 0 then {} else {s[p - 1]})`next, (if p + 1 == |s| then {} else {s[p + 1]})`prev
    ensures IsList(Shape.Hashed, LinkHash.Cut(s, p)) && newHead == First(LinkHash.Cut(s, p))
            && newTail == Last(LinkHash.Cut(s, p))
  {
    newHead, newTail := head, tail;
    if n == tail {
      newTail := n.prev;
    }
    if n.prev != null {
      n.prev.next := n.next;
    } else {
      newHead := n.next;
    }
    if n.next != null {
      n.next.prev := n.prev;
    }
    CutDistinct(s, p);
  }

  /** The same, seen from the buckets: they are not touched. */
  method UnlistIndexed<V>(ghost hash: CString -> nat, head: Node<Member<V>>, tail: Node<Member<V>>, n: Node<Member<V>>,
                          ghost s: seq<Node<Member<V>>>, ghost p: nat, ghost bs: seq<Bucket<V>>,
                          ghost cs: seq<seq<Node<Member<V>>>>)
    returns (newHead: Node?<Member<V>>, newTail: Node?<Member<V>>)
    requires IsList(Shape.Hashed, s) && p < |s| && s[p] == n && head == s[0] && tail == Last(s)
    requires Indexed(hash, s, bs, cs)
    modifies Nodes(s)`next, Nodes(s)`prev
    ensures IsList(Shape.Hashed, LinkHash.Cut(s, p))
    ensures newHead == First(LinkHash.Cut(s, p)) && newTail == Last(LinkHash.Cut(s, p))
    ensures Indexed(hash, s, bs, cs)
  {
    hide IsList, Placed, Flat, Distinct, LinkHash.Cut;
    newHead, newTail := Unlist(head, tail, n, s, p);
    hide First, Last;
    forall k | 0 <= k < |cs| ensures Chained(cs[k]) {
      assert old(Holds(bs[k], cs[k]));
    }
  }

  /** HASH_DEL_IN_BKT. */
  method Unchain<V>(b: Bucket<V>, n: Node<Member<V>>, ghost c: seq<Node<Member<V>>>, ghost q: nat)
    returns (r: Bucket<V>)
    requires Holds(b, c) && q < |c| && c[q] == n
    modifies (if q == 0 then {} else {c[q - 1]})`hhNext, (if q + 1 == |c| then {} else {c[q + 1]})`hhPrev
    ensures Holds(r, LinkHash.Cut(c, q)) && r.expandMult == b.expandMult
  {
    r := b.(count := b.count - 1);
    if b.head == n {
      r := r.(head := n.hhNext);
    }
    if n.hhPrev != null {
      n.hhPrev.hhNext := n.hhNext;
    }
    if n.hhNext != null {
      n.hhNext.hhPrev := n.hhPrev;
    }
    CutDistinct(c, q);
  }

  /** Cutting one chain takes its item out of all the items. */
  lemma CutKeeps<V>(hash: CString -> nat, cs: seq<seq<Node<Member<V>>>>, x: nat, q: nat, items: seq<Node<Member<V>>>,
                    p: nat)
    requires Placed(hash, cs) && multiset(Flat(cs)) == multiset(items) && Distinct(items)
    requires x < |cs| && Distinct(cs[x]) && q < |cs[x]| && p < |items| && cs[x][q] == items[p]
    ensures var us := cs[x := LinkHash.Cut(cs[x], q)];
            Placed(hash, us) && multiset(Flat(us)) == multiset(LinkHash.Cut(items, p))
  {
    hide Slot, Flat;
    var cut := LinkHash.Cut(cs[x], q);
    var us := cs[x := cut];
    CutDistinct(cs[x], q);
    CutDistinct(items, p);
    FlatUpdate(cs, x, cut);
    BagTake(multiset(Flat(us)), multiset(cs[x]), multiset(Flat(cs)), multiset(cut), multiset{items[p]},
            multiset(LinkHash.Cut(items, p)));
    forall k | 0 <= k < |us| ensures InBucket(hash, |us|, k, us[k]) {
      assert InBucket(hash, |cs|, k, cs[k]);
    }
  }

  lemma BagTake<T>(u: multiset<T>, a: multiset<T>, v: multiset<T>, c: multiset<T>, e: multiset<T>, w: multiset<T>)
    requires u + a == v + c && a == c + e && v == w + e
    ensures u == w
  {
    assert (u + (c + e)) - (c + e) == u;
    assert ((w + e) + c) - (c + e) == w;
  }

  lemma {:induction false} HoldInside<V>(all: set<Node<Member<V>>>, bs: seq<Bucket<V>>, cs: seq<seq<Node<Member<V>>>>,
                                         items: seq<Node<Member<V>>>)
    requires AllHold(all, bs, cs) && multiset(Flat(cs)) == multiset(items)
    ensures AllHold(Nodes(items), bs, cs)
  {
    BagMembers(Flat(cs), items);
    forall k | 0 <= k < |cs| ensures Inside(Nodes(items), cs[k]) {
      forall n | n in cs[k] ensures n in items {
        FlatMember(cs, k, n);
      }
    }
  }

  /** Takes an item out of its bucket. */
  method TakeOut<V>(ghost hash: CString -> nat, ghost items: seq<Node<Member<V>>>, bs: seq<Bucket<V>>, lg: nat,
                    ghost cs: seq<seq<Node<Member<V>>>>, n: Node<Member<V>>, ghost p: nat)
    returns (r: seq<Bucket<V>>, ghost us: seq<seq<Node<Member<V>>>>)
    requires Indexed(hash, items, bs, cs) && |bs| == Pow2(lg) && Distinct(items) && p < |items| && items[p] == n
    modifies Nodes(items)`hhNext, Nodes(items)`hhPrev
    ensures |r| == |bs| && Indexed(hash, LinkHash.Cut(items, p), r, us)
  {
    hide Pow2, Placed, Flat, Slot, Distinct, Chained;
    AndMask(n.hashv, lg);
    var x := And(n.hashv, |bs| - 1);
    SlotIs(hash, |bs|, n);
    BagMembers(Flat(cs), items);
    OneBucket(hash, cs, n);
    ghost var q :| 0 <= q < |cs[x]| && cs[x][q] == n;
    NeighboursApart(hash, cs, x);
    var b := Unchain(bs[x], n, cs[x], q);
    r, us := bs[x := b], cs[x := LinkHash.Cut(cs[x], q)];
    CutKeeps(hash, cs, x, q, items, p);
    HoldInside(Nodes(items), r, us, LinkHash.Cut(items, p));
  }

  lemma NeighboursApart<V>(hash: CString -> nat, cs: seq<seq<Node<Member<V>>>>, x: nat)
    requires Placed(hash, cs) && x < |cs|
    ensures forall k, i :: 0 <= k < |cs| && k != x && 0 <= i < |cs[x]| ==> cs[x][i] !in cs[k]
  {
    forall k, i | 0 <= k < |cs| && k != x && 0 <= i < |cs[x]| ensures cs[x][i] !in cs[k] {
      assert InBucket(hash, |cs|, k, cs[k]) && InBucket(hash, |cs|, x, cs[x]);
    }
  }

  lemma SingleItem<T>(s: seq<Node<T>>, p: nat)
    requires IsList(Shape.Hashed, s) && p < |s|
    ensures Distinct(s) && (s[p].prev == null && s[p].next == null <==> |s| == 1)
  {
    assert p > 0 ==> s[p].prev == s[p - 1];
    assert p < |s| - 1 ==> s[p].next == s[p + 1];
  }

  /** HASH_FIND_IN_BKT. */
  method FindInBucket<V>(b: Bucket<V>, key: CString, ghost c: seq<Node<Member<V>>>) returns (out: Node?<Member<V>>)
    requires Holds(b, c)
    ensures out == null ==> forall n :: n in c ==> n.item.key != key
    ensures out != null ==> out in c && out.item.key == key
  {
    out := b.head;
    ghost var i := 0;
    while out != null
      invariant 0 <= i <= |c| && out == (if i < |c| then c[i] else null)
      invariant forall j :: 0 <= j < i ==> c[j].item.key != key
      decreases |c| - i
    {
      if out.item.key == key {
        break;
      }
      out := out.hhNext;
      i := i + 1;
    }
  }

  /** What a user sees who walks the application order. */
  function Contents<V>(items: seq<Node<Member<V>>>): (r: seq<Member<V>>)
    ensures |r| == |items| && forall i :: 0 <= i < |r| ==> r[i] == items[i].item
  {
    seq(|items|, i requires 0 <= i < |items| => items[i].item)
  }

  lemma {:induction false} ContentsLookup<V>(items: seq<Node<Member<V>>>, key: CString, out: Node?<Member<V>>)
    requires KeysDistinct(items)
    requires out == null ==> forall n :: n in items ==> n.item.key != key
    requires out != null ==> out in items && out.item.key == key
    ensures Lookup(Contents(items), key) == if out == null then None else Some(out.item.value)
  {
    var ms := Contents(items);
    if out != null {
      var i :| 0 <= i < |items| && items[i] == out;
      assert ms[i] == Member(key, out.item.value);
    } else {
      assert forall i :: 0 <= i < |ms| ==> items[i] in items;
    }
    LinkHash.LookupIs(ms, key, if out == null then None else Some(out.item.value));
  }

  lemma ContentsCut<V>(items: seq<Node<Member<V>>>, p: nat)
    requires KeysDistinct(items) && p < |items|
    ensures Contents(LinkHash.Cut(items, p)) == Without(Contents(items), items[p].item.key)
    ensures KeysDistinct(LinkHash.Cut(items, p))
  {
    hide Without;
    CutKeys(items, p);
    LinkHash.CutIsWithout(Contents(items), p);
    assert Contents(LinkHash.Cut(items, p)) == LinkHash.Cut(Contents(items), p);
  }

  lemma CutKeys<V>(items: seq<Node<Member<V>>>, p: nat)
    requires KeysDistinct(items) && p < |items|
    ensures KeysDistinct(LinkHash.Cut(items, p))
  {
    var cut := LinkHash.Cut(items, p);
    assert forall i :: 0 <= i < |cut| ==> cut[i] == items[if i < p then i else i + 1];
  }

  lemma KeysNext<V>(items: seq<Node<Member<V>>>, n: Node<Member<V>>)
    ensures KeysDistinct(items + [n]) <==> KeysDistinct(items) && forall m :: m in items ==> m.item.key != n.item.key
  {
    var r := items + [n];
    if KeysDistinct(r) {
      assert forall i :: 0 <= i < |items| ==> r[i] == items[i];
      forall m | m in items ensures m.item.key != n.item.key {
        var i :| 0 <= i < |items| && items[i] == m;
        assert r[i] == m && r[|items|] == n;
      }
    }
  }

  lemma {:induction false} SortedKeys<V>(cmp: (Member<V>, Member<V>) -> int, items: seq<Node<Member<V>>>)
    requires Distinct(items)
    ensures KeysDistinct(Arranged(cmp, items, 1)) == KeysDistinct(items)
  {
    hide Arranged, KeysDistinct;
    var r := Arranged(cmp, items, 1);
    ArrangedBag(cmp, items, 1);
    BagDistinct(r, items);
    if KeysDistinct(items) {
      SameKeys(r, items);
    }
    if KeysDistinct(r) {
      SameKeys(items, r);
    }
  }

  /** The same nodes in another order. */
  lemma SameKeys<V>(r: seq<Node<Member<V>>>, s: seq<Node<Member<V>>>)
    requires KeysDistinct(s) && Distinct(r) && multiset(r) == multiset(s)
    ensures KeysDistinct(r)
  {
    forall i, j | 0 <= i < j < |r| ensures r[i].item.key != r[j].item.key {
      assert r[i] in multiset(r) && r[j] in multiset(r);
      assert r[i] in multiset(s) && r[j] in multiset(s);
      var x :| 0 <= x < |s| && s[x] == r[i];
      var y :| 0 <= y < |s| && s[y] == r[j];
    }
  }

  /** The sort, seen from the buckets: they are not touched. */
  method SortIndexed<V>(ghost hash: CString -> nat, cmp: (Member<V>, Member<V>) -> int, head: Node<Member<V>>,
                        ghost s: seq<Node<Member<V>>>, ghost bs: seq<Bucket<V>>, ghost cs: seq<seq<Node<Member<V>>>>)
    returns (newHead: Node?<Member<V>>, newTail: Node?<Member<V>>)
    requires s != [] && IsList(Shape.Hashed, s) && head == s[0] && Indexed(hash, s, bs, cs)
    modifies Nodes(s)`next, Nodes(s)`prev
    ensures var r := Arranged(cmp, s, 1);
            && IsList(Shape.Hashed, r) && newHead == First(r) && newTail == Last(r)
            && Indexed(hash, r, bs, cs)
  {
    hide Placed, Flat, Distinct, Arranged, Forward, Backward;
    newHead, newTail := ListSort.Sort(cmp, Shape.Hashed, head, s);
    hide IsList, First, Last;
    ghost var r := Arranged(cmp, s, 1);
    BagMembers(r, s);
    assert Nodes(r) == Nodes(s);
    forall k | 0 <= k < |cs| ensures Chained(cs[k]) {
      assert old(Holds(bs[k], cs[k]));
    }
  }

  function CountSum<V>(bs: seq<Bucket<V>>): nat {
    if bs == [] then 0 else CountSum(bs[..|bs| - 1]) + bs[|bs| - 1].count
  }

  lemma {:induction false} CountsAdd<V>(bs: seq<Bucket<V>>, cs: seq<seq<Node<Member<V>>>>)
    requires |bs| == |cs| && forall k :: 0 <= k < |bs| ==> bs[k].count == |cs[k]|
    ensures CountSum(bs) == |Flat(cs)|
  {
    if bs != [] {
      CountsAdd(bs[..|bs| - 1], cs[..|cs| - 1]);
    }
  }

  /** The counts HASH_FSCK compares: the chain lengths add up to the number of items, which is the length
      of the application order. */
  lemma {:induction false} CountsAgree<V>(hash: CString -> nat, items: seq<Node<Member<V>>>, bs: seq<Bucket<V>>,
                                          cs: seq<seq<Node<Member<V>>>>)
    requires Indexed(hash, items, bs, cs)
    ensures CountSum(bs) == |Flat(cs)| == |items|
  {
    hide Flat;
    assert forall k :: 0 <= k < |bs| ==> Holds(bs[k], cs[k]);
    CountsAdd(bs, cs);
    assert |multiset(Flat(cs))| == |Flat(cs)| && |multiset(items)| == |items|;
  }

  lemma InitialPow()
    ensures Pow2(INITIAL_LOG2) == INITIAL_BUCKETS
  {
    assert Pow2(5) == 2 * Pow2(4) == 4 * Pow2(3) == 8 * Pow2(2);
  }

  lemma EmptyIndexed<V>(hash: CString -> nat, bs: seq<Bucket<V>>, cs: seq<seq<Node<Member<V>>>>)
    requires |bs| == |cs| > 0
    requires forall k :: 0 <= k < |bs| ==> bs[k] == Bucket(null, 0, 0)
    requires forall k :: 0 <= k < |cs| ==> cs[k] == []
    ensures Indexed(hash, [], bs, cs)
  {
    FlatEmpty(cs);
  }

  lemma DoublePow(k: nat)
    ensures Pow2(k + 1) == 2 * Pow2(k)
  {
  }

  /** The same bag of nodes, none twice. */
  lemma BagDistinct<T>(r: seq<T>, s: seq<T>)
    requires multiset(r) == multiset(s) && Distinct(s)
    ensures Distinct(r)
  {
    forall i, j | 0 <= i < j < |r| ensures r[i] != r[j] {
      if r[i] == r[j] {
        TwiceIn(r, i, j);
        DistinctOnce(s, r[i]);
        assert false;
      }
    }
  }

  lemma TwiceIn<T>(r: seq<T>, i: nat, j: nat)
    requires i < j < |r| && r[i] == r[j]
    ensures multiset(r)[r[i]] >= 2
  {
    assert r == r[..j] + r[j..];
    assert r[i] in r[..j] && r[j] in r[j..] by {
      assert r[..j][i] == r[i] && r[j..][0] == r[j];
    }
    assert multiset(r) == multiset(r[..j]) + multiset(r[j..]);
  }

  lemma {:induction false} DistinctOnce<T>(s: seq<T>, x: T)
    requires Distinct(s)
    ensures multiset(s)[x] <= 1
  {
    if s != [] {
      var t := s[1..];
      assert s == [s[0]] + t;
      DistinctOnce(t, x);
      assert s[0] !in t;
      assert multiset(s) == multiset{s[0]} + multiset(t);
      assert x == s[0] ==> x !in multiset(t);
    }
  }
}
