/** utlist.h and uthash.h: the bottom-up merge sort that relinks the nodes of a list in place.
    LL_SORT2, DL_SORT2, CDL_SORT2 and HASH_SRT are one algorithm over four shapes of list. */
module ListSort {
  import opened Bags
  import opened JsonValue

  /** A list element. The last three fields belong to a hash: the links of its bucket chain and its
      hash value; sorting leaves them alone. */
  class Node<T> {
    const item: T
    var next: Node?<T>
    var prev: Node?<T>
    var hhNext: Node?<T>
    var hhPrev: Node?<T>
    var hashv: nat

    constructor (item: T)
      ensures this.item == item
    {
      this.item := item;
    }
  }

  /** utlist.h's singly linked, doubly linked (head's prev is the tail) and circular lists, and the
      application-order list of uthash.h (head's prev is NULL). */
  datatype Shape = Single | Double | Circular | Hashed

  // ---------- the algorithm on sequences ----------

  predicate Le<T>(cmp: (T, T) -> int, a: Node<T>, b: Node<T>) {
    cmp(a.item, b.item) <= 0
  }

  /** Two runs merged; the first run goes first on ties. */
  function Merge<T>(cmp: (T, T) -> int, a: seq<Node<T>>, b: seq<Node<T>>): (r: seq<Node<T>>)
    ensures |r| == |a| + |b|
  {
    if a == [] then b
    else if b == [] then a
    else if Le(cmp, a[0], b[0]) then [a[0]] + Merge(cmp, a[1..], b)
    else [b[0]] + Merge(cmp, a, b[1..])
  }

  /** One pass: neighbouring runs of length k merged. */
  function Passed<T>(cmp: (T, T) -> int, s: seq<Node<T>>, k: nat): (r: seq<Node<T>>)
    requires k > 0
    ensures |r| == |s|
    decreases |s|
  {
    if s == [] then []
    else
      var m, n := Min(k, |s|), Min(2 * k, |s|);
      Merge(cmp, s[..m], s[m..n]) + Passed(cmp, s[n..], k)
  }

  /** Passes with doubling run length until one run is left. */
  function Arranged<T>(cmp: (T, T) -> int, s: seq<Node<T>>, k: nat): (r: seq<Node<T>>)
    requires k > 0
    ensures |r| == |s|
    decreases |s| - k
  {
    var r := Passed(cmp, s, k);
    if |s| <= 2 * k then r else Arranged(cmp, r, 2 * k)
  }

  // ---------- the order it gives ----------

  /** A comparison function that is a total preorder. */
  ghost predicate Ordering<T(!new)>(cmp: (T, T) -> int) {
    && (forall a, b :: cmp(a, b) <= 0 || cmp(b, a) <= 0)
    && (forall a, b, c :: cmp(a, b) <= 0 && cmp(b, c) <= 0 ==> cmp(a, c) <= 0)
  }

  ghost predicate At<T>(s: seq<T>, i: int, a: T) { 0 <= i < |s| && s[i] == a }

  ghost predicate ComesBefore<T>(s: seq<T>, a: T, b: T) {
    exists i, j :: At(s, i, a) && At(s, j, b) && i < j
  }

  /** a may stand before b: it is smaller, or it is equal and stood before b in s. */
  ghost predicate Fits<T>(cmp: (T, T) -> int, s: seq<Node<T>>, a: Node<T>, b: Node<T>) {
    Le(cmp, a, b) && (Le(cmp, b, a) ==> ComesBefore(s, a, b))
  }

  ghost predicate InOrder<T>(cmp: (T, T) -> int, s: seq<Node<T>>, r: seq<Node<T>>) {
    forall i, j :: 0 <= i < j < |r| ==> Fits(cmp, s, r[i], r[j])
  }

  /** r holds the nodes of s, sorted, equal ones in their old order. */
  ghost predicate StableSort<T>(cmp: (T, T) -> int, s: seq<Node<T>>, r: seq<Node<T>>) {
    multiset(r) == multiset(s) && InOrder(cmp, s, r)
  }

  lemma SplitBag<T>(s: seq<T>, m: nat)
    requires m <= |s|
    ensures multiset(s[..m]) + multiset(s[m..]) == multiset(s)
  {
    assert s == s[..m] + s[m..];
  }

  lemma {:induction false} MergeBag<T>(cmp: (T, T) -> int, a: seq<Node<T>>, b: seq<Node<T>>)
    ensures multiset(Merge(cmp, a, b)) == multiset(a) + multiset(b)
    decreases |a| + |b|
  {
    if a != [] && b != [] {
      if Le(cmp, a[0], b[0]) {
        MergeBag(cmp, a[1..], b);
        TailBag(a);
        HeadBag(a[0], Merge(cmp, a[1..], b));
      } else {
        MergeBag(cmp, a, b[1..]);
        TailBag(b);
        HeadBag(b[0], Merge(cmp, a, b[1..]));
      }
    }
  }

  lemma HeadBag<T>(x: T, r: seq<T>)
    ensures multiset([x] + r) == multiset{x} + multiset(r)
  {
  }

  lemma TailBag<T>(r: seq<T>)
    requires r != []
    ensures multiset(r) == multiset(r[1..]) + multiset{r[0]}
  {
    assert r == [r[0]] + r[1..];
  }

  lemma {:induction false} PassedBag<T>(cmp: (T, T) -> int, s: seq<Node<T>>, k: nat)
    requires k > 0
    ensures multiset(Passed(cmp, s, k)) == multiset(s)
    decreases |s|
  {
    if s != [] {
      var m, n := Min(k, |s|), Min(2 * k, |s|);
      MergeBag(cmp, s[..m], s[m..n]);
      PassedBag(cmp, s[n..], k);
      SplitBag(s, n);
      SplitBag(s[..n], m);
      assert s[..n][..m] == s[..m] && s[..n][m..] == s[m..n];
    }
  }

  lemma {:induction false} ArrangedBag<T>(cmp: (T, T) -> int, s: seq<Node<T>>, k: nat)
    requires k > 0
    ensures multiset(Arranged(cmp, s, k)) == multiset(s)
    decreases |s| - k
  {
    PassedBag(cmp, s, k);
    if |s| > 2 * k {
      ArrangedBag(cmp, Passed(cmp, s, k), 2 * k);
    }
  }

  lemma BagMembers<T>(s: seq<T>, t: seq<T>)
    requires multiset(s) == multiset(t)
    ensures forall x :: x in s <==> x in t
  {
    forall x ensures x in s <==> x in t {
      assert x in multiset(s) <==> x in multiset(t);
    }
  }

  /** Merging keeps the order, as long as the first run stood before the second. */
  lemma {:induction false} MergeInOrder<T(!new)>(cmp: (T, T) -> int, s: seq<Node<T>>, a: seq<Node<T>>, b: seq<Node<T>>)
    requires Ordering(cmp) && InOrder(cmp, s, a) && InOrder(cmp, s, b)
    requires forall i, j :: 0 <= i < |a| && 0 <= j < |b| ==> ComesBefore(s, a[i], b[j])
    ensures InOrder(cmp, s, Merge(cmp, a, b))
    decreases |a| + |b|
  {
    hide ComesBefore;
    if a != [] && b != [] {
      if Le(cmp, a[0], b[0]) {
        MergeInOrder(cmp, s, a[1..], b);
        MergeBag(cmp, a[1..], b);
        HeadFits(cmp, s, a[0], Merge(cmp, a[1..], b), a[1..], b);
      } else {
        MergeInOrder(cmp, s, a, b[1..]);
        MergeBag(cmp, a, b[1..]);
        HeadFits(cmp, s, b[0], Merge(cmp, a, b[1..]), a, b[1..]);
      }
    }
  }

  lemma HeadFits<T>(cmp: (T, T) -> int, s: seq<Node<T>>, x: Node<T>, r: seq<Node<T>>, a: seq<Node<T>>, b: seq<Node<T>>)
    requires InOrder(cmp, s, r) && multiset(r) == multiset(a) + multiset(b)
    requires forall i :: 0 <= i < |a| ==> Fits(cmp, s, x, a[i])
    requires forall i :: 0 <= i < |b| ==> Fits(cmp, s, x, b[i])
    ensures InOrder(cmp, s, [x] + r)
  {
    hide Fits;
    forall i | 0 <= i < |r| ensures Fits(cmp, s, x, r[i]) {
      assert r[i] in multiset(r);
      assert r[i] in a || r[i] in b;
    }
  }

  /** `r` is an arrangement of the block of s. */
  ghost predicate RunOf<T>(cmp: (T, T) -> int, s: seq<Node<T>>, block: seq<Node<T>>, r: seq<Node<T>>) {
    multiset(r) == multiset(block) && InOrder(cmp, s, r)
  }

  /** From position o on, each stretch of k nodes of s is arranged within itself. */
  ghost predicate RunsOf<T>(cmp: (T, T) -> int, s: seq<Node<T>>, o: nat, r: seq<Node<T>>, k: nat)
    requires k > 0
    decreases |r|
  {
    && |r| + o == |s|
    && (if |r| <= k then RunOf(cmp, s, s[o..], r)
        else RunOf(cmp, s, s[o..o + k], r[..k]) && RunsOf(cmp, s, o + k, r[k..], k))
  }

  lemma {:induction false} RunsOfOne<T>(cmp: (T, T) -> int, s: seq<Node<T>>, o: nat)
    requires o <= |s|
    ensures RunsOf(cmp, s, o, s[o..], 1)
    decreases |s| - o
  {
    if |s| - o > 1 {
      RunsOfOne(cmp, s, o + 1);
      assert s[o..][1..] == s[o + 1..] && s[o..][..1] == s[o..o + 1];
    }
  }

  lemma BlocksComeBefore<T>(s: seq<T>, o: nat, m: nat, n: nat, a: seq<T>, b: seq<T>)
    requires o + m <= o + n <= |s|
    requires multiset(a) == multiset(s[o..o + m]) && multiset(b) == multiset(s[o + m..o + n])
    ensures forall i, j :: 0 <= i < |a| && 0 <= j < |b| ==> ComesBefore(s, a[i], b[j])
  {
    BagMembers(a, s[o..o + m]);
    BagMembers(b, s[o + m..o + n]);
    forall i, j | 0 <= i < |a| && 0 <= j < |b| ensures ComesBefore(s, a[i], b[j]) {
      assert a[i] in s[o..o + m] && b[j] in s[o + m..o + n];
      var x :| 0 <= x < m && s[o..o + m][x] == a[i];
      var y :| 0 <= y < n - m && s[o + m..o + n][y] == b[j];
      assert At(s, o + x, a[i]) && At(s, o + m + y, b[j]);
    }
  }

  lemma {:induction false} MergeRun<T(!new)>(cmp: (T, T) -> int, s: seq<Node<T>>, o: nat, m: nat, n: nat,
                                             a: seq<Node<T>>, b: seq<Node<T>>)
    requires Ordering(cmp) && o + m <= o + n <= |s|
    requires RunOf(cmp, s, s[o..o + m], a) && RunOf(cmp, s, s[o + m..o + n], b)
    ensures RunOf(cmp, s, s[o..o + n], Merge(cmp, a, b))
  {
    hide InOrder, ComesBefore, Merge, Ordering;
    BlocksComeBefore(s, o, m, n, a, b);
    MergeInOrder(cmp, s, a, b);
    MergeBag(cmp, a, b);
    BlockBag(s, o, m, n);
  }

  lemma BlockBag<T>(s: seq<T>, o: nat, m: nat, n: nat)
    requires o + m <= o + n <= |s|
    ensures multiset(s[o..o + n]) == multiset(s[o..o + m]) + multiset(s[o + m..o + n])
  {
    assert s[o..o + n] == s[o..o + m] + s[o + m..o + n];
  }

  lemma {:induction false} RunsJoin<T>(cmp: (T, T) -> int, s: seq<Node<T>>, o: nat, a: seq<Node<T>>, b: seq<Node<T>>,
                                       k: nat)
    requires k > 0 && |a| == k && b != [] && o + k <= |s|
    requires RunOf(cmp, s, s[o..o + k], a) && RunsOf(cmp, s, o + k, b, k)
    ensures RunsOf(cmp, s, o, a + b, k)
  {
    hide RunOf;
    assert (a + b)[..k] == a && (a + b)[k..] == b;
  }

  /** A pass makes arranged stretches twice as long. */
  lemma {:induction false} PassedRuns<T(!new)>(cmp: (T, T) -> int, s: seq<Node<T>>, o: nat, r: seq<Node<T>>, k: nat)
    requires Ordering(cmp) && k > 0 && RunsOf(cmp, s, o, r, k)
    ensures RunsOf(cmp, s, o, Passed(cmp, r, k), 2 * k)
    decreases |r|
  {
    hide RunOf, Merge, Ordering;
    if r != [] {
      var m, n := Min(k, |r|), Min(2 * k, |r|);
      assert RunOf(cmp, s, s[o..o + m], r[..m]) by {
        assert |r| <= k ==> r[..m] == r && s[o..o + m] == s[o..];
      }
      assert RunOf(cmp, s, s[o + m..o + n], r[m..n]) && (n < |r| ==> RunsOf(cmp, s, o + n, r[n..], k)) by {
        SecondRun(cmp, s, o, r, k);
      }
      MergeRun(cmp, s, o, m, n, r[..m], r[m..n]);
      var merged := Merge(cmp, r[..m], r[m..n]);
      if n < |r| {
        PassedRuns(cmp, s, o + n, r[n..], k);
        RunsJoin(cmp, s, o, merged, Passed(cmp, r[n..], k), 2 * k);
      } else {
        assert r[n..] == [] && merged + [] == merged;
        assert s[o..o + n] == s[o..];
      }
    } else {
      assert r == Passed(cmp, r, k);
    }
  }

  lemma EmptyRun<T>(cmp: (T, T) -> int, s: seq<Node<T>>)
    ensures RunOf(cmp, s, [], [])
  {
  }

  lemma SecondRun<T>(cmp: (T, T) -> int, s: seq<Node<T>>, o: nat, r: seq<Node<T>>, k: nat)
    requires k > 0 && RunsOf(cmp, s, o, r, k) && r != []
    ensures var m, n := Min(k, |r|), Min(2 * k, |r|);
            RunOf(cmp, s, s[o + m..o + n], r[m..n]) && (n < |r| ==> RunsOf(cmp, s, o + n, r[n..], k))
  {
    hide RunOf;
    var m, n := Min(k, |r|), Min(2 * k, |r|);
    if |r| <= k {
      EmptyRun(cmp, s);
      assert r[m..n] == [] && s[o + m..o + n] == [];
    } else if |r| <= 2 * k {
      assert r[m..n] == r[k..] && s[o + m..o + n] == s[o + k..];
    } else {
      assert r[k..][..k] == r[m..n] && r[k..][k..] == r[n..];
    }
  }

  lemma {:induction false} ArrangedRuns<T(!new)>(cmp: (T, T) -> int, s: seq<Node<T>>, r: seq<Node<T>>, k: nat)
    requires Ordering(cmp) && k > 0 && RunsOf(cmp, s, 0, r, k)
    ensures StableSort(cmp, s, Arranged(cmp, r, k))
    decreases |r| - k
  {
    PassedRuns(cmp, s, 0, r, k);
    if |r| <= 2 * k {
      assert s[0..] == s;
    } else {
      ArrangedRuns(cmp, s, Passed(cmp, r, k), 2 * k);
    }
  }

  /** The sort is a sort: the same nodes, in order, equal ones in their old order. */
  lemma {:induction false} SortIsStable<T(!new)>(cmp: (T, T) -> int, s: seq<Node<T>>)
    requires Ordering(cmp)
    ensures StableSort(cmp, s, Arranged(cmp, s, 1))
  {
    RunsOfOne(cmp, s, 0);
    assert s[0..] == s;
    ArrangedRuns(cmp, s, s, 1);
  }

  lemma NotBothBefore<T>(s: seq<T>, a: T, b: T)
    requires Distinct(s) && ComesBefore(s, a, b)
    ensures !ComesBefore(s, b, a)
  {
    var i, j :| At(s, i, a) && At(s, j, b) && i < j;
    forall x, y | At(s, x, b) && At(s, y, a) ensures y < x {
      assert x == j && y == i;
    }
  }

  lemma SameFirst<T>(cmp: (T, T) -> int, s: seq<Node<T>>, r: seq<Node<T>>, t: seq<Node<T>>)
    requires Distinct(s) && multiset(r) == multiset(t) && InOrder(cmp, s, r) && InOrder(cmp, s, t) && r != [] && t != []
    ensures r[0] == t[0]
  {
    hide ComesBefore, Le, Distinct;
    BagMembers(r, t);
    assert r[0] in t && t[0] in r;
    var j :| 0 <= j < |t| && t[j] == r[0];
    var i :| 0 <= i < |r| && r[i] == t[0];
    if i > 0 && j > 0 {
      assert Fits(cmp, s, r[0], r[i]) && Fits(cmp, s, t[0], t[j]);
      if ComesBefore(s, r[0], t[0]) {
        NotBothBefore(s, r[0], t[0]);
      }
    }
  }

  lemma {:induction false} OneOrder<T>(cmp: (T, T) -> int, s: seq<Node<T>>, r: seq<Node<T>>, t: seq<Node<T>>)
    requires Distinct(s) && multiset(r) == multiset(t) && InOrder(cmp, s, r) && InOrder(cmp, s, t)
    ensures r == t
    decreases |r|
  {
    hide Fits, Distinct;
    assert |r| == |multiset(r)| == |multiset(t)| == |t|;
    if r != [] {
      SameFirst(cmp, s, r, t);
      TailBag(r);
      TailBag(t);
      var r1, t1 := r[1..], t[1..];
      assert multiset(r1) == multiset(r) - multiset{r[0]} == multiset(t1);
      OneOrder(cmp, s, r1, t1);
    }
  }

  /** There is only one stable sort of a list of distinct nodes, so what the passes give is it. */
  lemma {:induction false} OnlyStableSort<T(!new)>(cmp: (T, T) -> int, s: seq<Node<T>>, r: seq<Node<T>>)
    requires Ordering(cmp) && Distinct(s)
    ensures StableSort(cmp, s, r) <==> r == Arranged(cmp, s, 1)
  {
    SortIsStable(cmp, s);
    if StableSort(cmp, s, r) {
      OneOrder(cmp, s, r, Arranged(cmp, s, 1));
    }
  }

  // ---------- lists in the heap ----------

  lemma DistinctLast<T>(s: seq<T>, e: T)
    ensures Distinct(s + [e]) <==> Distinct(s) && e !in s
  {
    var t := s + [e];
    assert t[|s|] == e;
    assert forall i :: 0 <= i < |s| ==> t[i] == s[i];
  }

  ghost predicate Forward<T>(s: seq<Node<T>>)
    reads s
  {
    forall i :: 0 <= i < |s| - 1 ==> s[i].next == s[i + 1]
  }

  ghost predicate Backward<T>(s: seq<Node<T>>)
    reads s
  {
    forall i :: 0 < i < |s| ==> s[i].prev == s[i - 1]
  }

  function First<T>(s: seq<Node<T>>): Node?<T> { if s == [] then null else s[0] }

  function Last<T>(s: seq<Node<T>>): Node?<T> { if s == [] then null else s[|s| - 1] }

  /** The forward links of a list of this shape. */
  ghost predicate Threaded<T>(shape: Shape, s: seq<Node<T>>)
    reads s
  {
    && Distinct(s) && Forward(s)
    && (s != [] ==> Last(s).next == if shape == Circular then s[0] else null)
  }

  /** All links of a list of this shape. */
  ghost predicate IsList<T>(shape: Shape, s: seq<Node<T>>)
    reads s
  {
    && Threaded(shape, s)
    && (shape != Single && s != [] ==> Backward(s) && s[0].prev == if shape == Hashed then null else Last(s))
  }

  /** The step from a node to the next; the end of a circular list is where it comes back to the old head. */
  function NextOf<T>(shape: Shape, oldHead: Node<T>, n: Node<T>): Node?<T>
    reads n
  {
    if shape == Circular && n.next == oldHead then null else n.next
  }

  /** A run that has yet to be merged: the steps lead through it, wherever its last node leads. */
  ghost predicate RunAhead<T>(shape: Shape, oldHead: Node<T>, s: seq<Node<T>>)
    reads s
  {
    forall i :: 0 <= i < |s| - 1 ==> NextOf(shape, oldHead, s[i]) == s[i + 1]
  }

  /** All that has yet to be merged: the steps lead through it to the end. */
  ghost predicate Ahead<T>(shape: Shape, oldHead: Node<T>, s: seq<Node<T>>)
    reads s
  {
    RunAhead(shape, oldHead, s) && (s != [] ==> NextOf(shape, oldHead, Last(s)) == null)
  }

  /** What is merged already. */
  ghost predicate Built<T>(shape: Shape, s: seq<Node<T>>)
    reads s
  {
    && Forward(s)
    && (shape != Single ==> Backward(s) && (s != [] ==> s[0].prev == null))
  }

  /** Hangs e onto the end of the list under construction. */
  method Emit<T>(shape: Shape, list: Node?<T>, tail: Node?<T>, e: Node<T>, ghost done: seq<Node<T>>)
    returns (newList: Node<T>)
    requires Built(shape, done) && list == First(done) && tail == Last(done) && Distinct(done + [e])
    modifies (if tail == null then {} else {tail})`next, {e}`prev
    ensures Built(shape, done + [e]) && newList == First(done + [e])
  {
    DistinctLast(done, e);
    if tail != null {
      tail.next := e;
      newList := list;
    } else {
      newList := e;
    }
    if shape != Single {
      e.prev := tail;
    }
  }

  lemma DistinctMove<T>(a: seq<T>, b: seq<T>, x: T, c: seq<T>)
    requires Distinct(a + b + [x] + c)
    ensures Distinct(a + [x] + b + c)
  {
    var s, t := a + b + [x] + c, a + [x] + b + c;
    forall i, j | 0 <= i < j < |t| ensures t[i] != t[j] {
      var i' := Moved(|a|, |b|, i);
      var j' := Moved(|a|, |b|, j);
      assert t[i] == s[i'] && t[j] == s[j'];
      assert i' != j';
    }
  }

  function Moved(a: nat, b: nat, i: nat): nat {
    if i < a then i else if i == a then a + b else if i <= a + b then i - 1 else i
  }

  /** The state inside the merge of two runs: `ps` is left of the first, `qs` is everything from the second on. */
  ghost predicate Merging<T>(shape: Shape, oldHead: Node<T>, all: set<Node<T>>, done: seq<Node<T>>, ps: seq<Node<T>>,
                             qs: seq<Node<T>>)
    reads all
  {
    && (forall n :: n in done + ps + qs ==> n in all)
    && Distinct(done + ps + qs)
    && Built(shape, done) && RunAhead(shape, oldHead, ps) && Ahead(shape, oldHead, qs)
  }

  method TakeFirst<T>(shape: Shape, oldHead: Node<T>, list: Node?<T>, tail: Node?<T>, p: Node<T>,
                      ghost all: set<Node<T>>, ghost done: seq<Node<T>>, ghost ps: seq<Node<T>>, ghost qs: seq<Node<T>>)
    returns (newList: Node<T>, newP: Node?<T>)
    requires Merging(shape, oldHead, all, done, ps, qs) && ps != [] && p == ps[0] && list == First(done)
             && tail == Last(done)
    modifies all`next, all`prev
    ensures Merging(shape, oldHead, all, done + [p], ps[1..], qs) && newList == First(done + [p])
    ensures |ps| > 1 ==> newP == ps[1]
  {
    newP := NextOf(shape, oldHead, p);
    assert done + ps + qs == (done + [p]) + ps[1..] + qs;
    Apart(done, p, ps[1..], qs);
    assert tail != null ==> tail in done;
    newList := Emit(shape, list, tail, p, done);
  }

  method TakeSecond<T>(shape: Shape, oldHead: Node<T>, list: Node?<T>, tail: Node?<T>, q: Node<T>,
                       ghost all: set<Node<T>>, ghost done: seq<Node<T>>, ghost ps: seq<Node<T>>,
                       ghost qs: seq<Node<T>>)
    returns (newList: Node<T>, newQ: Node?<T>)
    requires Merging(shape, oldHead, all, done, ps, qs) && qs != [] && q == qs[0] && list == First(done)
             && tail == Last(done)
    modifies all`next, all`prev
    ensures Merging(shape, oldHead, all, done + [q], ps, qs[1..]) && newList == First(done + [q])
    ensures newQ == First(qs[1..])
  {
    newQ := NextOf(shape, oldHead, q);
    assert done + ps + qs == done + ps + [q] + qs[1..];
    DistinctMove(done, ps, q, qs[1..]);
    Apart(done, q, ps, qs[1..]);
    assert tail != null ==> tail in done;
    newList := Emit(shape, list, tail, q, done);
  }

  lemma Apart<T>(done: seq<T>, e: T, ps: seq<T>, qs: seq<T>)
    requires Distinct(done + [e] + ps + qs)
    ensures Distinct(done + [e])
    ensures forall i :: 0 <= i < |ps| ==> ps[i] !in done && ps[i] != e
    ensures forall i :: 0 <= i < |qs| ==> qs[i] !in done && qs[i] != e
  {
    var t, m := done + [e] + ps + qs, |done| + 1;
    assert forall k :: 0 <= k < |done| ==> t[k] == done[k] == (done + [e])[k];
    assert t[|done|] == e == (done + [e])[|done|];
    forall i | 0 <= i < |ps| ensures ps[i] !in done && ps[i] != e {
      assert t[m + i] == ps[i];
    }
    forall i | 0 <= i < |qs| ensures qs[i] !in done && qs[i] != e {
      assert t[m + |ps| + i] == qs[i];
    }
  }

  /** Walks up to `size` nodes on from p; the run that starts at p has as many as there were. */
  method SplitRun<T>(shape: Shape, oldHead: Node<T>, p: Node<T>, size: nat, ghost rest: seq<Node<T>>)
    returns (psize: nat, q: Node?<T>)
    requires Ahead(shape, oldHead, rest) && rest != [] && p == rest[0] && size > 0
    ensures psize == Min(size, |rest|) && q == First(rest[psize..])
  {
    q, psize := p, 0;
    var i := 0;
    while i < size
      invariant 0 <= i == psize <= size && psize < |rest| && q == rest[psize]
    {
      assert psize + 1 < |rest| ==> NextOf(shape, oldHead, rest[psize]) == rest[psize + 1];
      psize := psize + 1;
      q := NextOf(shape, oldHead, q);
      if q == null {
        break;
      }
      i := i + 1;
    }
  }

  lemma {:induction false} FirstNext<T>(cmp: (T, T) -> int, done: seq<Node<T>>, ps: seq<Node<T>>, run: seq<Node<T>>)
    requires ps != [] && (run == [] || Le(cmp, ps[0], run[0]))
    ensures done + Merge(cmp, ps, run) == done + [ps[0]] + Merge(cmp, ps[1..], run)
  {
    if run == [] {
      assert ps == [ps[0]] + ps[1..];
    }
    assert Merge(cmp, ps, run) == [ps[0]] + Merge(cmp, ps[1..], run);
  }

  lemma {:induction false} SecondNext<T>(cmp: (T, T) -> int, done: seq<Node<T>>, ps: seq<Node<T>>, run: seq<Node<T>>)
    requires run != [] && (ps == [] || !Le(cmp, ps[0], run[0]))
    ensures done + Merge(cmp, ps, run) == done + [run[0]] + Merge(cmp, ps, run[1..])
  {
    if ps == [] {
      assert run == [run[0]] + run[1..];
    }
    assert Merge(cmp, ps, run) == [run[0]] + Merge(cmp, ps, run[1..]);
  }

  lemma {:induction false} MergeNone<T>(cmp: (T, T) -> int, run: seq<Node<T>>)
    ensures Merge(cmp, [], run) == run
  {
  }

  lemma RunNext<T>(qs: seq<T>, n: nat)
    requires qs != [] && n > 0
    ensures qs[1..][..Min(n - 1, |qs| - 1)] == qs[..Min(n, |qs|)][1..]
    ensures qs[1..][Min(n - 1, |qs| - 1)..] == qs[Min(n, |qs|)..]
    ensures qs[..Min(n, |qs|)][0] == qs[0]
  {
  }

  /** Merges the run of psize nodes at p with the run of at most `size` nodes at q onto the list. */
  method MergeRuns<T>(cmp: (T, T) -> int, shape: Shape, oldHead: Node<T>, list0: Node?<T>, tail0: Node?<T>,
                      p0: Node<T>, psize0: nat, q0: Node?<T>, size: nat,
                      ghost all: set<Node<T>>, ghost done0: seq<Node<T>>, ghost ps0: seq<Node<T>>,
                      ghost qs0: seq<Node<T>>)
    returns (list: Node<T>, tail: Node<T>, q: Node?<T>, ghost done: seq<Node<T>>)
    requires Merging(shape, oldHead, all, done0, ps0, qs0) && list0 == First(done0) && tail0 == Last(done0)
    requires ps0 != [] && psize0 == |ps0| && p0 == ps0[0] && q0 == First(qs0)
    modifies all`next, all`prev
    ensures done == done0 + Merge(cmp, ps0, qs0[..Min(size, |qs0|)])
    ensures Merging(shape, oldHead, all, done, [], qs0[Min(size, |qs0|)..])
    ensures done != [] && list == First(done) && tail == Last(done) && q == First(qs0[Min(size, |qs0|)..])
  {
    hide Merging, Merge;
    var l, t, p: Node?<T>, psize, qsize := list0, tail0, p0, psize0, size;
    q, done := q0, done0;
    ghost var ps, qs := ps0, qs0;
    while psize > 0 || (qsize > 0 && q != null)
      invariant Merging(shape, oldHead, all, done, ps, qs)
      invariant psize == |ps| && (psize > 0 ==> p == ps[0]) && q == First(qs) && l == First(done) && t == Last(done)
      invariant done + Merge(cmp, ps, qs[..Min(qsize, |qs|)]) == done0 + Merge(cmp, ps0, qs0[..Min(size, |qs0|)])
      invariant qs[Min(qsize, |qs|)..] == qs0[Min(size, |qs0|)..]
      invariant done == [] ==> psize > 0
      decreases psize + |qs|
    {
      var e;
      ghost var run := qs[..Min(qsize, |qs|)];
      if psize == 0 {
        e := q;
        SecondNext(cmp, done, ps, run);
        RunNext(qs, qsize);
        l, q := TakeSecond(shape, oldHead, l, t, q, all, done, ps, qs);
        qsize, qs := qsize - 1, qs[1..];
      } else if qsize == 0 || q == null {
        e := p;
        FirstNext(cmp, done, ps, run);
        l, p := TakeFirst(shape, oldHead, l, t, p, all, done, ps, qs);
        psize, ps := psize - 1, ps[1..];
      } else if Le(cmp, p, q) {
        e := p;
        FirstNext(cmp, done, ps, run);
        l, p := TakeFirst(shape, oldHead, l, t, p, all, done, ps, qs);
        psize, ps := psize - 1, ps[1..];
      } else {
        e := q;
        SecondNext(cmp, done, ps, run);
        RunNext(qs, qsize);
        l, q := TakeSecond(shape, oldHead, l, t, q, all, done, ps, qs);
        qsize, qs := qsize - 1, qs[1..];
      }
      t, done := e, done + [e];
    }
    MergeNone(cmp, qs[..Min(qsize, |qs|)]);
    list, tail := l, t;
  }

  lemma ThreadedAhead<T>(shape: Shape, s: seq<Node<T>>)
    requires Threaded(shape, s) && s != []
    ensures Ahead(shape, s[0], s)
  {
  }

  lemma MergingStart<T>(shape: Shape, oldHead: Node<T>, all: set<Node<T>>, s: seq<Node<T>>)
    requires Distinct(s) && Ahead(shape, oldHead, s) && all == set n | n in s
    ensures Merging(shape, oldHead, all, [], [], s)
  {
    assert [] + [] + s == s;
  }

  lemma MergingSplit<T>(shape: Shape, oldHead: Node<T>, all: set<Node<T>>, done: seq<Node<T>>, rest: seq<Node<T>>,
                        m: nat)
    requires Merging(shape, oldHead, all, done, [], rest) && m <= |rest|
    ensures Merging(shape, oldHead, all, done, rest[..m], rest[m..]) && Ahead(shape, oldHead, rest)
  {
    assert done + [] + rest == done + rest[..m] + rest[m..];
  }

  lemma MergingEnd<T>(shape: Shape, oldHead: Node<T>, all: set<Node<T>>, done: seq<Node<T>>)
    requires Merging(shape, oldHead, all, done, [], [])
    ensures Distinct(done) && Built(shape, done) && forall n :: n in done ==> n in all
  {
    assert done + [] + [] == done;
  }

  lemma {:induction false} PassedNone<T>(cmp: (T, T) -> int, size: nat)
    requires size > 0
    ensures Passed<T>(cmp, [], size) == []
  {
  }

  lemma SecondSlice<T>(rest: seq<T>, size: nat)
    ensures var m, n, qs := Min(size, |rest|), Min(2 * size, |rest|), rest[Min(size, |rest|)..];
            qs[..Min(size, |qs|)] == rest[m..n] && qs[Min(size, |qs|)..] == rest[n..]
  {
  }

  lemma {:induction false} PassedStep<T>(cmp: (T, T) -> int, done: seq<Node<T>>, rest: seq<Node<T>>, size: nat)
    requires rest != [] && size > 0
    ensures var m, n := Min(size, |rest|), Min(2 * size, |rest|);
            done + Passed(cmp, rest, size) == done + Merge(cmp, rest[..m], rest[m..n]) + Passed(cmp, rest[n..], size)
  {
    hide Merge;
    var m, n := Min(size, |rest|), Min(2 * size, |rest|);
    var a, b := Merge(cmp, rest[..m], rest[m..n]), Passed(cmp, rest[n..], size);
    assert Passed(cmp, rest, size) == a + b;
    assert done + (a + b) == done + a + b;
  }

  /** The ends of the list, each shape in its own way. */
  method CloseList<T>(shape: Shape, list: Node<T>, tail: Node<T>, ghost done: seq<Node<T>>)
    requires Distinct(done) && Built(shape, done) && done != [] && list == done[0] && tail == Last(done)
    modifies {list}`prev, {tail}`next
    ensures IsList(shape, done)
  {
    match shape
    case Single => tail.next := null;
    case Double =>
      list.prev := tail;
      tail.next := null;
    case Circular =>
      list.prev := tail;
      tail.next := list;
    case Hashed => tail.next := null;
  }

  /** Merges the next two runs. */
  method MergePair<T>(cmp: (T, T) -> int, shape: Shape, head: Node<T>, list: Node?<T>, tail: Node?<T>, p: Node<T>,
                      size: nat, ghost all: set<Node<T>>, ghost done: seq<Node<T>>, ghost rest: seq<Node<T>>)
    returns (l: Node<T>, t: Node<T>, q: Node?<T>, ghost longer: seq<Node<T>>, ghost left: seq<Node<T>>)
    requires Merging(shape, head, all, done, [], rest) && rest != [] && p == rest[0] && size > 0
    requires list == First(done) && tail == Last(done)
    modifies all`next, all`prev
    ensures Merging(shape, head, all, longer, [], left) && q == First(left)
    ensures longer != [] && l == First(longer) && t == Last(longer)
    ensures longer + Passed(cmp, left, size) == done + Passed(cmp, rest, size)
    ensures |left| == |rest| - Min(2 * size, |rest|)
  {
    hide Merging, Merge, Passed, Ahead;
    MergingSplit(shape, head, all, done, rest, Min(size, |rest|));
    PassedStep(cmp, done, rest, size);
    SecondSlice(rest, size);
    var psize;
    psize, q := SplitRun(shape, head, p, size, rest);
    ghost var ps, qs := rest[..psize], rest[psize..];
    l, t, q, longer := MergeRuns(cmp, shape, head, list, tail, p, psize, q, size, all, done, ps, qs);
    left := qs[Min(size, |qs|)..];
  }

  /** One pass over the whole list, with its links put right at the end. */
  method MergePass<T>(cmp: (T, T) -> int, shape: Shape, head: Node<T>, size: nat, ghost s: seq<Node<T>>)
    returns (list: Node<T>, tail: Node<T>, merges: nat)
    requires Threaded(shape, s) && s != [] && head == s[0] && size > 0
    modifies (set n | n in s)`next, (set n | n in s)`prev
    ensures IsList(shape, Passed(cmp, s, size)) && list == Passed(cmp, s, size)[0] && tail == Last(Passed(cmp, s, size))
    ensures merges <= 1 <==> |s| <= 2 * size
  {
    hide Merging, Merge, Passed, IsList, Built, Ahead, RunAhead, Forward, Backward, Distinct;
    ghost var all := set n | n in s;
    var l: Node?<T>, t: Node?<T>, p: Node?<T> := null, null, head;
    merges := 0;
    ghost var done: seq<Node<T>>, rest := [], s;
    ThreadedAhead(shape, s);
    MergingStart(shape, head, all, s);
    hide Threaded;
    while p != null
      invariant Merging(shape, head, all, done, [], rest) && p == First(rest)
      invariant l == First(done) && t == Last(done) && (rest == [] ==> done != [])
      invariant done + Passed(cmp, rest, size) == Passed(cmp, s, size)
      invariant (merges == 0 ==> rest == s) && (merges == 1 ==> |rest| == |s| - Min(2 * size, |s|))
      invariant merges >= 2 ==> |s| > 2 * size
      decreases |rest|
    {
      merges := merges + 1;
      l, t, p, done, rest := MergePair(cmp, shape, head, l, t, p, size, all, done, rest);
    }
    MergingEnd(shape, head, all, done);
    PassedNone(cmp, size);
    list, tail := l, t;
    assert done == Passed(cmp, s, size);
    assert done[0] in done && done[|done| - 1] in done;
    CloseList(shape, list, tail, done);
  }

  lemma SameNodes<T>(r: seq<Node<T>>, s: seq<Node<T>>)
    requires multiset(r) == multiset(s)
    ensures |r| == |s| && forall n :: n in r <==> n in s
  {
    BagMembers(r, s);
    assert |multiset(r)| == |r| && |multiset(s)| == |s|;
  }

  /** The sort macros: the list comes back with the same nodes in stable order and all its links right.
      Only next and prev are written. */
  method Sort<T>(cmp: (T, T) -> int, shape: Shape, head: Node?<T>, ghost s: seq<Node<T>>)
    returns (list: Node?<T>, tail: Node?<T>)
    requires Threaded(shape, s) && head == First(s)
    modifies (set n | n in s)`next, (set n | n in s)`prev
    ensures var r := if s == [] then [] else Arranged(cmp, s, 1);
            && IsList(shape, r) && list == First(r) && tail == Last(r)
            && multiset(r) == multiset(s)
  {
    hide Merging, Passed, Ahead, Built;
    list, tail := head, null;
    if head != null {
      var size, looping := 1, true;
      ghost var r := s;
      while looping
        invariant size > 0 && r != [] && list == r[0] && multiset(r) == multiset(s)
        invariant if looping then Threaded(shape, r) && Arranged(cmp, r, size) == Arranged(cmp, s, 1)
                  else IsList(shape, r) && r == Arranged(cmp, s, 1) && tail == Last(r)
        decreases looping, |r| - size
      {
        SameNodes(r, s);
        PassedBag(cmp, r, size);
        var merges: nat;
        list, tail, merges := MergePass(cmp, shape, list, size, r);
        r := Passed(cmp, r, size);
        SameNodes(r, s);
        if merges <= 1 {
          looping := false;
        }
        size := size * 2;
      }
    }
  }
}
