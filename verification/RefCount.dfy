/** Reference counts in json_object.c, and who owns the nodes while json_tokener.c runs. */
module RefCount {
  import opened Bags
  import opened JsonValue

  /** A pointer to a node; None for NULL. */
  type Ref = Option<nat>

  /** Nodes by number: the count of each (0: released) and what it points to. */
  datatype Heap = Heap(counts: seq<nat>, kids: seq<seq<Ref>>)

  const NO_NODES := Heap([], [])

  function Count(h: Heap, n: nat): nat {
    if n < |h.counts| then h.counts[n] else 0
  }

  /** How often a node is pointed to, from nodes and from outside. */
  function Owners(h: Heap, out: multiset<Ref>, n: nat): nat {
    (multiset(Flat(h.kids)) + out)[Some(n)]
  }

  ghost predicate Older(kids: seq<seq<Ref>>) {
    forall n, k: nat :: 0 <= n < |kids| && Some(k) in kids[n] ==> n < k
  }

  /** Every count is the number of owners, released nodes own nothing, and nodes own newer nodes only. */
  ghost predicate Counted(h: Heap, out: multiset<Ref>) {
    && |h.counts| == |h.kids|
    && (forall n: nat :: Count(h, n) == Owners(h, out, n))
    && (forall n :: 0 <= n < |h.counts| && h.counts[n] == 0 ==> h.kids[n] == [])
    && Older(h.kids)
  }

  function Total(counts: seq<nat>): nat {
    if counts == [] then 0 else Total(counts[..|counts| - 1]) + counts[|counts| - 1]
  }

  lemma {:induction false} TotalUpdate(counts: seq<nat>, n: nat, c: nat)
    requires n < |counts|
    ensures Total(counts[n := c]) + counts[n] == Total(counts) + c
  {
    var last := |counts| - 1;
    if n == last {
      assert counts[n := c][..last] == counts[..last];
    } else {
      TotalUpdate(counts[..last], n, c);
      assert counts[n := c][..last] == counts[..last][n := c];
    }
  }

  // ---------- json_object_get and json_object_put ----------

  /** json_object_get: one more owner. */
  function Get(h: Heap, r: Ref): Heap {
    if r.Some? && r.value < |h.counts| then h.(counts := h.counts[r.value := h.counts[r.value] + 1]) else h
  }

  lemma GetCounts(h: Heap, out: multiset<Ref>, r: Ref)
    requires Counted(h, out) && (r.Some? ==> Count(h, r.value) > 0)
    ensures Counted(Get(h, r), out + multiset{r})
  {
    hide Flat;
    var g := Get(h, r);
    forall n: nat ensures Count(g, n) == Owners(g, out + multiset{r}, n) {
      assert Count(h, n) == Owners(h, out, n);
    }
  }

  /** Several gets, one after the other. */
  function GetAll(h: Heap, rs: seq<Ref>): Heap {
    if rs == [] then h else Get(GetAll(h, rs[..|rs| - 1]), rs[|rs| - 1])
  }

  lemma {:induction false} GetAllCounts(h: Heap, out: multiset<Ref>, rs: seq<Ref>)
    requires Counted(h, out) && forall r :: r in rs && r.Some? ==> Count(h, r.value) > 0
    ensures Counted(GetAll(h, rs), out + multiset(rs)) && GetAll(h, rs).kids == h.kids
    ensures forall n: nat :: Count(GetAll(h, rs), n) == Count(h, n) + multiset(rs)[Some(n)]
  {
    hide Counted;
    if rs == [] {
      assert out + multiset(rs) == out;
    } else {
      var before, r := rs[..|rs| - 1], rs[|rs| - 1];
      assert rs == before + [r];
      GetAllCounts(h, out, before);
      GetCounts(GetAll(h, before), out + multiset(before), r);
      assert out + multiset(before) + multiset{r} == out + multiset(rs);
    }
  }

  /** A node with no owner left is released, and what it owned is put in turn. */
  function Released(h: Heap, n: nat): Heap
    requires n < |h.counts| == |h.kids|
  {
    if h.counts[n] > 1 then h.(counts := h.counts[n := h.counts[n] - 1])
    else Heap(h.counts[n := 0], h.kids[n := []])
  }

  /** What is still to be put after the first owner of n let go. */
  function Pending(h: Heap, n: nat): seq<Ref>
    requires n < |h.kids|
  {
    if Count(h, n) > 1 then [] else h.kids[n]
  }

  lemma ReleasedCounts(h: Heap, out: multiset<Ref>, n: nat)
    requires Counted(h, out + multiset{Some(n)})
    ensures n < |h.counts| && h.counts[n] > 0
    ensures Counted(Released(h, n), out + multiset(Pending(h, n)))
    ensures Total(Released(h, n).counts) < Total(h.counts)
  {
    hide Flat, Total;
    assert Owners(h, out + multiset{Some(n)}, n) > 0;
    TotalUpdate(h.counts, n, h.counts[n] - 1);
    if h.counts[n] > 1 {
      assert multiset(Pending(h, n)) == multiset{};
      assert out + multiset(Pending(h, n)) == out;
      var g := Released(h, n);
      forall m: nat ensures Count(g, m) == Owners(g, out, m) {
        assert Count(h, m) == Owners(h, out + multiset{Some(n)}, m);
      }
    } else {
      FlatUpdate(h.kids, n, []);
      OneLess(multiset(Flat(h.kids[n := []])), multiset(h.kids[n]), multiset(Flat(h.kids)), out, Some(n));
      var g := Released(h, n);
      forall m: nat ensures Count(g, m) == Owners(g, out + multiset(h.kids[n]), m) {
        assert Count(h, m) == Owners(h, out + multiset{Some(n)}, m);
      }
    }
  }

  lemma OneLess<T>(u: multiset<T>, a: multiset<T>, v: multiset<T>, out: multiset<T>, x: T)
    requires u + a == v
    ensures forall y :: (u + (out + a))[y] == (v + (out + multiset{x}))[y] - (if y == x then 1 else 0)
  {
  }

  /** json_object_put of a list of references, in order; the nodes owned by a released node come first. */
  function PutRefs(h: Heap, work: seq<Ref>, out: multiset<Ref>): (r: Heap)
    requires Counted(h, out + multiset(work))
    ensures Counted(r, out)
    decreases Total(h.counts), |work|
  {
    if work == [] then
      assert out + multiset(work) == out;
      h
    else
      assert work == [work[0]] + work[1..];
      var rest := out + multiset(work[1..]);
      assert out + multiset(work) == rest + multiset{work[0]};
      match work[0]
      case None =>
        DropNull(h, rest);
        PutRefs(h, work[1..], out)
      case Some(n) =>
        ReleasedCounts(h, rest, n);
        var more := Pending(h, n);
        assert rest + multiset(more) == out + multiset(more + work[1..]);
        PutRefs(Released(h, n), more + work[1..], out)
  }

  lemma DropNull(h: Heap, out: multiset<Ref>)
    requires Counted(h, out + multiset{None})
    ensures Counted(h, out)
  {
    hide Flat;
    forall n: nat ensures Owners(h, out, n) == Owners(h, out + multiset{None}, n) {
    }
  }

  /** What putting leaves alone: no count grows, and a node that is still live owns what it owned. */
  lemma {:induction false} PutKeeps(h: Heap, work: seq<Ref>, out: multiset<Ref>, n: nat)
    requires Counted(h, out + multiset(work))
    ensures var r := PutRefs(h, work, out);
            && |r.counts| == |h.counts| && Count(r, n) <= Count(h, n)
            && (Count(r, n) > 0 ==> r.kids[n] == h.kids[n])
    decreases Total(h.counts), |work|
  {
    if work != [] {
      assert work == [work[0]] + work[1..];
      var rest := out + multiset(work[1..]);
      assert out + multiset(work) == rest + multiset{work[0]};
      match work[0]
      case None =>
        DropNull(h, rest);
        PutKeeps(h, work[1..], out, n);
      case Some(m) =>
        ReleasedCounts(h, rest, m);
        var more := Pending(h, m);
        assert rest + multiset(more) == out + multiset(more + work[1..]);
        PutKeeps(Released(h, m), more + work[1..], out, n);
    }
  }

  /** Without owners outside nothing is live: nodes own newer nodes only, so none keeps itself alive. */
  lemma {:induction false} NothingLeft(h: Heap, out: multiset<Ref>, n: nat)
    requires Counted(h, out) && forall m: nat :: out[Some(m)] == 0
    ensures Count(h, n) == 0
  {
    if Count(h, n) > 0 {
      assert Count(h, n) == Owners(h, out, n);
      assert Some(n) in multiset(Flat(h.kids));
      var m := FlatFrom(h.kids, Some(n));
      NothingLeft(h, out, m);
    }
  }

  /** A node is reached from r by going from owners to what they own. */
  ghost predicate Reached(h: Heap, r: nat, n: nat) {
    n == r || exists m :: 0 <= m < n && m < |h.kids| && Some(n) in h.kids[m] && Reached(h, r, m)
  }

  /** When only x has owners outside, everything live is reached from x. */
  lemma {:induction false} LiveIsReached(h: Heap, out: multiset<Ref>, x: Ref, n: nat)
    requires Counted(h, out) && Count(h, n) > 0
    requires forall m: nat :: out[Some(m)] > 0 ==> x == Some(m)
    ensures x.Some? && Reached(h, x.value, n)
  {
    assert Count(h, n) == Owners(h, out, n);
    if x != Some(n) {
      assert out[Some(n)] == 0;
      assert Some(n) in multiset(Flat(h.kids));
      var m := FlatFrom(h.kids, Some(n));
      assert h.kids[m] != [];
      LiveIsReached(h, out, x, m);
    }
  }

  /** What is reached from a live node is live. */
  lemma {:induction false} ReachedIsLive(h: Heap, out: multiset<Ref>, r: nat, n: nat)
    requires Counted(h, out) && Count(h, r) > 0 && Reached(h, r, n)
    ensures Count(h, n) > 0
  {
    if n != r {
      var m :| 0 <= m < n && m < |h.kids| && Some(n) in h.kids[m] && Reached(h, r, m);
      FlatMember(h.kids, m, Some(n));
      assert Count(h, n) == Owners(h, out, n);
    }
  }

  // ---------- nodes made and handed over ----------

  /** json_object_new: one node with one owner. */
  function Made(h: Heap): Heap {
    Heap(h.counts + [1], h.kids + [[]])
  }

  lemma MadeCounts(h: Heap, out: multiset<Ref>)
    requires Counted(h, out)
    ensures Counted(Made(h), out + multiset{Some(|h.counts|)})
  {
    var g, x := Made(h), |h.counts|;
    assert g.kids[..|g.kids| - 1] == h.kids;
    assert Flat(g.kids) == Flat(h.kids);
    hide Flat;
    forall n: nat ensures Count(g, n) == Owners(g, out + multiset{Some(x)}, n) {
      assert Count(h, n) == Owners(h, out, n);
    }
  }

  /** A container takes over a reference. */
  function Owned(h: Heap, n: nat, r: Ref): Heap
    requires n < |h.kids|
  {
    h.(kids := h.kids[n := h.kids[n] + [r]])
  }

  lemma OwnedCounts(h: Heap, out: multiset<Ref>, n: nat, r: Ref)
    requires Counted(h, out + multiset{r}) && n < |h.kids| && Count(h, n) > 0 && (r.Some? ==> n < r.value)
    ensures Counted(Owned(h, n, r), out)
  {
    hide Flat;
    var g := Owned(h, n, r);
    FlatUpdate(h.kids, n, h.kids[n] + [r]);
    assert multiset(h.kids[n] + [r]) == multiset{r} + multiset(h.kids[n]);
    BagCancel(multiset(Flat(g.kids)), multiset(h.kids[n]), multiset(Flat(h.kids)), multiset{r});
    forall m: nat ensures Count(g, m) == Owners(g, out, m) {
      assert Count(h, m) == Owners(h, out + multiset{r}, m);
    }
  }

  /** A container gives up the reference in place p. */
  function Disowned(h: Heap, n: nat, p: nat): Heap
    requires n < |h.kids| && p < |h.kids[n]|
  {
    h.(kids := h.kids[n := h.kids[n][..p] + h.kids[n][p + 1..]])
  }

  lemma DisownedCounts(h: Heap, out: multiset<Ref>, n: nat, p: nat)
    requires Counted(h, out) && n < |h.kids| && p < |h.kids[n]|
    ensures Counted(Disowned(h, n, p), out + multiset{h.kids[n][p]})
  {
    hide Flat;
    var g, r := Disowned(h, n, p), h.kids[n][p];
    var cut := h.kids[n][..p] + h.kids[n][p + 1..];
    FlatUpdate(h.kids, n, cut);
    assert h.kids[n] == h.kids[n][..p] + [r] + h.kids[n][p + 1..];
    assert multiset(h.kids[n]) == multiset{r} + multiset(cut);
    BagShed(multiset(Flat(g.kids)), multiset{r}, multiset(cut), multiset(Flat(h.kids)));
    forall m: nat ensures Count(g, m) == Owners(g, out + multiset{r}, m) {
      assert Count(h, m) == Owners(h, out, m);
    }
  }

  lemma BagShed<T>(u: multiset<T>, e: multiset<T>, a: multiset<T>, v: multiset<T>)
    requires u + (e + a) == v + a
    ensures u + e == v
  {
    assert (u + (e + a)) - a == u + e && (v + a) - a == v;
  }
}
