/** queue.c: a ring filled by the UDP thread and emptied by the queue thread,
    without a lock, statement by statement. */
module PacketQueue {
  import opened JsonValue
  import opened Ring

  /** Where the storing thread is inside queue_store. */
  datatype Producer<+P> = Idle | Wrapping(ptr: P) | Writing(ptr: P) | Bumping

  /** Where the popping thread is inside queue_pop_first. */
  datatype Consumer<+P> = Asking | Reading | Clearing(tmp: P) | Advancing(tmp: P) | Resetting(tmp: P)

  /** The shared variables, the two program counters, and the history:
      packets written to a slot and packets taken out of one. */
  datatype Queue<+P> = Queue(
    slots: seq<Option<P>>, storePos: int, retrievePos: int,
    producer: Producer<P>, consumer: Consumer<P>,
    stored: seq<P>, popped: seq<P>)

  /** queue_init */
  function Init<P>(n: nat): Queue<P> {
    Queue(seq(n, _ => None), 0, 0, Idle, Asking, [], [])
  }

  // ---------- the statements ----------

  /** The next statement of queue_store; Idle threads first get a packet. */
  function StoreStep<P>(q: Queue<P>, packet: P): Queue<P>
    requires q.producer.Writing? ==> 0 <= q.storePos < |q.slots|
  {
    match q.producer
    case Idle => q.(producer := Wrapping(packet))
    case Wrapping(p) => q.(storePos := if q.storePos == |q.slots| then 0 else q.storePos, producer := Writing(p))
    case Writing(p) => q.(slots := q.slots[q.storePos := Some(p)], stored := q.stored + [p], producer := Bumping)
    case Bumping => q.(storePos := q.storePos + 1, producer := Idle)
  }

  /** The next statement of queue_pop_first; an empty slot makes it return NULL at once. */
  function PopStep<P>(q: Queue<P>): Queue<P>
    requires q.consumer.Asking? || q.consumer.Reading? || q.consumer.Clearing? ==> 0 <= q.retrievePos < |q.slots|
    requires q.consumer.Reading? ==> q.slots[q.retrievePos].Some?
  {
    match q.consumer
    case Asking => if q.slots[q.retrievePos] == None then q else q.(consumer := Reading)
    case Reading => q.(consumer := Clearing(q.slots[q.retrievePos].value))
    case Clearing(p) => q.(slots := q.slots[q.retrievePos := None], popped := q.popped + [p], consumer := Advancing(p))
    case Advancing(p) => q.(retrievePos := q.retrievePos + 1, consumer := Resetting(p))
    case Resetting(p) => q.(retrievePos := if q.retrievePos == |q.slots| then 0 else q.retrievePos, consumer := Asking)
  }

  /** The packet queue_pop_first returns with its last statement. */
  function Returned<P>(q: Queue<P>): Option<P> {
    if q.consumer.Resetting? then Some(q.consumer.tmp) else None
  }

  /** The thread is about to overwrite a packet that was not popped yet. */
  predicate Overrun<P(==)>(q: Queue<P>) {
    q.producer.Writing? && 0 <= q.storePos < |q.slots| && q.slots[q.storePos] != None
  }

  // ---------- the invariant ----------

  /** Slot of the m-th packet. */
  function SlotOf<P>(q: Queue<P>, m: nat): int { Walk(|q.slots|, 0, m) }

  /** A position variable stands for packet number m: at its slot, or one past the end instead of 0. */
  predicate At<P>(q: Queue<P>, pos: int, m: nat) {
    pos == SlotOf(q, m) || (pos == |q.slots| && SlotOf(q, m) == 0)
  }

  predicate SlotHas<P(==)>(q: Queue<P>, m: nat, o: Option<P>) {
    0 <= SlotOf(q, m) < |q.slots| && q.slots[SlotOf(q, m)] == o
  }

  ghost predicate Inv<P>(q: Queue<P>) {
    var head, tail := |q.popped|, |q.stored|;
    && |q.slots| >= 1 && head <= tail <= head + |q.slots|
    && q.popped == q.stored[..head]
    && (forall m :: head <= m < tail ==> SlotHas(q, m, Some(q.stored[m])))
    && (forall m :: tail <= m < head + |q.slots| ==> SlotHas(q, m, None))
    && ProducerAt(q) && ConsumerAt(q)
  }

  predicate ProducerAt<P>(q: Queue<P>) {
    match q.producer
    case Writing(_) => q.storePos == SlotOf(q, |q.stored|)
    case Bumping => |q.stored| > 0 && q.storePos == SlotOf(q, |q.stored| - 1)
    case _ => At(q, q.storePos, |q.stored|)
  }

  ghost predicate ConsumerAt<P>(q: Queue<P>) {
    match q.consumer
    case Asking => q.retrievePos == SlotOf(q, |q.popped|)
    case Reading => q.retrievePos == SlotOf(q, |q.popped|) && |q.popped| < |q.stored|
    case Clearing(p) => q.retrievePos == SlotOf(q, |q.popped|) && |q.popped| < |q.stored| && p == q.stored[|q.popped|]
    case Advancing(p) => |q.popped| > 0 && q.retrievePos == SlotOf(q, |q.popped| - 1) && p == q.popped[|q.popped| - 1]
    case Resetting(p) => |q.popped| > 0 && At(q, q.retrievePos, |q.popped|) && p == q.popped[|q.popped| - 1]
  }

  lemma InitInv<P>(n: nat)
    requires n >= 1
    ensures Inv(Init<P>(n))
  {
    forall m: nat | 0 <= m < n
      ensures SlotHas(Init<P>(n), m, None)
    {
      WalkInRange(n, 0, m);
    }
  }

  lemma SlotInRange<P>(q: Queue<P>, m: nat)
    requires |q.slots| >= 1
    ensures 0 <= SlotOf(q, m) < |q.slots|
  {
    WalkInRange(|q.slots|, 0, m);
  }

  /** The next write overwrites a packet exactly when the ring is full of unpopped ones. */
  lemma OverrunIff<P>(q: Queue<P>)
    requires Inv(q) && q.producer.Writing?
    ensures Overrun(q) <==> |q.stored| == |q.popped| + |q.slots|
  {
    var head, tail := |q.popped|, |q.stored|;
    if tail == head + |q.slots| {
      WalkDistinct(|q.slots|, 0, head, tail);
      assert SlotHas(q, head, Some(q.stored[head]));
    } else {
      assert SlotHas(q, tail, None);
    }
  }

  lemma SameSlots<P>(q: Queue<P>, r: Queue<P>)
    requires r.slots == q.slots
    ensures forall m, o :: SlotHas(r, m, o) == SlotHas(q, m, o)
  {
  }

  lemma StoreKeepsInv<P>(q: Queue<P>, packet: P)
    requires Inv(q) && !Overrun(q)
    ensures q.producer.Writing? ==> 0 <= q.storePos < |q.slots|
    ensures Inv(StoreStep(q, packet))
  {
    SlotInRange(q, |q.stored|);
    if q.producer.Writing? {
      WriteKeepsInv(q, packet);
    } else {
      SameSlots(q, StoreStep(q, packet));
    }
  }

  lemma WriteKeepsInv<P>(q: Queue<P>, packet: P)
    requires Inv(q) && !Overrun(q) && q.producer.Writing? && 0 <= q.storePos < |q.slots|
    ensures Inv(StoreStep(q, packet))
  {
    var head, tail, r := |q.popped|, |q.stored|, StoreStep(q, packet);
    OverrunIff(q);
    forall m | head <= m < head + |q.slots|
      ensures m != tail ==> SlotOf(q, m) != SlotOf(q, tail)
    {
      if m < tail {
        WalkDistinct(|q.slots|, 0, m, tail);
      } else if m > tail {
        WalkDistinct(|q.slots|, 0, tail, m);
      }
    }
    forall m | head <= m < |r.stored|
      ensures SlotHas(r, m, Some(r.stored[m]))
    {
      assert m < tail ==> SlotHas(q, m, Some(q.stored[m]));
    }
    forall m | |r.stored| <= m < head + |q.slots|
      ensures SlotHas(r, m, None)
    {
      assert SlotHas(q, m, None);
    }
  }

  lemma PopKeepsInv<P>(q: Queue<P>)
    requires Inv(q)
    ensures q.consumer.Asking? || q.consumer.Reading? || q.consumer.Clearing? ==> 0 <= q.retrievePos < |q.slots|
    ensures q.consumer.Reading? ==> q.slots[q.retrievePos].Some?
    ensures Inv(PopStep(q))
  {
    var head := |q.popped|;
    SlotInRange(q, head);
    assert head < |q.stored| ==> SlotHas(q, head, Some(q.stored[head]));
    assert head == |q.stored| ==> SlotHas(q, head, None);
    if q.consumer.Clearing? {
      ClearKeepsInv(q);
    } else {
      SameSlots(q, PopStep(q));
    }
  }

  lemma ClearKeepsInv<P>(q: Queue<P>)
    requires Inv(q) && q.consumer.Clearing? && 0 <= q.retrievePos < |q.slots|
    ensures Inv(PopStep(q))
  {
    var head, tail, n, r := |q.popped|, |q.stored|, |q.slots|, PopStep(q);
    forall m | head < m <= head + n
      ensures SlotOf(q, m) == SlotOf(q, head) <==> m == head + n
    {
      WalkDistinct(n, 0, head, m);
    }
    SlotInRange(q, head);
    forall m | head < m < tail
      ensures SlotHas(r, m, Some(r.stored[m]))
    {
      assert SlotHas(q, m, Some(q.stored[m]));
    }
    forall m | tail <= m < head + 1 + n
      ensures SlotHas(r, m, None)
    {
      assert m < head + n ==> SlotHas(q, m, None);
    }
    assert r.popped == q.stored[..head] + [q.stored[head]] == q.stored[..head + 1];
  }

  /** All four statements of queue_store, one after the other. */
  function StoreCall<P(==)>(q: Queue<P>, packet: P): Queue<P>
    requires Inv(q) && q.producer.Idle?
  {
    StoreKeepsInv(q, packet);
    var q1 := StoreStep(q, packet);
    StoreKeepsInv(q1, packet);
    SlotInRange(q, |q.stored|);
    StoreStep(StoreStep(StoreStep(q1, packet), packet), packet)
  }

  // ---------- runs ----------

  /** What the scheduler may do next. */
  datatype Action<+P> = Store(packet: P) | Pop

  /** The queue after a run, or None once a store found its slot still occupied. */
  function Run<P(==)>(n: nat, actions: seq<Action<P>>): (r: Option<Queue<P>>)
    requires n >= 1
    ensures r.Some? ==> Inv(r.value) && |r.value.slots| == n
    decreases |actions|
  {
    if actions == [] then
      InitInv<P>(n);
      Some(Init(n))
    else
      match Run(n, actions[..|actions| - 1])
      case None => None
      case Some(q) =>
        match actions[|actions| - 1]
        case Pop =>
          PopKeepsInv(q);
          Some(PopStep(q))
        case Store(p) =>
          if Overrun(q) then None
          else
            StoreKeepsInv(q, p);
            Some(StoreStep(q, p))
  }

  /** Whatever the interleaving, without an overrun the packets come out in the order
      they went in, each once, and the others are exactly the occupied slots, in ring order. */
  lemma {:induction false} FirstInFirstOut<P>(n: nat, actions: seq<Action<P>>)
    requires n >= 1 && Run(n, actions).Some?
    ensures var q := Run(n, actions).value;
            && q.popped <= q.stored && |q.stored| - |q.popped| <= |q.slots| == n
            && (forall m :: |q.popped| <= m < |q.stored| ==> SlotHas(q, m, Some(q.stored[m])))
            && (forall s :: 0 <= s < n && q.slots[s] != None ==>
                  exists m :: |q.popped| <= m < |q.stored| && SlotOf(q, m) == s)
            && (Returned(q).Some? ==> q.popped != [] && Returned(q).value == q.popped[|q.popped| - 1])
  {
    var q := Run(n, actions).value;
    forall s | 0 <= s < n && q.slots[s] != None
      ensures exists m :: |q.popped| <= m < |q.stored| && SlotOf(q, m) == s
    {
      var m := NumberOfSlot(q, s);
      assert !SlotHas(q, m, None);
    }
  }

  /** The packet number, in the lap that starts at the next packet to pop, of a slot. */
  lemma NumberOfSlot<P>(q: Queue<P>, s: int) returns (m: nat)
    requires 0 <= s < |q.slots|
    ensures |q.popped| <= m < |q.popped| + |q.slots| && SlotOf(q, m) == s
  {
    var n, start := |q.slots|, SlotOf(q, |q.popped|);
    SlotInRange(q, |q.popped|);
    var d := Dist(n, start, s);
    WalkReaches(n, start, d);
    DistInjective(n, start, s, Walk(n, start, d));
    WalkOn(n, 0, |q.popped|, d);
    m := |q.popped| + d;
  }

  /** A pop that finds its slot empty is right: nothing is waiting. */
  lemma EmptyAnswer<P>(q: Queue<P>)
    requires Inv(q) && q.consumer.Asking?
    ensures 0 <= q.retrievePos < |q.slots|
    ensures q.slots[q.retrievePos] == None <==> q.popped == q.stored
  {
    var head := |q.popped|;
    SlotInRange(q, head);
    assert head < |q.stored| ==> SlotHas(q, head, Some(q.stored[head]));
    assert head == |q.stored| ==> SlotHas(q, head, None);
  }

  /** Every overrun loses a packet: one packet more is out than the ring has slots, and the slot of the oldest
      one holds the newest. */
  lemma OverrunLosesPacket<P>(q: Queue<P>, packet: P)
    requires Inv(q) && Overrun(q)
    ensures
      var r := StoreStep(q, packet);
      && |r.stored| - |r.popped| == |r.slots| + 1
      && SlotHas(q, |q.popped|, Some(q.stored[|q.popped|]))
      && SlotHas(r, |r.popped|, Some(r.stored[|r.stored| - 1]))
  {
    OverrunIff(q);
    WalkDistinct(|q.slots|, 0, |q.popped|, |q.stored|);
    SlotInRange(q, |q.popped|);
    assert SlotHas(q, |q.popped|, Some(q.stored[|q.popped|]));
  }

  // ---------- runs that go on after an overrun ----------

  /** What the code needs to go on, whether or not packets were overrun. */
  predicate Live<P(==)>(q: Queue<P>) {
    && 0 <= q.storePos <= |q.slots| && (q.producer.Writing? || q.producer.Bumping? ==> q.storePos < |q.slots|)
    && 0 <= q.retrievePos <= |q.slots| && (!q.consumer.Resetting? ==> q.retrievePos < |q.slots|)
    && (q.consumer.Reading? || q.consumer.Clearing? ==> q.slots[q.retrievePos].Some?)
    && |q.slots| >= 1
  }

  lemma InvLive<P>(q: Queue<P>)
    requires Inv(q)
    ensures Live(q)
  {
    SlotInRange(q, |q.stored|);
    SlotInRange(q, |q.popped|);
    if |q.stored| > 0 {
      SlotInRange(q, |q.stored| - 1);
    }
    if |q.popped| > 0 {
      SlotInRange(q, |q.popped| - 1);
    }
    assert |q.popped| < |q.stored| ==> SlotHas(q, |q.popped|, Some(q.stored[|q.popped|]));
  }

  function Next<P(==)>(q: Queue<P>, a: Action<P>): Queue<P>
    requires Live(q)
  {
    match a
    case Pop => PopStep(q)
    case Store(p) => StoreStep(q, p)
  }

  lemma NextLive<P>(q: Queue<P>, a: Action<P>)
    requires Live(q)
    ensures Live(Next(q, a))
  {
  }

  /** The queue after a run from q on, overruns included. */
  function Onward<P(==)>(q: Queue<P>, actions: seq<Action<P>>): (r: Queue<P>)
    requires Live(q)
    ensures Live(r)
    decreases |actions|
  {
    if actions == [] then q
    else
      var r := Onward(q, actions[..|actions| - 1]);
      NextLive(r, actions[|actions| - 1]);
      Next(r, actions[|actions| - 1])
  }

  /** The packets that wait in the ring. */
  function Waiting<P(==)>(slots: seq<Option<P>>): nat {
    if slots == [] then 0 else Waiting(slots[..|slots| - 1]) + if slots[|slots| - 1] == None then 0 else 1
  }

  lemma {:induction false} WaitingUpdate<P>(slots: seq<Option<P>>, i: nat, o: Option<P>)
    requires i < |slots|
    ensures Waiting(slots[i := o]) + (if slots[i] == None then 0 else 1) ==
            Waiting(slots) + (if o == None then 0 else 1)
  {
    var last := |slots| - 1;
    if i == last {
      assert slots[i := o][..last] == slots[..last];
    } else {
      WaitingUpdate(slots[..last], i, o);
      assert slots[i := o][..last] == slots[..last][i := o];
    }
  }

  /** The packets that were stored, were not popped and do not wait either. */
  function Missing<P(==)>(q: Queue<P>): int {
    |q.stored| - |q.popped| - Waiting(q.slots)
  }

  /** What a step does to that number: an overrun adds one, and nothing takes one away. */
  lemma NextMissing<P>(q: Queue<P>, a: Action<P>)
    requires Live(q)
    ensures Missing(Next(q, a)) == Missing(q) + if a.Store? && Overrun(q) then 1 else 0
  {
    hide Waiting;
    if a.Store? && q.producer.Writing? {
      WaitingUpdate(q.slots, q.storePos, Some(q.producer.ptr));
    } else if a.Pop? && q.consumer.Clearing? {
      WaitingUpdate(q.slots, q.retrievePos, None);
    }
  }

  /** How many writes of a run from q on were overruns. */
  function Overruns<P(==)>(q: Queue<P>, actions: seq<Action<P>>): nat
    requires Live(q)
    decreases |actions|
  {
    if actions == [] then 0
    else
      var before, a := actions[..|actions| - 1], actions[|actions| - 1];
      Overruns(q, before) + if a.Store? && Overrun(Onward(q, before)) then 1 else 0
  }

  /** Over every run: each overrun loses one packet, for good, and nothing else loses any. */
  lemma {:induction false} LostForGood<P>(n: nat, actions: seq<Action<P>>)
    requires n >= 1
    ensures Live(Init<P>(n))
    ensures
      var r := Onward(Init(n), actions);
      |r.stored| == |r.popped| + Waiting(r.slots) + Overruns(Init(n), actions)
    decreases |actions|
  {
    hide Inv, Live, Next;
    InitInv<P>(n);
    InvLive(Init<P>(n));
    if actions == [] {
      NoneWaiting<P>(n);
    } else {
      var before, a := actions[..|actions| - 1], actions[|actions| - 1];
      LostForGood(n, before);
      NextMissing(Onward(Init(n), before), a);
    }
  }

  lemma {:induction false} NoneWaiting<P>(n: nat)
    ensures Waiting(Init<P>(n).slots) == 0
  {
    if n > 0 {
      NoneWaiting<P>(n - 1);
      assert Init<P>(n).slots[..n - 1] == Init<P>(n - 1).slots;
    }
  }

  /** The packet an overrun dooms: the oldest one, which is overwritten, unless it was just read; then the new
      one, which is cleared in its place. */
  function Victim<P>(q: Queue<P>): P
    requires q.producer.Writing? && |q.popped| < |q.stored|
  {
    if q.consumer.Clearing? then q.producer.ptr else q.stored[|q.popped|]
  }

  /** Nobody will ever pop x: no thread holds it, and it is in no slot but one that is about to be cleared. */
  ghost predicate Doomed<P>(q: Queue<P>, x: P) {
    && x !in q.popped
    && (q.producer.Wrapping? || q.producer.Writing? ==> q.producer.ptr != x)
    && (q.consumer.Clearing? ==> q.consumer.tmp != x)
    && forall s :: 0 <= s < |q.slots| && q.slots[s] == Some(x) ==> q.consumer.Clearing? && s == q.retrievePos
  }

  lemma NextDoomed<P>(q: Queue<P>, x: P, a: Action<P>)
    requires Live(q) && Doomed(q, x) && a != Store(x)
    ensures Doomed(Next(q, a), x)
  {
  }

  lemma {:induction false} OnwardDoomed<P>(q: Queue<P>, x: P, actions: seq<Action<P>>)
    requires Live(q) && Doomed(q, x) && Store(x) !in actions
    ensures Doomed(Onward(q, actions), x)
    decreases |actions|
  {
    hide Doomed, Live, Next;
    if actions != [] {
      OnwardDoomed(q, x, actions[..|actions| - 1]);
      NextDoomed(Onward(q, actions[..|actions| - 1]), x, actions[|actions| - 1]);
    }
  }

  /** The packet that is doomed is in no other place than the one it is lost from. */
  ghost predicate Unique<P>(q: Queue<P>) {
    && q.producer.Writing? && q.producer.ptr !in q.stored
    && forall i, j :: 0 <= i < j < |q.stored| ==> q.stored[i] != q.stored[j]
  }

  lemma VictimDoomed<P>(q: Queue<P>, packet: P)
    requires Inv(q) && Overrun(q) && Unique(q)
    ensures |q.popped| < |q.stored| && Doomed(StoreStep(q, packet), Victim(q))
  {
    OverrunIff(q);
    var head, n, r := |q.popped|, |q.slots|, StoreStep(q, packet);
    WalkDistinct(n, 0, head, |q.stored|);
    assert forall k :: 0 <= k < head ==> q.popped[k] == q.stored[k];
    forall s | 0 <= s < n && s != q.storePos ensures r.slots[s] != Some(Victim(q)) {
      var m := NumberOfSlot(q, s);
      assert SlotHas(q, m, Some(q.stored[m]));
    }
  }

  /** Whatever happens after an overrun, its victim was stored and is never popped, unless the very same
      pointer is stored once more. */
  lemma {:induction false} VictimNeverPopped<P>(q: Queue<P>, packet: P, actions: seq<Action<P>>)
    requires Inv(q) && Overrun(q) && Unique(q)
    ensures |q.popped| < |q.stored| && Live(StoreStep(q, packet))
    ensures Victim(q) in StoreStep(q, packet).stored
    ensures Action.Store(Victim(q)) !in actions ==> Victim(q) !in Onward(StoreStep(q, packet), actions).popped
  {
    InvLive(q);
    NextLive(q, Action.Store(packet));
    VictimDoomed(q, packet);
    if Action.Store(Victim(q)) !in actions {
      OnwardDoomed(StoreStep(q, packet), Victim(q), actions);
    }
  }

  /** Overruns happen: a ring of one slot and two stores. */
  lemma OverrunHappens()
    ensures var q0 := Init<int>(1);
            Inv(q0) && (
            var q1 := StoreCall(q0, 7);
            var q2 := StoreStep(q1, 8);
            var q3 := StoreStep(q2, 8);
            Overrun(q3) && StoreStep(q3, 8).stored == [7, 8] && StoreStep(q3, 8).slots == [Some(8)])
  {
    InitInv<int>(1);
    var q0 := Init<int>(1);
    assert q0.slots == [None];
    var q1 := StoreCall(q0, 7);
    assert q1.slots == [Some(7)] && q1.storePos == 1;
  }

  // ---------- the code ----------

  /** The statements of queue_store and queue_pop_first in one thread. */
  class PacketRing<P(==)> {
    const queue: array<Option<P>>
    var storePos: int
    var retrievePos: int
    ghost var stored: seq<P>
    ghost var popped: seq<P>

    ghost function State(): Queue<P>
      reads this, queue
    {
      Queue(queue[..], storePos, retrievePos, Idle, Asking, stored, popped)
    }

    constructor (n: nat)
      requires n >= 1
      ensures State() == Init(n) && fresh(queue)
    {
      storePos, retrievePos, stored, popped := 0, 0, [], [];
      queue := new Option<P>[n](_ => None);
    }

    /** queue_store: the effect of its four statements; nothing is overwritten unless the ring is full. */
    method Store(ptr: P)
      requires Inv(State())
      modifies this`storePos, this`stored, queue
      ensures State() == StoreCall(old(State()), ptr)
      ensures stored == old(stored) + [ptr]
      ensures old(|stored| < |popped| + queue.Length) ==> Inv(State())
    {
      ghost var q0 := State();
      ghost var q1 := StoreStep(q0, ptr);
      StoreKeepsInv(q0, ptr);
      StoreKeepsInv(q1, ptr);
      ghost var q2 := StoreStep(q1, ptr);
      OverrunIff(q2);
      SlotInRange(q2, |stored|);
      if storePos == queue.Length {
        storePos := 0;
      }
      queue[storePos] := Some(ptr);
      stored := stored + [ptr];
      ghost var q3 := StoreStep(q2, ptr);
      assert queue[..] == q3.slots;
      if !Overrun(q2) {
        StoreKeepsInv(q2, ptr);
        StoreKeepsInv(q3, ptr);
      }
      storePos := storePos + 1;
    }

    /** queue_pop_first: the oldest waiting packet, or None when nothing waits. */
    method PopFirst() returns (packet: Option<P>)
      requires Inv(State())
      modifies this`retrievePos, this`popped, queue
      ensures Inv(State())
      ensures packet == if old(|popped| < |stored|) then Some(stored[old(|popped|)]) else None
      ensures popped == if packet.Some? then old(popped) + [packet.value] else old(popped)
    {
      ghost var q0 := State();
      EmptyAnswer(q0);
      PopKeepsInv(q0);
      hide ProducerAt, ConsumerAt, SlotHas, At, SlotOf;
      if queue[retrievePos] == None {
        return None;
      }
      ghost var q1 := PopStep(q0);
      PopKeepsInv(q1);
      ghost var q2 := PopStep(q1);
      PopKeepsInv(q2);
      ghost var q3 := PopStep(q2);
      PopKeepsInv(q3);
      ghost var q4 := PopStep(q3);
      PopKeepsInv(q4);
      packet := queue[retrievePos];
      queue[retrievePos] := None;
      popped := popped + [packet.value];
      retrievePos := retrievePos + 1;
      if retrievePos == queue.Length {
        retrievePos := 0;
      }
      assert State() == PopStep(q4);
    }
  }
}
