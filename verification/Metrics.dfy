/** statsd.c: timer updates by the queue thread against the flush thread, statement by
    statement; the timers are guarded by one semaphore. */
module Metrics {
  import opened JsonValue

  /** Who holds a semaphore. */
  datatype Lock = Free | Updating | Flushing

  /** A statsd_timer_t: the array and the count kept beside it. */
  datatype Timer = Timer(values: seq<real>, count: int)

  /** The queue thread inside update_timer. */
  datatype Updater =
    | Idle
    | Found(k: CString, v: real)       // the timer exists; about to wait for the lock
    | Missing(k: CString, v: real)     // a new timer is built; about to wait for the lock
    | Pushing(k: CString, v: real)     // holds the lock
    | Counting(k: CString)             // the value is in the array, not yet in the count
    | Adding(k: CString, v: real)      // holds the lock, new timer
    | Releasing

  /** The flush thread at one timer. */
  datatype Flusher =
    | Between
    | Waiting(k: CString)              // saw a positive count
    | Sorting(k: CString)              // holds the lock
    | Clearing(k: CString)             // the values are sorted and evaluated
    | Zeroing(k: CString)              // the array is cleared, the count is not
    | Leaving(k: CString)
    | Reporting(k: CString)            // the lock is free again; about to print the count

  /** The values of one timer that one round of the flush took out, in sorted order. */
  datatype Batch = Batch(key: CString, values: seq<real>)

  /** Shared state, program counters, and history: the values added under each key, the
      batches in the order they were taken, and the count printed for each batch. */
  datatype Timers = Timers(
    table: map<CString, Timer>, lock: Lock, updater: Updater, flusher: Flusher,
    added: map<CString, multiset<real>>, batches: seq<Batch>, printed: seq<int>)

  const NO_TIMERS := Timers(map[], Free, Idle, Between, map[], [], [])

  datatype Action = Update(k: CString, v: real) | UpdaterNext | Visit(k: CString) | FlusherNext(order: seq<real>)

  function Added(s: Timers, k: CString): multiset<real> {
    if k in s.added then s.added[k] else multiset{}
  }

  /** The values of a timer that no flush has taken out yet. */
  function Pending(s: Timers, k: CString): seq<real> {
    if k in s.table then s.table[k].values else []
  }

  ghost predicate SortedUp(s: seq<real>) {
    forall i, j :: 0 <= i < j < |s| ==> s[i] <= s[j]
  }

  /** All values of one key in a sequence of batches. */
  function Flushed(bs: seq<Batch>, k: CString): multiset<real> {
    if bs == [] then multiset{}
    else
      var b := bs[|bs| - 1];
      Flushed(bs[..|bs| - 1], k) + (if b.key == k then multiset(b.values) else multiset{})
  }

  function Noted(s: Timers, k: CString, v: real): map<CString, multiset<real>> {
    s.added[k := Added(s, k) + multiset{v}]
  }

  /** The next statement of update_timer; None while it has to wait. */
  function UpdaterStep(s: Timers): Option<Timers> {
    match s.updater
    case Idle => None
    case Found(k, v) => if s.lock == Free then Some(s.(lock := Updating, updater := Pushing(k, v))) else None
    case Missing(k, v) => if s.lock == Free then Some(s.(lock := Updating, updater := Adding(k, v))) else None
    case Pushing(k, v) =>
      if k in s.table then
        Some(s.(table := s.table[k := s.table[k].(values := s.table[k].values + [v])], added := Noted(s, k, v),
                updater := Counting(k)))
      else None
    case Counting(k) =>
      if k in s.table then
        Some(s.(table := s.table[k := s.table[k].(count := s.table[k].count + 1)], updater := Releasing))
      else None
    case Adding(k, v) =>
      Some(s.(table := s.table[k := Timer([v], 1)], added := Noted(s, k, v), updater := Releasing))
    case Releasing => Some(s.(lock := Free, updater := Idle))
  }

  /** The next statement of the flush loop; `order` is the result of the sort when it sorts. */
  ghost function FlusherStep(s: Timers, order: seq<real>): Option<Timers> {
    if s.flusher.Between? || s.flusher.k !in s.table then None
    else
      var t := s.table[s.flusher.k];
      match s.flusher
      case Waiting(k) => if s.lock == Free then Some(s.(lock := Flushing, flusher := Sorting(k))) else None
      case Sorting(k) =>
        if SortedUp(order) && multiset(order) == multiset(t.values) then
          Some(s.(table := s.table[k := t.(values := order)], flusher := Clearing(k)))
        else None
      case Clearing(k) =>
        Some(s.(table := s.table[k := t.(values := [])], batches := s.batches + [Batch(k, t.values)],
                flusher := Zeroing(k)))
      case Zeroing(k) => Some(s.(table := s.table[k := t.(count := 0)], flusher := Leaving(k)))
      case Leaving(k) => Some(s.(lock := Free, flusher := Reporting(k)))
      case Reporting(k) => Some(s.(printed := s.printed + [t.count], flusher := Between))
  }

  /** One step of the pair of threads; None when the action is not possible now. */
  ghost function Step(s: Timers, a: Action): Option<Timers> {
    match a
    case Update(k, v) =>
      if s.updater.Idle? then Some(s.(updater := if k in s.table then Found(k, v) else Missing(k, v))) else None
    case UpdaterNext => UpdaterStep(s)
    case Visit(k) =>
      if s.flusher.Between? && k in s.table then
        Some(if s.table[k].count > 0 then s.(flusher := Waiting(k)) else s)
      else None
    case FlusherNext(order) => FlusherStep(s, order)
  }

  // ---------- what every step keeps ----------

  predicate UpdaterInside(u: Updater) { u.Pushing? || u.Counting? || u.Adding? || u.Releasing? }

  predicate FlusherInside(f: Flusher) { f.Sorting? || f.Clearing? || f.Zeroing? || f.Leaving? }

  /** The two threads exclude each other, and each is where its key allows it to be. */
  ghost predicate Control(s: Timers) {
    && (UpdaterInside(s.updater) <==> s.lock == Updating)
    && (FlusherInside(s.flusher) <==> s.lock == Flushing)
    && (s.updater.Found? || s.updater.Pushing? || s.updater.Counting? ==> s.updater.k in s.table)
    && (s.updater.Missing? || s.updater.Adding? ==> s.updater.k !in s.table)
    && (!s.flusher.Between? ==> s.flusher.k in s.table)
    && (s.flusher.Waiting? || s.flusher.Sorting? || s.flusher.Clearing? ==> Pending(s, s.flusher.k) != [])
    && (s.flusher.Clearing? ==> SortedUp(Pending(s, s.flusher.k)))
    && |s.batches| == |s.printed| + (if s.flusher.Zeroing? || s.flusher.Leaving? || s.flusher.Reporting? then 1 else 0)
  }

  /** The count of a timer follows its array, but for the statement in between. */
  predicate CountFollows(s: Timers, k: CString) {
    k in s.table ==>
      if s.updater == Counting(k) then s.table[k].count + 1 == |s.table[k].values|
      else if s.flusher == Zeroing(k) then s.table[k].values == []
      else s.table[k].count == |s.table[k].values|
  }

  /** Each value added is in one batch or pending, and in one of the two only. */
  predicate Conserved(s: Timers, k: CString) {
    Added(s, k) == Flushed(s.batches, k) + multiset(Pending(s, k))
  }

  ghost predicate Inv(s: Timers) {
    && Control(s)
    && (forall k :: CountFollows(s, k))
    && (forall k :: Conserved(s, k))
    && (forall i :: 0 <= i < |s.batches| ==> SortedUp(s.batches[i].values) && s.batches[i].values != [])
  }

  lemma UpdaterKeepsControl(s: Timers)
    requires Control(s) && UpdaterStep(s).Some?
    ensures Control(UpdaterStep(s).value)
  {
    hide SortedUp;
  }

  lemma UpdaterKeepsCount(s: Timers, k: CString)
    requires Control(s) && CountFollows(s, k) && UpdaterStep(s).Some?
    ensures CountFollows(UpdaterStep(s).value, k)
  {
    hide SortedUp, Flushed, Added, Noted;
  }

  lemma UpdaterKeepsBalance(s: Timers, k: CString)
    requires Control(s) && Conserved(s, k) && UpdaterStep(s).Some?
    ensures Conserved(UpdaterStep(s).value, k)
  {
    hide SortedUp, Flushed;
    var r := UpdaterStep(s).value;
    assert r.batches == s.batches;
    if s.updater.Pushing? {
      PushKeepsBalance(s, r, k);
    } else if s.updater.Adding? {
      AddKeepsBalance(s, r, k);
    }
  }

  lemma PushKeepsBalance(s: Timers, r: Timers, k: CString)
    requires s.updater.Pushing? && Conserved(s, k) && UpdaterStep(s) == Some(r)
    ensures Conserved(r, k)
  {
    hide Flushed;
    var v := s.updater.v;
    if k == s.updater.k {
      assert Pending(r, k) == Pending(s, k) + [v];
      assert multiset(Pending(s, k) + [v]) == multiset(Pending(s, k)) + multiset{v};
    }
  }

  lemma AddKeepsBalance(s: Timers, r: Timers, k: CString)
    requires Control(s) && s.updater.Adding? && Conserved(s, k) && UpdaterStep(s) == Some(r)
    ensures Conserved(r, k)
  {
    hide Flushed;
    var v := s.updater.v;
    if k == s.updater.k {
      assert Pending(r, k) == [v] && Pending(s, k) == [];
      assert multiset([v]) == multiset{v};
    }
  }

  lemma FlusherKeepsControl(s: Timers, order: seq<real>)
    requires Control(s) && FlusherStep(s, order).Some?
    ensures Control(FlusherStep(s, order).value)
  {
    hide SortedUp;
    if s.flusher.Sorting? {
      assert |multiset(order)| == |order|;
    }
  }

  lemma FlusherKeepsCount(s: Timers, order: seq<real>, k: CString)
    requires Control(s) && CountFollows(s, k) && FlusherStep(s, order).Some?
    ensures CountFollows(FlusherStep(s, order).value, k)
  {
    hide SortedUp, Flushed;
    if s.flusher.Sorting? {
      assert |multiset(order)| == |order|;
    }
  }

  lemma FlusherKeepsPending(s: Timers, order: seq<real>, k: CString)
    requires FlusherStep(s, order).Some? && !s.flusher.Clearing?
    ensures multiset(Pending(FlusherStep(s, order).value, k)) == multiset(Pending(s, k))
  {
    hide SortedUp;
  }

  lemma {:induction false} FlushedAppend(bs: seq<Batch>, b: Batch, k: CString)
    ensures Flushed(bs + [b], k) == Flushed(bs, k) + (if b.key == k then multiset(b.values) else multiset{})
  {
    assert (bs + [b])[..|bs|] == bs;
  }

  lemma FlusherKeepsBalance(s: Timers, order: seq<real>, k: CString)
    requires Conserved(s, k) && FlusherStep(s, order).Some?
    ensures Conserved(FlusherStep(s, order).value, k)
  {
    hide SortedUp, Flushed;
    var r := FlusherStep(s, order).value;
    assert r.added == s.added;
    if s.flusher.Clearing? {
      FlushedAppend(s.batches, Batch(s.flusher.k, Pending(s, s.flusher.k)), k);
      assert Pending(r, k) == if k == s.flusher.k then [] else Pending(s, k);
    } else {
      FlusherKeepsPending(s, order, k);
      assert r.batches == s.batches;
    }
  }

  /** Every step of either thread keeps the invariant. */
  lemma StepKeepsInv(s: Timers, a: Action)
    requires Inv(s) && Step(s, a).Some?
    ensures Inv(Step(s, a).value)
  {
    hide SortedUp, Control, CountFollows, Conserved, UpdaterStep, FlusherStep;
    match a
    case UpdaterNext => UpdaterNextKeeps(s);
    case FlusherNext(order) => FlusherNextKeeps(s, order);
    case _ => StartKeeps(s, a);
  }

  lemma UpdaterNextKeeps(s: Timers)
    requires Inv(s) && UpdaterStep(s).Some?
    ensures Inv(UpdaterStep(s).value)
  {
    hide SortedUp, Control, CountFollows, Conserved;
    UpdaterKeepsControl(s);
    forall k ensures CountFollows(UpdaterStep(s).value, k) && Conserved(UpdaterStep(s).value, k) {
      UpdaterKeepsCount(s, k);
      UpdaterKeepsBalance(s, k);
    }
  }

  lemma FlusherNextKeeps(s: Timers, order: seq<real>)
    requires Inv(s) && FlusherStep(s, order).Some?
    ensures Inv(FlusherStep(s, order).value)
  {
    hide SortedUp, CountFollows, Conserved, Flushed;
    FlusherKeepsControl(s, order);
    forall k ensures CountFollows(FlusherStep(s, order).value, k) && Conserved(FlusherStep(s, order).value, k) {
      FlusherKeepsCount(s, order, k);
      FlusherKeepsBalance(s, order, k);
    }
  }

  lemma StartKeepsControl(s: Timers, a: Action)
    requires Inv(s) && (a.Update? || a.Visit?) && Step(s, a).Some?
    ensures Control(Step(s, a).value)
  {
    hide SortedUp, Flushed, Conserved, Added;
    assert a.Visit? ==> CountFollows(s, a.k);
  }

  lemma StartKeeps(s: Timers, a: Action)
    requires Inv(s) && (a.Update? || a.Visit?) && Step(s, a).Some?
    ensures Inv(Step(s, a).value)
  {
    hide SortedUp, Flushed, Control;
    StartKeepsControl(s, a);
    var r := Step(s, a).value;
    forall k ensures CountFollows(r, k) && Conserved(r, k) {
      assert CountFollows(s, k) && Conserved(s, k);
    }
  }

  // ---------- runs ----------

  /** A run of the two threads under any schedule; None if the schedule is impossible. */
  ghost function Run(start: Timers, actions: seq<Action>): Option<Timers>
    decreases |actions|
  {
    if actions == [] then Some(start)
    else
      match Run(start, actions[..|actions| - 1])
      case None => None
      case Some(s) => Step(s, actions[|actions| - 1])
  }

  lemma {:induction false} RunKeepsInv(start: Timers, actions: seq<Action>)
    requires Inv(start) && Run(start, actions).Some?
    ensures Inv(Run(start, actions).value)
    decreases |actions|
  {
    if actions != [] {
      RunKeepsInv(start, actions[..|actions| - 1]);
      StepKeepsInv(Run(start, actions[..|actions| - 1]).value, actions[|actions| - 1]);
    }
  }

  /** Before the threads start: a table that may have been restored, its values counted as added. */
  function Loaded(table: map<CString, Timer>): Timers {
    Timers(table, Free, Idle, Between, map k | k in table :: multiset(table[k].values), [], [])
  }

  /** The daemon may start from any table whose counts are array lengths, which is what restoring gives. */
  lemma LoadedInv(table: map<CString, Timer>)
    requires forall k :: k in table ==> table[k].count == |table[k].values|
    ensures Inv(Loaded(table))
  {
    hide SortedUp;
  }

  /** After any run, from any state that keeps the invariant: each value added under a key is in exactly one
      batch of that key or still pending; every batch is sorted and not empty; and whenever the lock is free,
      counts equal array lengths. */
  lemma {:induction false} EachValueOnce(start: Timers, actions: seq<Action>, k: CString)
    requires Inv(start) && Run(start, actions).Some?
    ensures
      var s := Run(start, actions).value;
      && Added(s, k) == Flushed(s.batches, k) + multiset(Pending(s, k))
      && (s.lock == Free && k in s.table ==> s.table[k].count == |s.table[k].values|)
      && (forall i :: 0 <= i < |s.batches| ==> SortedUp(s.batches[i].values) && s.batches[i].values != [])
  {
    RunKeepsInv(start, actions);
    var s := Run(start, actions).value;
    assert CountFollows(s, k) && Conserved(s, k);
  }

  // ---------- what the updates sent ----------

  /** The value, if it is one of k. */
  function Under(key: CString, v: real, k: CString): multiset<real> {
    if key == k then multiset{v} else multiset{}
  }

  /** The values the updates of a run sent under k, from its actions. */
  function Sent(actions: seq<Action>, k: CString): multiset<real> {
    if actions == [] then multiset{}
    else
      var a := actions[|actions| - 1];
      Sent(actions[..|actions| - 1], k) + if a.Update? then Under(a.k, a.v, k) else multiset{}
  }

  /** The value an update on its way will still add under k. */
  function OnItsWay(s: Timers, k: CString): multiset<real> {
    match s.updater
    case Found(key, v) => Under(key, v, k)
    case Missing(key, v) => Under(key, v, k)
    case Pushing(key, v) => Under(key, v, k)
    case Adding(key, v) => Under(key, v, k)
    case _ => multiset{}
  }

  lemma StepSends(s: Timers, a: Action, k: CString)
    requires Step(s, a).Some?
    ensures
      var r := Step(s, a).value;
      Added(r, k) + OnItsWay(r, k) ==
      Added(s, k) + OnItsWay(s, k) + if a.Update? then Under(a.k, a.v, k) else multiset{}
  {
    hide UpdaterStep, FlusherStep, Under;
    match a
    case UpdaterNext => UpdaterSends(s, k);
    case FlusherNext(order) => FlusherSends(s, order);
    case _ =>
  }

  lemma NotedAdds(s: Timers, r: Timers, key: CString, v: real, k: CString)
    requires r.added == Noted(s, key, v)
    ensures Added(r, k) == Added(s, k) + Under(key, v, k)
  {
  }

  lemma UpdaterSends(s: Timers, k: CString)
    requires UpdaterStep(s).Some?
    ensures
      var r := UpdaterStep(s).value;
      Added(r, k) + OnItsWay(r, k) == Added(s, k) + OnItsWay(s, k)
  {
    hide Under, Noted;
    var r := UpdaterStep(s).value;
    match s.updater
    case Pushing(key, v) =>
      assert r.added == Noted(s, key, v);
      NotedAdds(s, r, key, v, k);
    case Adding(key, v) =>
      assert r.added == Noted(s, key, v);
      NotedAdds(s, r, key, v, k);
    case _ =>
  }

  lemma FlusherSends(s: Timers, order: seq<real>)
    requires FlusherStep(s, order).Some?
    ensures FlusherStep(s, order).value.added == s.added && FlusherStep(s, order).value.updater == s.updater
  {
    hide SortedUp;
  }

  /** Over every run, for found and missing timers alike: the values added under a key are the values sent, but
      for one that is still on its way. */
  lemma {:induction false} AddedAsSent(start: Timers, actions: seq<Action>, k: CString)
    requires Run(start, actions).Some?
    ensures
      var s := Run(start, actions).value;
      Added(s, k) + OnItsWay(s, k) == Added(start, k) + OnItsWay(start, k) + Sent(actions, k)
    decreases |actions|
  {
    hide Step, OnItsWay, Added, Under;
    if actions != [] {
      var before := actions[..|actions| - 1];
      AddedAsSent(start, before, k);
      StepSends(Run(start, before).value, actions[|actions| - 1], k);
    }
  }

  /** So each value that was loaded or sent is in one batch of its key, pending, or on its way. */
  lemma {:induction false} EveryValueKept(table: map<CString, Timer>, actions: seq<Action>, k: CString)
    requires forall key :: key in table ==> table[key].count == |table[key].values|
    requires Run(Loaded(table), actions).Some?
    ensures
      var s := Run(Loaded(table), actions).value;
      multiset(if k in table then table[k].values else []) + Sent(actions, k) ==
      Flushed(s.batches, k) + multiset(Pending(s, k)) + OnItsWay(s, k)
  {
    LoadedInv(table);
    AddedAsSent(Loaded(table), actions, k);
    EachValueOnce(Loaded(table), actions, k);
    assert Added(Loaded(table), k) == multiset(if k in table then table[k].values else []);
  }

  /** Whenever an update or the flush is under way, one of the two can go on. */
  lemma NeverStuck(s: Timers)
    requires Inv(s) && !(s.updater.Idle? && s.flusher.Between?)
    ensures Step(s, UpdaterNext).Some? || exists order :: Step(s, FlusherNext(order)).Some?
    ensures s.lock == Free && !s.updater.Idle? ==> Step(s, UpdaterNext).Some?
    ensures s.lock == Free && !s.flusher.Between? ==> exists order :: Step(s, FlusherNext(order)).Some?
  {
    hide SortedUp, Flushed;
    var order: seq<real> := [];
    if s.flusher.Sorting? {
      order := SortedExists(Pending(s, s.flusher.k));
    }
    assert s.flusher.Between? || s.lock == Updating || Step(s, FlusherNext(order)).Some?;
    assert s.updater.Idle? || s.lock == Flushing || Step(s, UpdaterNext).Some?;
  }

  /** The sort has a result. */
  lemma {:induction false} SortedExists(s: seq<real>) returns (r: seq<real>)
    ensures SortedUp(r) && multiset(r) == multiset(s)
  {
    hide SortedUp;
    r := [];
    if s == [] {
      SortedNone();
    } else {
      var last := |s| - 1;
      assert s == s[..last] + [s[last]];
      r := SortedExists(s[..last]);
      r := Inserted(r, s[last]);
    }
  }

  lemma SortedNone()
    ensures SortedUp([])
  {
  }

  lemma {:induction false} Inserted(s: seq<real>, x: real) returns (r: seq<real>)
    requires SortedUp(s)
    ensures SortedUp(r) && multiset(r) == multiset(s) + multiset{x}
  {
    r := [x];
    if s != [] {
      var last := |s| - 1;
      assert s == s[..last] + [s[last]];
      if s[last] <= x {
        r := s + [x];
      } else {
        r := Inserted(s[..last], x);
        SortedLonger(r, s[..last], x, s[last]);
        r := r + [s[last]];
      }
    }
  }

  lemma SortedLonger(r: seq<real>, s: seq<real>, x: real, y: real)
    requires SortedUp(r) && multiset(r) == multiset(s) + multiset{x} && x <= y
    requires forall i :: 0 <= i < |s| ==> s[i] <= y
    ensures SortedUp(r + [y])
  {
    forall i | 0 <= i < |r| ensures r[i] <= y {
      assert r[i] in multiset(r);
      assert r[i] in multiset(s) || r[i] == x;
    }
  }

  /** The count is printed after the lock was given back and the count cleared, so what is printed for a
      batch is the number of values that came in since, less one that is in the array but not yet in the
      count; and it is the size of the batch only by accident. */
  lemma PrintedCount(s: Timers)
    requires Inv(s) && s.flusher.Reporting?
    ensures Step(s, FlusherNext([])).Some?
    ensures
      var r := Step(s, FlusherNext([])).value;
      var i, k := |s.printed|, s.flusher.k;
      && |r.printed| == |r.batches| == i + 1
      && r.printed[i] == |Pending(s, k)| - (if s.updater == Counting(k) then 1 else 0)
  {
    hide SortedUp, Flushed;
    assert CountFollows(s, s.flusher.k);
  }

  lemma {:induction false} RunNext(start: Timers, before: seq<Action>, a: Action, s: Timers)
    requires Run(start, before) == Some(s)
    ensures Run(start, before + [a]) == Step(s, a)
  {
    assert (before + [a])[..|before|] == before;
  }

  /** One value comes in. */
  lemma OneUpdate(k: CString, v: real)
    ensures Run(NO_TIMERS, [Update(k, v), UpdaterNext, UpdaterNext, UpdaterNext])
         == Some(NO_TIMERS.(table := map[k := Timer([v], 1)], added := map[k := multiset{v}]))
  {
    var s1 := NO_TIMERS.(updater := Missing(k, v));
    var s2 := s1.(lock := Updating, updater := Adding(k, v));
    var s3 := s2.(table := s2.table[k := Timer([v], 1)], added := Noted(s2, k, v), updater := Releasing);
    assert multiset{} + multiset{v} == multiset{v};
    assert s3.table == map[k := Timer([v], 1)] && s3.added == map[k := multiset{v}];
    RunNext(NO_TIMERS, [], Update(k, v), NO_TIMERS);
    assert [] + [Update(k, v)] == [Update(k, v)];
    RunNext(NO_TIMERS, [Update(k, v)], UpdaterNext, s1);
    RunNext(NO_TIMERS, [Update(k, v)] + [UpdaterNext], UpdaterNext, s2);
    RunNext(NO_TIMERS, [Update(k, v)] + [UpdaterNext] + [UpdaterNext], UpdaterNext, s3);
    assert [Update(k, v)] + [UpdaterNext] + [UpdaterNext] + [UpdaterNext]
        == [Update(k, v), UpdaterNext, UpdaterNext, UpdaterNext];
  }

  /** A flush of a timer that holds one value, with nothing in between: the batch is the value, and the
      count printed for it is zero. */
  lemma {:induction false} PrintedZero(start: Timers, before: seq<Action>, k: CString, v: real)
    requires Run(start, before) == Some(NO_TIMERS.(table := map[k := Timer([v], 1)], added := map[k := multiset{v}]))
    ensures
      var run := before + [Visit(k)] + [FlusherNext([])] + [FlusherNext([v])] + [FlusherNext([])] + [FlusherNext([])]
                        + [FlusherNext([])] + [FlusherNext([])];
      && Run(start, run).Some?
      && Run(start, run).value.batches == [Batch(k, [v])]
      && Run(start, run).value.printed == [0]
  {
    hide Run;
    var s4 := Run(start, before).value;
    var s5 := s4.(flusher := Waiting(k));
    var s6 := s5.(lock := Flushing, flusher := Sorting(k));
    var s7 := s6.(flusher := Clearing(k));
    var s8 := s7.(table := s7.table[k := Timer([], 1)], batches := s7.batches + [Batch(k, [v])], flusher := Zeroing(k));
    var s9 := s8.(table := s8.table[k := Timer([], 0)], flusher := Leaving(k));
    var s10 := s9.(lock := Free, flusher := Reporting(k));
    assert s6.table[k := Timer([v], 1)] == s6.table;
    var r5 := before + [Visit(k)];
    RunNext(start, before, Visit(k), s4);
    var r6 := r5 + [FlusherNext([])];
    RunNext(start, r5, FlusherNext([]), s5);
    var r7 := r6 + [FlusherNext([v])];
    RunNext(start, r6, FlusherNext([v]), s6);
    var r8 := r7 + [FlusherNext([])];
    RunNext(start, r7, FlusherNext([]), s7);
    var r9 := r8 + [FlusherNext([])];
    RunNext(start, r8, FlusherNext([]), s8);
    var r10 := r9 + [FlusherNext([])];
    RunNext(start, r9, FlusherNext([]), s9);
    RunNext(start, r10, FlusherNext([]), s10);
  }
}
