/** statsd.c: counter updates by the queue thread against the flush thread, statement by statement.
    The flush thread reads a counter for its report without the lock and clears it under the lock. */
module Counters {
  import opened JsonValue
  import opened Metrics

  /** The queue thread inside update_counter, with what it is about to add. */
  datatype Counting =
    | Resting
    | Old(k: CString, d: real)              // the counter exists; about to wait for the lock
    | New(k: CString, d: real)              // a new counter is built; about to wait for the lock
    | Loading(k: CString, d: real)          // holds the lock
    | Storing(k: CString, d: real, x: real) // read x, about to write x + d
    | Inserting(k: CString, d: real)        // holds the lock, new counter
    | Unlocking

  /** The flush thread at one counter: `seen` is the value it put in the report. */
  datatype Reporter =
    | Outside
    | Rated(k: CString)                              // the rate is computed, the count not yet read
    | Reported(k: CString, seen: real, late: real)   // `late` has come in since (history)
    | Resetting(k: CString, seen: real, late: real)  // holds the lock
    | Giving

  /** Shared state, program counters, and the ledgers kept as history. */
  datatype Books = Books(
    values: map<CString, real>, lock: Lock, counting: Counting, reporter: Reporter,
    added: map<CString, real>, reported: map<CString, real>, lost: map<CString, real>)

  const NO_COUNTERS := Books(map[], Free, Resting, Outside, map[], map[], map[])

  function Amount(m: map<CString, real>, k: CString): real {
    if k in m then m[k] else 0.0
  }

  function Credit(m: map<CString, real>, k: CString, d: real): map<CString, real> {
    m[k := Amount(m, k) + d]
  }

  /** What one update adds; a sample rate of zero stands for none given. */
  function Scaled(value: real, rate: real): real {
    if rate == 0.0 then value else value * (1.0 / rate)
  }

  datatype Action = Update(k: CString, value: real, rate: real) | CountingNext | Visit(k: CString) | ReporterNext

  /** The flush thread has printed the value of k and has yet to clear it. */
  predicate InWindow(r: Reporter, k: CString) {
    (r.Reported? || r.Resetting?) && r.k == k
  }

  /** What has come in under k is late if the report of k has been made and k is not cleared yet. */
  function Landed(r: Reporter, k: CString, d: real): Reporter {
    if InWindow(r, k) then r.(late := r.late + d) else r
  }

  /** The next statement of update_counter; None while it has to wait. */
  function CountingStep(s: Books): Option<Books> {
    match s.counting
    case Resting => None
    case Old(k, d) => if s.lock == Free then Some(s.(lock := Updating, counting := Loading(k, d))) else None
    case New(k, d) => if s.lock == Free then Some(s.(lock := Updating, counting := Inserting(k, d))) else None
    case Loading(k, d) => Some(s.(counting := Storing(k, d, Amount(s.values, k))))
    case Storing(k, d, x) =>
      Some(s.(values := s.values[k := x + d], added := Credit(s.added, k, d), reporter := Landed(s.reporter, k, d),
              counting := Unlocking))
    case Inserting(k, d) =>
      Some(s.(values := s.values[k := d], added := Credit(s.added, k, d), counting := Unlocking))
    case Unlocking => Some(s.(lock := Free, counting := Resting))
  }

  /** The next statement of the flush loop over the counters. */
  function ReporterStep(s: Books): Option<Books> {
    match s.reporter
    case Outside => None
    case Rated(k) =>
      var x := Amount(s.values, k);
      Some(s.(reported := Credit(s.reported, k, x), reporter := Reported(k, x, 0.0)))
    case Reported(k, x, late) =>
      if s.lock == Free then Some(s.(lock := Flushing, reporter := Resetting(k, x, late))) else None
    case Resetting(k, x, late) =>
      Some(s.(values := s.values[k := 0.0], lost := Credit(s.lost, k, late), reporter := Giving))
    case Giving => Some(s.(lock := Free, reporter := Outside))
  }

  /** One step of the pair of threads; None when the action is not possible now. */
  function Step(s: Books, a: Action): Option<Books> {
    match a
    case Update(k, value, rate) =>
      var d := Scaled(value, rate);
      if s.counting.Resting? then Some(s.(counting := if k in s.values then Old(k, d) else New(k, d))) else None
    case CountingNext => CountingStep(s)
    case Visit(k) => if s.reporter.Outside? && k in s.values then Some(s.(reporter := Rated(k))) else None
    case ReporterNext => ReporterStep(s)
  }

  // ---------- what every step keeps ----------

  predicate CountingInside(c: Counting) { c.Loading? || c.Storing? || c.Inserting? || c.Unlocking? }

  predicate ReporterInside(r: Reporter) { r.Resetting? || r.Giving? }

  ghost predicate Control(s: Books) {
    && (CountingInside(s.counting) <==> s.lock == Updating)
    && (ReporterInside(s.reporter) <==> s.lock == Flushing)
    && (s.counting.Old? || s.counting.Loading? || s.counting.Storing? ==> s.counting.k in s.values)
    && (s.counting.New? || s.counting.Inserting? ==> s.counting.k !in s.values)
    && (s.counting.Storing? ==> s.counting.x == Amount(s.values, s.counting.k))
    && (s.reporter.Rated? || s.reporter.Reported? || s.reporter.Resetting? ==> s.reporter.k in s.values)
  }

  /** What is in the counter and in no report yet. */
  function Pending(s: Books, k: CString): real {
    if InWindow(s.reporter, k) then 0.0 else Amount(s.values, k)
  }

  /** What has come in under k since its report was made, while k is not cleared. */
  function Late(s: Books, k: CString): real {
    if InWindow(s.reporter, k) then s.reporter.late else 0.0
  }

  predicate Balanced(s: Books, k: CString) {
    && Amount(s.added, k) == Amount(s.reported, k) + Pending(s, k) + Late(s, k) + Amount(s.lost, k)
    && (InWindow(s.reporter, k) ==> Amount(s.values, k) == s.reporter.seen + s.reporter.late)
  }

  ghost predicate Inv(s: Books) {
    Control(s) && forall k :: Balanced(s, k)
  }

  lemma StepKeepsControl(s: Books, a: Action)
    requires Control(s) && Step(s, a).Some?
    ensures Control(Step(s, a).value)
  {
    hide Scaled;
  }

  lemma StepKeepsBalance(s: Books, a: Action, k: CString)
    requires Control(s) && Balanced(s, k) && Step(s, a).Some?
    ensures Balanced(Step(s, a).value, k)
  {
    hide Scaled;
    if a.CountingNext? {
      CountingKeepsBalance(s, k);
    } else if a.ReporterNext? {
      ReporterKeepsBalance(s, k);
    }
  }

  lemma CountingKeepsBalance(s: Books, k: CString)
    requires Control(s) && Balanced(s, k) && CountingStep(s).Some?
    ensures Balanced(CountingStep(s).value, k)
  {
    var r := CountingStep(s).value;
    if s.counting.Storing? {
      var d := s.counting.d;
      assert Amount(r.added, k) == Amount(s.added, k) + (if k == s.counting.k then d else 0.0);
      assert Amount(r.values, k) == Amount(s.values, k) + (if k == s.counting.k then d else 0.0);
    } else if s.counting.Inserting? {
      var d := s.counting.d;
      assert Amount(r.added, k) == Amount(s.added, k) + (if k == s.counting.k then d else 0.0);
      assert Amount(r.values, k) == Amount(s.values, k) + (if k == s.counting.k then d else 0.0);
    }
  }

  lemma ReporterKeepsBalance(s: Books, k: CString)
    requires Control(s) && Balanced(s, k) && ReporterStep(s).Some?
    ensures Balanced(ReporterStep(s).value, k)
  {
  }

  /** Every step of either thread keeps the invariant. */
  lemma StepKeepsInv(s: Books, a: Action)
    requires Inv(s) && Step(s, a).Some?
    ensures Inv(Step(s, a).value)
  {
    hide Control, Balanced, Step;
    StepKeepsControl(s, a);
    forall k ensures Balanced(Step(s, a).value, k) {
      StepKeepsBalance(s, a, k);
    }
  }

  // ---------- runs ----------

  /** A run of the two threads under any schedule; None if the schedule is impossible. */
  function Run(start: Books, actions: seq<Action>): Option<Books>
    decreases |actions|
  {
    if actions == [] then Some(start)
    else
      match Run(start, actions[..|actions| - 1])
      case None => None
      case Some(s) => Step(s, actions[|actions| - 1])
  }

  lemma {:induction false} RunKeepsInv(start: Books, actions: seq<Action>)
    requires Inv(start) && Run(start, actions).Some?
    ensures Inv(Run(start, actions).value)
    decreases |actions|
  {
    if actions != [] {
      RunKeepsInv(start, actions[..|actions| - 1]);
      StepKeepsInv(Run(start, actions[..|actions| - 1]).value, actions[|actions| - 1]);
    }
  }

  /** Before the threads start: counters that may have been restored, counted as added. */
  function Loaded(values: map<CString, real>): Books {
    NO_COUNTERS.(values := values, added := values)
  }

  lemma LoadedInv(values: map<CString, real>)
    ensures Inv(Loaded(values))
  {
  }

  /** After any run, from any state that keeps the invariant: what was added under a key is what was reported,
      what is pending, and exactly what landed between a report of the key and its reset. */
  lemma {:induction false} Reconciled(start: Books, actions: seq<Action>, k: CString)
    requires Inv(start) && Run(start, actions).Some?
    ensures
      var s := Run(start, actions).value;
      Amount(s.added, k) == Amount(s.reported, k) + Pending(s, k) + Late(s, k) + Amount(s.lost, k)
  {
    RunKeepsInv(start, actions);
    assert Balanced(Run(start, actions).value, k);
  }

  // ---------- what the updates asked for ----------

  /** The amount an update means: the value, or the value for each of the samples that one stands for. */
  function Meant(value: real, rate: real): (x: real)
    ensures if rate == 0.0 then x == value else x * rate == value
  {
    if rate == 0.0 then value
    else
      QuotientTimes(value, rate);
      value / rate
  }

  lemma QuotientTimes(value: real, rate: real)
    requires rate != 0.0
    ensures value / rate * rate == value
  {
  }

  /** What the updates of a run mean for k, from its actions. */
  function Asked(actions: seq<Action>, k: CString): real {
    if actions == [] then 0.0
    else
      var a := actions[|actions| - 1];
      Asked(actions[..|actions| - 1], k) + if a.Update? && a.k == k then Meant(a.value, a.rate) else 0.0
  }

  /** What an update on its way will still add under k. */
  function OnItsWay(s: Books, k: CString): real {
    match s.counting
    case Resting | Unlocking => 0.0
    case _ => if s.counting.k == k then s.counting.d else 0.0
  }

  lemma ScaledIsMeant(value: real, rate: real)
    ensures Scaled(value, rate) == Meant(value, rate)
  {
    if rate != 0.0 {
      SameProduct(Scaled(value, rate), Meant(value, rate), rate);
    }
  }

  lemma SameProduct(x: real, y: real, rate: real)
    requires rate != 0.0 && x * rate == y * rate
    ensures x == y
  {
    assert (x - y) * rate == 0.0;
  }

  lemma CountingAsks(s: Books, k: CString)
    requires CountingStep(s).Some?
    ensures
      var r := CountingStep(s).value;
      Amount(r.added, k) + OnItsWay(r, k) == Amount(s.added, k) + OnItsWay(s, k)
  {
    hide Landed;
    match s.counting
    case Storing(key, d, _) => assert Amount(Credit(s.added, key, d), k) == Amount(s.added, k) + OnItsWay(s, k);
    case Inserting(key, d) => assert Amount(Credit(s.added, key, d), k) == Amount(s.added, k) + OnItsWay(s, k);
    case _ =>
  }

  lemma ReporterAsks(s: Books, k: CString)
    requires ReporterStep(s).Some?
    ensures
      var r := ReporterStep(s).value;
      r.added == s.added && r.counting == s.counting
  {
  }

  lemma StepAsks(s: Books, a: Action, k: CString)
    requires Step(s, a).Some?
    ensures
      var r := Step(s, a).value;
      Amount(r.added, k) + OnItsWay(r, k) ==
      Amount(s.added, k) + OnItsWay(s, k) + if a.Update? && a.k == k then Meant(a.value, a.rate) else 0.0
  {
    hide Scaled, Meant, CountingStep, ReporterStep;
    match a
    case Update(_, value, rate) => ScaledIsMeant(value, rate);
    case CountingNext => CountingAsks(s, k);
    case Visit(_) =>
    case ReporterNext => ReporterAsks(s, k);
  }

  /** Over every run, for old and new counters alike: what was added under a key is what the updates asked for,
      but for an update that is still on its way. */
  lemma {:induction false} AddedAsAsked(start: Books, actions: seq<Action>, k: CString)
    requires Run(start, actions).Some?
    ensures
      var s := Run(start, actions).value;
      Amount(s.added, k) + OnItsWay(s, k) == Amount(start.added, k) + OnItsWay(start, k) + Asked(actions, k)
    decreases |actions|
  {
    hide Step, OnItsWay;
    if actions != [] {
      var before := actions[..|actions| - 1];
      AddedAsAsked(start, before, k);
      StepAsks(Run(start, before).value, actions[|actions| - 1], k);
    }
  }

  /** So what the updates of a run asked for is in the reports, in the counter, late, or on
      its way. */
  lemma {:induction false} EveryUpdateCounts(actions: seq<Action>, values: map<CString, real>, k: CString)
    requires Run(Loaded(values), actions).Some?
    ensures
      var s := Run(Loaded(values), actions).value;
      Amount(values, k) + Asked(actions, k) ==
      Amount(s.reported, k) + Pending(s, k) + Late(s, k) + Amount(s.lost, k) + OnItsWay(s, k)
  {
    LoadedInv(values);
    AddedAsAsked(Loaded(values), actions, k);
    Reconciled(Loaded(values), actions, k);
  }

  /** Whenever an update or the flush is under way, one of the two can go on. */
  lemma NeverStuck(s: Books)
    requires Inv(s) && !(s.counting.Resting? && s.reporter.Outside?)
    ensures Step(s, CountingNext).Some? || Step(s, ReporterNext).Some?
    ensures s.lock == Free && !s.counting.Resting? ==> Step(s, CountingNext).Some?
    ensures s.lock == Free && !s.reporter.Outside? ==> Step(s, ReporterNext).Some?
  {
  }

  /** Clearing a counter loses what its value has grown by since the report, which is what landed since;
      the report is exact if and only if the value did not change. */
  lemma ResetLoses(s: Books)
    requires Inv(s) && s.reporter.Resetting?
    ensures
      var k := s.reporter.k;
      var r := Step(s, ReporterNext).value;
      && Amount(r.lost, k) - Amount(s.lost, k) == Amount(s.values, k) - s.reporter.seen
      && (Amount(r.lost, k) == Amount(s.lost, k) <==> Amount(s.values, k) == s.reporter.seen)
      && Pending(r, k) == 0.0
  {
    assert Balanced(s, s.reporter.k);
  }

  /** Between two actions of the flush thread on k nothing but a store to k makes anything late. */
  lemma OnlyStoresAreLate(s: Books, a: Action, k: CString)
    requires Inv(s) && Step(s, a).Some? && !a.ReporterNext?
    ensures
      Late(Step(s, a).value, k) - Late(s, k)
      == if a.CountingNext? && s.counting.Storing? && s.counting.k == k && InWindow(s.reporter, k)
         then s.counting.d else 0.0
  {
    hide Scaled;
  }

  lemma RunNext(start: Books, before: seq<Action>, a: Action)
    requires Run(start, before).Some?
    ensures Run(start, before + [a]) == Step(Run(start, before).value, a)
  {
    assert (before + [a])[..|before|] == before;
  }

  /** A new counter comes in. */
  lemma FirstUpdate(k: CString, v: real)
    ensures
      var run := [] + [Action.Update(k, v, 0.0)] + [CountingNext] + [CountingNext] + [CountingNext];
      Run(NO_COUNTERS, run) == Some(NO_COUNTERS.(values := map[k := v], added := map[k := v]))
  {
    var r0: seq<Action> := [];
    var r1 := r0 + [Action.Update(k, v, 0.0)];
    var r2 := r1 + [CountingNext];
    var r3 := r2 + [CountingNext];
    RunNext(NO_COUNTERS, r0, Action.Update(k, v, 0.0));
    RunNext(NO_COUNTERS, r1, CountingNext);
    RunNext(NO_COUNTERS, r2, CountingNext);
    RunNext(NO_COUNTERS, r3, CountingNext);
    assert Credit(map[], k, v) == map[k := v] && NO_COUNTERS.values[k := v] == map[k := v];
  }

  /** An update that lands between the report and the reset of its counter is lost. */
  lemma LostUpdate(start: Books, before: seq<Action>, k: CString, v: real, w: real)
    requires Run(start, before) == Some(NO_COUNTERS.(values := map[k := v], added := map[k := v]))
    ensures
      var late := before + [Action.Visit(k)] + [ReporterNext]
                  + [Action.Update(k, w, 0.0)] + [CountingNext] + [CountingNext]
                  + [CountingNext] + [CountingNext] + [ReporterNext] + [ReporterNext];
      && Run(start, late).Some?
      && Amount(Run(start, late).value.added, k) == v + w
      && Amount(Run(start, late).value.reported, k) == v
      && Amount(Run(start, late).value.lost, k) == w
  {
    hide Run;
    var r1 := before + [Action.Visit(k)];
    RunNext(start, before, Action.Visit(k));
    var r2 := r1 + [ReporterNext];
    RunNext(start, r1, ReporterNext);
    var r3 := r2 + [Action.Update(k, w, 0.0)];
    RunNext(start, r2, Action.Update(k, w, 0.0));
    var r4 := r3 + [CountingNext];
    RunNext(start, r3, CountingNext);
    var r5 := r4 + [CountingNext];
    RunNext(start, r4, CountingNext);
    var r6 := r5 + [CountingNext];
    RunNext(start, r5, CountingNext);
    var r7 := r6 + [CountingNext];
    RunNext(start, r6, CountingNext);
    var r8 := r7 + [ReporterNext];
    RunNext(start, r7, ReporterNext);
    RunNext(start, r8, ReporterNext);
  }
}
