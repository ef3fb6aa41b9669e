/** serialize.c: the metric tables as a JSON text, and back. */
module Serialize {
  import opened JsonValue
  import opened Lexemes
  import opened Automaton
  import opened Tokener
  import opened Printer
  import opened RoundTrip
  import opened LinkHash
  import opened ObjectStore
  import Threads = Metrics

  // ---------- the state ----------

  datatype Stat = Stat(group: CString, key: CString, value: int)
  datatype Timer = Timer(key: CString, count: int, values: seq<real>)
  datatype Metric = Metric(key: CString, value: real)

  /** The four hash tables, each in application order. */
  datatype Metrics = Metrics(stats: seq<Stat>, timers: seq<Timer>, gauges: seq<Metric>, counters: seq<Metric>)

  /** Each table holds a key once: uthash entries are only added after a failed lookup. */
  ghost predicate Keyed(m: Metrics) {
    && (forall i, j :: 0 <= i < j < |m.stats| ==>
          m.stats[i].group != m.stats[j].group || m.stats[i].key != m.stats[j].key)
    && (forall i, j :: 0 <= i < j < |m.timers| ==> m.timers[i].key != m.timers[j].key)
    && (forall i, j :: 0 <= i < j < |m.gauges| ==> m.gauges[i].key != m.gauges[j].key)
    && (forall i, j :: 0 <= i < j < |m.counters| ==> m.counters[i].key != m.counters[j].key)
  }

  // ---------- names ----------

  /** sprintf("%s.%s") */
  function Join(group: CString, key: CString): CString { group + "." + key }

  /** strchr(key, '.'): the position of the first dot, or -1. */
  function FirstDot(s: string): (i: int)
    ensures -1 <= i < |s|
    ensures i == -1 <==> '.' !in s
    ensures i >= 0 ==> s[i] == '.' && '.' !in s[..i]
  {
    if s == "" then -1
    else if s[0] == '.' then 0
    else
      var i := FirstDot(s[1..]);
      assert s == [s[0]] + s[1..];
      assert i >= 0 ==> s[..i + 1] == [s[0]] + s[1..][..i];
      if i == -1 then -1 else i + 1
  }

  /** The name is cut at the first dot; without one the whole text is the key. */
  function SplitName(s: CString): (CString, CString) {
    var i := FirstDot(s);
    if i == -1 then ("", s) else (s[..i], s[i + 1..])
  }

  /** A name without a dot has no group; otherwise the two parts are what is around the first dot. */
  lemma SplitNameIs(s: CString)
    ensures '.' !in s ==> SplitName(s) == ("", s)
    ensures '.' in s ==> SplitName(s).0 + "." + SplitName(s).1 == s && '.' !in SplitName(s).0
  {
  }

  /** Cutting undoes joining exactly for groups without a dot. */
  lemma SplitJoinIff(group: CString, key: CString)
    ensures SplitName(Join(group, key)) == (group, key) <==> '.' !in group
  {
    if '.' !in group {
      FirstDotOfJoin(group, key);
      var s := Join(group, key);
      assert s[..|group|] == group && s[|group| + 1..] == key;
    }
  }

  lemma {:induction false} FirstDotOfJoin(group: CString, key: CString)
    requires '.' !in group
    ensures FirstDot(Join(group, key)) == |group|
  {
    if group != "" {
      FirstDotOfJoin(group[1..], key);
      assert Join(group, key)[1..] == Join(group[1..], key);
    }
  }

  // ---------- saving ----------

  /** The conversion of a long to the int of json_object_new_int. */
  function LongToInt(v: int): (i: Int32)
    ensures i == v <==> -0x8000_0000 <= v < 0x8000_0000
    ensures (v - i) % 0x1_0000_0000 == 0
  {
    (v + 0x8000_0000) % 0x1_0000_0000 - 0x8000_0000
  }

  function StatMembers(ss: seq<Stat>): seq<Member<Json>> {
    if ss == [] then [] else [Member(Join(ss[0].group, ss[0].key), Int(LongToInt(ss[0].value)))] + StatMembers(ss[1..])
  }

  function Doubles(vs: seq<real>): seq<Json> {
    if vs == [] then [] else [Double(vs[0])] + Doubles(vs[1..])
  }

  function TimerMembers(ts: seq<Timer>): seq<Member<Json>> {
    if ts == [] then [] else [Member(ts[0].key, Arr(Doubles(ts[0].values)))] + TimerMembers(ts[1..])
  }

  function MetricMembers(ms: seq<Metric>): seq<Member<Json>> {
    if ms == [] then [] else [Member(ms[0].key, Double(ms[0].value))] + MetricMembers(ms[1..])
  }

  /** The tree statsd_serialize builds by additions to fresh objects. */
  function Saved(m: Metrics): Json {
    Obj(PutAll([], [
      Member("stats", Obj(PutAll([], StatMembers(m.stats)))),
      Member("timers", Obj(PutAll([], TimerMembers(m.timers)))),
      Member("gauges", Obj(PutAll([], MetricMembers(m.gauges)))),
      Member("counters", Obj(PutAll([], MetricMembers(m.counters))))]))
  }

  // ---------- restoring ----------

  function SkipSpace(s: string): string {
    if s != "" && IsSpace(s[0]) then SkipSpace(s[1..]) else s
  }

  /** (int) of a double: towards zero; what x86 stores when it does not fit. */
  function DoubleToInt(d: real): (i: Int32)
    ensures -2147483649.0 < d < 2147483648.0 ==>
              if d < 0.0 then i as real - 1.0 < d <= i as real <= 0.0 else 0.0 <= i as real <= d < i as real + 1.0
    ensures !(-2147483649.0 < d < 2147483648.0) ==> i == -0x8000_0000
  {
    var t := if d < 0.0 then -((-d).Floor) else d.Floor;
    if -0x8000_0000 <= t < 0x8000_0000 then t else -0x8000_0000
  }

  /** json_object_get_int */
  function GetInt(v: Json): Int32 {
    match v
    case Int(i) => i
    case Double(d) => DoubleToInt(d)
    case Bool(b) => if b then 1 else 0
    case Str(s) => (match ScanInt(SkipSpace(s)) case Some(n) => ToInt32(n) case None => 0)
    case _ => 0
  }

  /** json_object_get_double */
  function GetDouble(v: Json): real {
    match v
    case Double(d) => d
    case Int(i) => i as real
    case Bool(b) => if b then 1.0 else 0.0
    case Str(s) => (match ScanDouble(SkipSpace(s)) case Some(d) => d case None => 0.0)
    case _ => 0.0
  }

  lemma {:induction false} SpaceSkipped(ws: string, s: string)
    requires forall i :: 0 <= i < |ws| ==> IsSpace(ws[i])
    requires s != "" && !IsSpace(s[0])
    ensures SkipSpace(ws + s) == s
  {
    if ws == "" {
      assert ws + s == s;
    } else {
      assert (ws + s)[1..] == ws[1..] + s;
      SpaceSkipped(ws[1..], s);
    }
  }

  /** A number is the same whether it is stored as a number or as its text, blanks in front included. */
  lemma {:induction false} NumberOrText(i: Int32, d: real, ws: CString)
    requires forall k :: 0 <= k < |ws| ==> IsSpace(ws[k])
    ensures NUL !in IntText(i) && NUL !in DoubleText(d)
    ensures GetInt(Int(i)) == GetInt(Str(ws + IntText(i))) == i
    ensures GetDouble(Int(i)) == i as real && GetDouble(Double(d)) == d
    ensures GetDouble(Str(ws + DoubleText(d))) == Rounded(d)
    ensures GetInt(Double(d)) == DoubleToInt(d)
  {
    hide ScanDouble, ScanInt, Rounded, SkipSpace, DoubleToInt, IntText, DoubleText;
    IntLexeme(i);
    DoubleLexeme(d);
    FirstChar(Int(i));
    FirstChar(Double(d));
    ScanDoubleText(d);
    NumbersHaveNoNul(IntText(i));
    NumbersHaveNoNul(DoubleText(d));
    SpaceSkipped(ws, IntText(i));
    SpaceSkipped(ws, DoubleText(d));
  }

  /** What is no number counts as none; a truth value as 0 or 1. */
  lemma NoNumber(v: Json)
    ensures v.Null? || v.Arr? || v.Obj? ==> GetInt(v) == 0 && GetDouble(v) == 0.0
    ensures v == Str("") ==> GetInt(v) == 0 && GetDouble(v) == 0.0
    ensures v == Bool(false) ==> GetInt(v) == 0 && GetDouble(v) == 0.0
    ensures v == Bool(true) ==> GetInt(v) == 1 && GetDouble(v) == 1.0
  {
  }

  lemma NumbersHaveNoNul(s: string)
    requires NumberChars(s)
    ensures NUL !in s
  {
  }

  function RestoredStats(ms: seq<Member<Json>>): seq<Stat> {
    if ms == [] then []
    else
      var (group, key) := SplitName(ms[0].key);
      [Stat(group, key, GetInt(ms[0].value))] + RestoredStats(ms[1..])
  }

  function Values(es: seq<Json>): seq<real> {
    if es == [] then [] else [GetDouble(es[0])] + Values(es[1..])
  }

  /** None: a value is no array, and the C code has no defined behaviour. */
  function RestoredTimers(ms: seq<Member<Json>>): Option<seq<Timer>> {
    if ms == [] then Some([])
    else
      match RestoredTimers(ms[1..])
      case None => None
      case Some(rest) =>
        if ms[0].value.Arr? then
          var vs := Values(ms[0].value.elems);
          Some([Timer(ms[0].key, |vs|, vs)] + rest)
        else None
  }

  function RestoredMetrics(ms: seq<Member<Json>>): seq<Metric> {
    if ms == [] then [] else [Metric(ms[0].key, GetDouble(ms[0].value))] + RestoredMetrics(ms[1..])
  }

  /** The members of the object under a key of the top-level object, where there is one. */
  function Section(v: Json, name: CString): Option<seq<Member<Json>>> {
    if !v.Obj? then None
    else
      match Lookup(v.members, name)
      case Some(o) => if o.Obj? then Some(o.members) else None
      case None => None
  }

  /** What statsd_deserialize adds to empty tables; None where a section is missing
      or malformed and the C code has no defined behaviour. */
  function Restored(v: Json): Option<Metrics> {
    match (Section(v, "stats"), Section(v, "timers"), Section(v, "gauges"), Section(v, "counters"))
    case (Some(ss), Some(ts), Some(gs), Some(cs)) =>
      (match RestoredTimers(ts)
       case Some(timers) => Some(Metrics(RestoredStats(ss), timers, RestoredMetrics(gs), RestoredMetrics(cs)))
       case None => None)
    case _ => None
  }

  // ---------- which states survive ----------

  ghost predicate Restorable(m: Metrics) {
    && (forall i :: 0 <= i < |m.stats| ==> '.' !in m.stats[i].group && -0x8000_0000 <= m.stats[i].value < 0x8000_0000)
    && (forall i :: 0 <= i < |m.timers| ==> TimerRestorable(m.timers[i]))
    && (forall i :: 0 <= i < |m.gauges| ==> SixDecimals(m.gauges[i].value))
    && (forall i :: 0 <= i < |m.counters| ==> SixDecimals(m.counters[i].value))
  }

  ghost predicate TimerRestorable(t: Timer) {
    t.count == |t.values| && forall k :: 0 <= k < |t.values| ==> SixDecimals(t.values[k])
  }

  // ---------- additions with distinct keys ----------

  lemma {:induction false} PutAllFresh(done: seq<Member<Json>>, ms: seq<Member<Json>>)
    requires DistinctKeys(ms) && KeysApart(done, ms)
    ensures PutAll(done, ms) == done + ms
    decreases |ms|
  {
    if ms == [] {
      assert done + ms == done;
    } else {
      hide Without, DistinctKeys, KeysApart;
      var next, rest := done + [ms[0]], ms[1..];
      KeysApartNext(done, ms, ms[0].value);
      WithoutFresh(done, ms[0].key);
      assert PutAll(done, ms) == PutAll(next, rest);
      PutAllFresh(next, rest);
      assert next + rest == done + ms;
    }
  }

  /** Additions bring in no values of their own. */
  lemma {:induction false} PutAllFrom(done: seq<Member<Json>>, ms: seq<Member<Json>>)
    ensures forall x :: x in PutAll(done, ms) ==> x in done || x in ms
    decreases |ms|
  {
    if ms != [] {
      PutAllFrom(Put(done, ms[0].key, ms[0].value), ms[1..]);
    }
  }

  lemma {:induction false} SettledMembersFrom(ms: seq<Member<Json>>, done: seq<Member<Json>>)
    ensures forall x :: x in SettledMembers(ms, done) ==>
      x in done || exists i :: 0 <= i < |ms| && x.value == Settled(ms[i].value)
    decreases |ms|
  {
    if ms != [] {
      var next := Put(done, ms[0].key, Settled(ms[0].value));
      SettledMembersFrom(ms[1..], next);
      forall x | x in SettledMembers(ms, done) && x !in done
        ensures exists i :: 0 <= i < |ms| && x.value == Settled(ms[i].value)
      {
        if x in next {
          assert x.value == Settled(ms[0].value);
        } else {
          var i :| 0 <= i < |ms[1..]| && x.value == Settled(ms[1..][i].value);
          assert ms[i + 1] == ms[1..][i];
        }
      }
    }
  }

  // ---------- the sections of a saved tree ----------

  function Sections(s: seq<Member<Json>>, t: seq<Member<Json>>, g: seq<Member<Json>>,
                    c: seq<Member<Json>>): seq<Member<Json>> {
    [Member("stats", Obj(s)), Member("timers", Obj(t)), Member("gauges", Obj(g)), Member("counters", Obj(c))]
  }

  lemma SectionsDistinct(s: seq<Member<Json>>, t: seq<Member<Json>>, g: seq<Member<Json>>, c: seq<Member<Json>>)
    ensures DistinctKeys(Sections(s, t, g, c))
  {
    var names: seq<string> := ["stats", "timers", "gauges", "counters"];
    assert |names[0]| == 5 && |names[1]| == 6 && |names[2]| == 6 && |names[3]| == 8;
    assert names[1][0] == 't' && names[2][0] == 'g';
  }

  lemma SectionsFound(s: seq<Member<Json>>, t: seq<Member<Json>>, g: seq<Member<Json>>, c: seq<Member<Json>>)
    ensures var v := Obj(Sections(s, t, g, c));
            && Section(v, "stats") == Some(s) && Section(v, "timers") == Some(t)
            && Section(v, "gauges") == Some(g) && Section(v, "counters") == Some(c)
  {
    var all := Sections(s, t, g, c);
    SectionsDistinct(s, t, g, c);
    LookupIs(all, "stats", Some(Obj(s)));
    LookupIs(all, "timers", Some(Obj(t)));
    LookupIs(all, "gauges", Some(Obj(g)));
    LookupIs(all, "counters", Some(Obj(c)));
  }

  function StatSection(m: Metrics): seq<Member<Json>> { PutAll([], StatMembers(m.stats)) }
  function TimerSection(m: Metrics): seq<Member<Json>> { PutAll([], TimerMembers(m.timers)) }
  function GaugeSection(m: Metrics): seq<Member<Json>> { PutAll([], MetricMembers(m.gauges)) }
  function CounterSection(m: Metrics): seq<Member<Json>> { PutAll([], MetricMembers(m.counters)) }

  lemma SavedIs(m: Metrics)
    ensures Saved(m) == Obj(Sections(StatSection(m), TimerSection(m), GaugeSection(m), CounterSection(m)))
  {
    var all := Sections(StatSection(m), TimerSection(m), GaugeSection(m), CounterSection(m));
    SectionsDistinct(StatSection(m), TimerSection(m), GaugeSection(m), CounterSection(m));
    PutAllFresh([], all);
  }

  lemma SettledIs(m: Metrics)
    ensures Settled(Saved(m)) == Obj(Sections(SettledMembers(StatSection(m), []), SettledMembers(TimerSection(m), []),
                                              SettledMembers(GaugeSection(m), []),
                                              SettledMembers(CounterSection(m), [])))
  {
    SavedIs(m);
    var all := Sections(StatSection(m), TimerSection(m), GaugeSection(m), CounterSection(m));
    SectionsDistinct(StatSection(m), TimerSection(m), GaugeSection(m), CounterSection(m));
    SettledMembersFresh(all, []);
    EachSection(StatSection(m), TimerSection(m), GaugeSection(m), CounterSection(m));
  }

  lemma {:induction false} EachSection(s: seq<Member<Json>>, t: seq<Member<Json>>, g: seq<Member<Json>>,
                                       c: seq<Member<Json>>)
    ensures Each(Sections(s, t, g, c)) ==
            Sections(SettledMembers(s, []), SettledMembers(t, []), SettledMembers(g, []), SettledMembers(c, []))
  {
    hide SettledMembers;
    var all := Sections(s, t, g, c);
    assert all[1..][1..] == all[2..] && all[2..][1..] == all[3..] && all[3..][1..] == all[4..];
    assert Each(all[4..]) == [];
    assert Each(all[3..]) == [Member("counters", Settled(Obj(c)))];
    assert Each(all[2..]) == [Member("gauges", Settled(Obj(g)))] + Each(all[3..]);
    assert Each(all[1..]) == [Member("timers", Settled(Obj(t)))] + Each(all[2..]);
  }

  // ---------- restoring what was saved ----------

  lemma {:induction false} StatsComeBack(ss: seq<Stat>)
    requires forall i :: 0 <= i < |ss| ==> '.' !in ss[i].group && -0x8000_0000 <= ss[i].value < 0x8000_0000
    ensures RestoredStats(StatMembers(ss)) == ss
  {
    if ss != [] {
      SplitJoinIff(ss[0].group, ss[0].key);
      StatsComeBack(ss[1..]);
    }
  }

  lemma {:induction false} ValuesComeBack(vs: seq<real>)
    ensures Values(Doubles(vs)) == vs
  {
    if vs != [] {
      ValuesComeBack(vs[1..]);
    }
  }

  lemma {:induction false} TimersComeBack(ts: seq<Timer>)
    requires forall i :: 0 <= i < |ts| ==> ts[i].count == |ts[i].values|
    ensures RestoredTimers(TimerMembers(ts)) == Some(ts)
  {
    if ts != [] {
      ValuesComeBack(ts[0].values);
      TimersComeBack(ts[1..]);
      assert ts[0].count == |ts[0].values| && [ts[0]] + ts[1..] == ts;
    }
  }

  lemma {:induction false} MetricsComeBack(ms: seq<Metric>)
    ensures RestoredMetrics(MetricMembers(ms)) == ms
  {
    if ms != [] {
      MetricsComeBack(ms[1..]);
    }
  }

  lemma {:induction false} StatMembersAt(ss: seq<Stat>)
    ensures |StatMembers(ss)| == |ss|
    ensures forall i :: 0 <= i < |ss| ==>
      StatMembers(ss)[i] == Member(Join(ss[i].group, ss[i].key), Int(LongToInt(ss[i].value)))
  {
    if ss != [] {
      StatMembersAt(ss[1..]);
      assert forall i :: 0 < i < |ss| ==> ss[i] == ss[1..][i - 1];
    }
  }

  lemma {:induction false} TimerMembersAt(ts: seq<Timer>)
    ensures |TimerMembers(ts)| == |ts|
    ensures forall i :: 0 <= i < |ts| ==> TimerMembers(ts)[i] == Member(ts[i].key, Arr(Doubles(ts[i].values)))
  {
    if ts != [] {
      TimerMembersAt(ts[1..]);
      assert forall i :: 0 < i < |ts| ==> ts[i] == ts[1..][i - 1];
    }
  }

  lemma {:induction false} MetricMembersAt(ms: seq<Metric>)
    ensures |MetricMembers(ms)| == |ms|
    ensures forall i :: 0 <= i < |ms| ==> MetricMembers(ms)[i] == Member(ms[i].key, Double(ms[i].value))
  {
    if ms != [] {
      MetricMembersAt(ms[1..]);
      assert forall i :: 0 < i < |ms| ==> ms[i] == ms[1..][i - 1];
    }
  }

  lemma {:induction false} DoublesAt(vs: seq<real>)
    ensures |Doubles(vs)| == |vs| && forall i :: 0 <= i < |vs| ==> Doubles(vs)[i] == Double(vs[i])
  {
    if vs != [] {
      DoublesAt(vs[1..]);
      assert forall i :: 0 < i < |vs| ==> vs[i] == vs[1..][i - 1];
    }
  }

  /** Names without dots in the groups stay different when joined. */
  lemma JoinedKeysDistinct(m: Metrics)
    requires Keyed(m) && Restorable(m)
    ensures DistinctKeys(StatMembers(m.stats))
  {
    StatMembersAt(m.stats);
    forall i, j | 0 <= i < j < |m.stats|
      ensures StatMembers(m.stats)[i].key != StatMembers(m.stats)[j].key
    {
      SplitJoinIff(m.stats[i].group, m.stats[i].key);
      SplitJoinIff(m.stats[j].group, m.stats[j].key);
    }
  }

  /** The additions keep every entry, so the sections are the tables themselves. */
  lemma SectionsAre(m: Metrics)
    requires Keyed(m) && Restorable(m)
    ensures StatSection(m) == StatMembers(m.stats) && TimerSection(m) == TimerMembers(m.timers)
    ensures GaugeSection(m) == MetricMembers(m.gauges) && CounterSection(m) == MetricMembers(m.counters)
    ensures DistinctKeys(StatSection(m)) && DistinctKeys(TimerSection(m)) && DistinctKeys(GaugeSection(m))
            && DistinctKeys(CounterSection(m))
  {
    JoinedKeysDistinct(m);
    TimerMembersAt(m.timers);
    MetricMembersAt(m.gauges);
    MetricMembersAt(m.counters);
    PutAllFresh([], StatMembers(m.stats));
    PutAllFresh([], TimerMembers(m.timers));
    PutAllFresh([], MetricMembers(m.gauges));
    PutAllFresh([], MetricMembers(m.counters));
  }

  lemma {:induction false} StatsExact(ss: seq<Stat>)
    requires DistinctKeys(StatMembers(ss))
    ensures Exact(Obj(StatMembers(ss)))
  {
    StatMembersAt(ss);
  }

  lemma {:induction false} TimersExact(ts: seq<Timer>)
    requires DistinctKeys(TimerMembers(ts)) && forall i :: 0 <= i < |ts| ==> TimerRestorable(ts[i])
    ensures Exact(Obj(TimerMembers(ts)))
  {
    TimerMembersAt(ts);
    forall i | 0 <= i < |ts|
      ensures Exact(Arr(Doubles(ts[i].values)))
    {
      DoublesAt(ts[i].values);
      assert TimerRestorable(ts[i]);
    }
  }

  lemma {:induction false} MetricsExact(ms: seq<Metric>)
    requires DistinctKeys(MetricMembers(ms)) && forall i :: 0 <= i < |ms| ==> SixDecimals(ms[i].value)
    ensures Exact(Obj(MetricMembers(ms)))
  {
    MetricMembersAt(ms);
  }

  lemma SectionsExact(s: seq<Member<Json>>, t: seq<Member<Json>>, g: seq<Member<Json>>, c: seq<Member<Json>>)
    requires Exact(Obj(s)) && Exact(Obj(t)) && Exact(Obj(g)) && Exact(Obj(c))
    ensures Exact(Obj(Sections(s, t, g, c)))
  {
    SectionsDistinct(s, t, g, c);
  }

  lemma SavedExact(m: Metrics)
    requires Keyed(m) && Restorable(m)
    ensures Exact(Saved(m))
  {
    hide Exact, Saved, StatMembers, TimerMembers, MetricMembers;
    SectionsAre(m);
    SavedIs(m);
    StatsExact(m.stats);
    TimersExact(m.timers);
    MetricsExact(m.gauges);
    MetricsExact(m.counters);
    SectionsExact(StatSection(m), TimerSection(m), GaugeSection(m), CounterSection(m));
  }

  /** A state that can be restored comes back. */
  lemma ComesBack(m: Metrics)
    requires Keyed(m) && Restorable(m)
    ensures Settled(Saved(m)) == Saved(m) && Restored(Saved(m)) == Some(m)
  {
    hide Saved, Settled, Exact, StatMembers, TimerMembers, MetricMembers, RestoredStats, RestoredTimers,
         RestoredMetrics;
    SavedExact(m);
    ExactIff(Saved(m));
    SavedIs(m);
    SectionsFound(StatSection(m), TimerSection(m), GaugeSection(m), CounterSection(m));
    SectionsAre(m);
    StatsComeBack(m.stats);
    assert forall i :: 0 <= i < |m.timers| ==> TimerRestorable(m.timers[i]);
    TimersComeBack(m.timers);
    MetricsComeBack(m.gauges);
    MetricsComeBack(m.counters);
  }

  // ---------- what is restored could always be restored again ----------

  /** A value that prints without loss, as all doubles of a settled tree do. */
  ghost predicate SettledDouble(v: Json) { v.Double? && SixDecimals(v.d) }

  lemma SettledDoubleIs(d: real)
    ensures SettledDouble(Settled(Double(d)))
  {
    RoundedWhole(d);
  }

  lemma {:induction false} RestoredStatsOk(ms: seq<Member<Json>>)
    ensures forall i :: 0 <= i < |RestoredStats(ms)| ==>
      '.' !in RestoredStats(ms)[i].group && -0x8000_0000 <= RestoredStats(ms)[i].value < 0x8000_0000
  {
    if ms != [] {
      RestoredStatsOk(ms[1..]);
    }
  }

  lemma {:induction false} RestoredMetricsOk(ms: seq<Member<Json>>)
    requires forall i :: 0 <= i < |ms| ==> SettledDouble(ms[i].value)
    ensures forall i :: 0 <= i < |RestoredMetrics(ms)| ==> SixDecimals(RestoredMetrics(ms)[i].value)
  {
    if ms != [] {
      RestoredMetricsOk(ms[1..]);
    }
  }

  lemma {:induction false} ValuesOk(es: seq<Json>)
    requires forall i :: 0 <= i < |es| ==> SettledDouble(es[i])
    ensures forall i :: 0 <= i < |Values(es)| ==> SixDecimals(Values(es)[i])
  {
    if es != [] {
      ValuesOk(es[1..]);
    }
  }

  ghost predicate SettledArray(v: Json) {
    v.Arr? && forall i :: 0 <= i < |v.elems| ==> SettledDouble(v.elems[i])
  }

  lemma {:induction false} RestoredTimersOk(ms: seq<Member<Json>>)
    requires forall i :: 0 <= i < |ms| ==> SettledArray(ms[i].value)
    ensures RestoredTimers(ms).Some?
            && forall i :: 0 <= i < |RestoredTimers(ms).value| ==> TimerRestorable(RestoredTimers(ms).value[i])
  {
    if ms != [] {
      ValuesOk(ms[0].value.elems);
      RestoredTimersOk(ms[1..]);
    }
  }

  lemma {:induction false} SettledElemsAt(es: seq<Json>)
    ensures |SettledElems(es)| == |es| && forall i :: 0 <= i < |es| ==> SettledElems(es)[i] == Settled(es[i])
  {
    if es != [] {
      SettledElemsAt(es[1..]);
      assert forall i :: 0 < i < |es| ==> es[i] == es[1..][i - 1];
    }
  }

  lemma {:induction false} SettledArrayIs(vs: seq<real>)
    ensures SettledArray(Settled(Arr(Doubles(vs))))
  {
    DoublesAt(vs);
    SettledElemsAt(Doubles(vs));
    forall i | 0 <= i < |vs|
      ensures SettledDouble(Settled(Double(vs[i])))
    {
      SettledDoubleIs(vs[i]);
    }
  }

  /** The values of a settled section are settled values of the saved table. */
  lemma SectionValue(ms: seq<Member<Json>>, x: Member<Json>) returns (m: Member<Json>)
    requires x in SettledMembers(PutAll([], ms), [])
    ensures m in ms && x.value == Settled(m.value)
  {
    SettledMembersFrom(PutAll([], ms), []);
    var i :| 0 <= i < |PutAll([], ms)| && x.value == Settled(PutAll([], ms)[i].value);
    m := PutAll([], ms)[i];
    PutAllFrom([], ms);
  }

  lemma {:induction false} MetricSectionOk(ms: seq<Metric>)
    ensures forall x :: x in SettledMembers(PutAll([], MetricMembers(ms)), []) ==> SettledDouble(x.value)
  {
    MetricMembersAt(ms);
    forall x | x in SettledMembers(PutAll([], MetricMembers(ms)), [])
      ensures SettledDouble(x.value)
    {
      var m := SectionValue(MetricMembers(ms), x);
      SettledDoubleIs(m.value.d);
    }
  }

  lemma {:induction false} TimerSectionOk(ts: seq<Timer>)
    ensures forall x :: x in SettledMembers(PutAll([], TimerMembers(ts)), []) ==> SettledArray(x.value)
  {
    TimerMembersAt(ts);
    forall x | x in SettledMembers(PutAll([], TimerMembers(ts)), [])
      ensures SettledArray(x.value)
    {
      var m := SectionValue(TimerMembers(ts), x);
      var i :| 0 <= i < |ts| && m == Member(ts[i].key, Arr(Doubles(ts[i].values)));
      SettledArrayIs(ts[i].values);
    }
  }

  lemma ImageRestorable(m: Metrics)
    ensures Restored(Settled(Saved(m))).Some? && Restorable(Restored(Settled(Saved(m))).value)
  {
    hide SettledMembers, PutAll, Settled, Saved;
    SettledIs(m);
    var s, t := SettledMembers(StatSection(m), []), SettledMembers(TimerSection(m), []);
    var g, c := SettledMembers(GaugeSection(m), []), SettledMembers(CounterSection(m), []);
    SectionsFound(s, t, g, c);
    RestoredStatsOk(s);
    TimerSectionOk(m.timers);
    RestoredTimersOk(t);
    MetricSectionOk(m.gauges);
    RestoredMetricsOk(g);
    MetricSectionOk(m.counters);
    RestoredMetricsOk(c);
  }

  /** The restored timers as the threads see them. */
  function TimerTable(ts: seq<Timer>): (r: map<CString, Threads.Timer>)
    ensures forall k :: k in r ==> exists i :: 0 <= i < |ts| && r[k] == Threads.Timer(ts[i].values, ts[i].count)
  {
    if ts == [] then map[]
    else
      var t := ts[|ts| - 1];
      TimerTable(ts[..|ts| - 1])[t.key := Threads.Timer(t.values, t.count)]
  }

  /** After a restore the threads start in a state that keeps their invariant. */
  lemma {:induction false} RestoredStart(m: Metrics)
    ensures Restored(Settled(Saved(m))).Some?
    ensures Threads.Inv(Threads.Loaded(TimerTable(Restored(Settled(Saved(m))).value.timers)))
  {
    hide Restored, Settled, Saved, TimerTable, Threads.Inv, Threads.Loaded;
    ImageRestorable(m);
    var r := Restored(Settled(Saved(m))).value;
    assert forall i :: 0 <= i < |r.timers| ==> TimerRestorable(r.timers[i]);
    Threads.LoadedInv(TimerTable(r.timers));
  }

  // ---------- the file ----------

  /** The file statsd_serialize writes. */
  function FileText(m: Metrics): string { Text(Saved(m)) }

  /** What statsd_deserialize makes of a file: nothing below ten bytes, otherwise
      the tree in a zero-filled buffer of twenty bytes more. */
  function RestoredFile(file: string): Option<Metrics> {
    if |file| < 10 then Some(Metrics([], [], [], []))
    else
      match ParseSpec(file + seq(20, _ => NUL))
      case Parsed(v) => Restored(v)
      case Failed(_) => None
  }

  lemma {:induction false} SavedHeight(ms: seq<Member<Json>>, h: nat)
    requires forall i :: 0 <= i < |ms| ==> Height(ms[i].value) <= h
    ensures MembersHeight(ms) <= h
  {
    if ms != [] {
      SavedHeight(ms[1..], h);
    }
  }

  lemma {:induction false} DoublesHeight(vs: seq<real>)
    ensures ElemsHeight(Doubles(vs)) == 0
  {
    if vs != [] {
      DoublesHeight(vs[1..]);
    }
  }

  lemma {:induction false} SectionHeight(ms: seq<Member<Json>>)
    requires forall x :: x in ms ==> Height(x.value) <= 1
    ensures Height(Obj(PutAll([], ms))) <= 2
  {
    PutAllFrom([], ms);
    SavedHeight(PutAll([], ms), 1);
  }

  lemma {:induction false} TimerHeights(ts: seq<Timer>)
    ensures forall x :: x in TimerMembers(ts) ==> Height(x.value) <= 1
  {
    TimerMembersAt(ts);
    forall x | x in TimerMembers(ts)
      ensures Height(x.value) <= 1
    {
      var i :| 0 <= i < |ts| && x == Member(ts[i].key, Arr(Doubles(ts[i].values)));
      DoublesHeight(ts[i].values);
    }
  }

  /** A saved tree is never too deep to be read back. */
  lemma SavedShallow(m: Metrics)
    ensures Height(Saved(m)) <= 3
  {
    hide PutAll, StatMembers, TimerMembers, MetricMembers, Saved, MembersHeight;
    SavedIs(m);
    StatMembersAt(m.stats);
    TimerHeights(m.timers);
    MetricMembersAt(m.gauges);
    MetricMembersAt(m.counters);
    SectionHeight(StatMembers(m.stats));
    SectionHeight(TimerMembers(m.timers));
    SectionHeight(MetricMembers(m.gauges));
    SectionHeight(MetricMembers(m.counters));
    SavedHeight(Sections(StatSection(m), TimerSection(m), GaugeSection(m), CounterSection(m)), 2);
  }

  /** Saving then restoring gives back the state exactly when every group name is free
      of dots, every stat fits an int, every timer count is the number of its values,
      and every double is a whole number of millionths. */
  lemma SaveRestoreIff(m: Metrics)
    requires Keyed(m)
    ensures RestoredFile(FileText(m)) == Some(m) <==> Restorable(m)
  {
    hide Saved, Text, ParseSpec, Settled;
    SavedShallow(m);
    ParsePrinted(Saved(m));
    ParseStops(FileText(m), seq(19, _ => NUL));
    assert [NUL] + seq(19, _ => NUL) == seq(20, _ => NUL);
    FileLong(m);
    ImageRestorable(m);
    if Restorable(m) {
      ComesBack(m);
    }
  }

  lemma FileLong(m: Metrics)
    ensures |FileText(m)| >= 10
  {
    SavedIs(m);
    var all := Sections(StatSection(m), TimerSection(m), GaugeSection(m), CounterSection(m));
    assert MembersText(all, true) == KeyText("stats", true) + Text(all[0].value) + MembersText(all[1..], false);
    assert |KeyText("stats", true)| >= 5;
    FirstChar(all[0].value);
  }

  // ---------- the code ----------

  /** Adds members to a fresh object, one json_object_object_add at a time. */
  method NewObject(hash: CString -> nat, ms: seq<Member<Json>>) returns (v: Json)
    ensures v == Obj(PutAll([], ms))
  {
    var t := NewObjectWith(hash, ms);
    var members := t.Enumerate();
    v := Obj(members);
  }

  class MetricStore {
    var stats: seq<Stat>
    var timers: seq<Timer>
    var gauges: seq<Metric>
    var counters: seq<Metric>
    const hash: CString -> nat

    ghost function State(): Metrics
      reads this
    {
      Metrics(stats, timers, gauges, counters)
    }

    constructor (hash: CString -> nat)
      ensures State() == Metrics([], [], [], [])
    {
      this.hash := hash;
      stats, timers, gauges, counters := [], [], [], [];
    }

    /** The loop over one table of plain values. */
    method MetricSection(table: seq<Metric>) returns (v: Json)
      ensures v == Obj(PutAll([], MetricMembers(table)))
    {
      hide PutAll, Listed, Linked, Stores, Reachable, Wf;
      var obj := new Table<Json>(DEF_ENTRIES, hash);
      assert PutAll([], MetricMembers(table[..0])) == [] by { NoMembersYet(table); }
      for i := 0 to |table|
        invariant fresh(obj) && fresh(obj.table) && obj.Valid() && NoTombstone(obj.table[..])
        invariant obj.contents == PutAll([], MetricMembers(table[..i])) && DistinctKeys(obj.contents)
      {
        CleanHasEmpty(obj);
        ObjectAdd(obj, table[i].key, Double(table[i].value));
        NextMetric(table, i);
      }
      assert table[..|table|] == table;
      var members := obj.Enumerate();
      v := Obj(members);
    }

    /** The loop over the values of one timer. */
    method ArrayOf(values: seq<real>) returns (elems: seq<Json>)
      ensures elems == Doubles(values)
    {
      elems := [];
      for k := 0 to |values|
        invariant elems == Doubles(values[..k])
      {
        elems := elems + [Double(values[k])];
        DoublesNext(values, k);
      }
      assert values[..|values|] == values;
    }

    /** The loop over the timers: an array of doubles for each. */
    method TimerSection() returns (v: Json)
      ensures v == Obj(PutAll([], TimerMembers(timers)))
    {
      hide PutAll, Listed, Linked, Stores, Reachable, Wf;
      var obj := new Table<Json>(DEF_ENTRIES, hash);
      assert PutAll([], TimerMembers(timers[..0])) == [] by { NoTimersYet(timers); }
      for i := 0 to |timers|
        invariant fresh(obj) && fresh(obj.table) && obj.Valid() && NoTombstone(obj.table[..])
        invariant obj.contents == PutAll([], TimerMembers(timers[..i])) && DistinctKeys(obj.contents)
      {
        var elems := ArrayOf(timers[i].values);
        CleanHasEmpty(obj);
        ObjectAdd(obj, timers[i].key, Arr(elems));
        NextTimer(timers, i);
      }
      assert timers[..|timers|] == timers;
      var members := obj.Enumerate();
      v := Obj(members);
    }

    /** The loop over the stats, whose names are joined. */
    method StatSection() returns (v: Json)
      ensures v == Obj(PutAll([], StatMembers(stats)))
    {
      hide PutAll, Listed, Linked, Stores, Reachable, Wf;
      var obj := new Table<Json>(DEF_ENTRIES, hash);
      assert PutAll([], StatMembers(stats[..0])) == [] by { NoStatsYet(stats); }
      for i := 0 to |stats|
        invariant fresh(obj) && fresh(obj.table) && obj.Valid() && NoTombstone(obj.table[..])
        invariant obj.contents == PutAll([], StatMembers(stats[..i])) && DistinctKeys(obj.contents)
      {
        CleanHasEmpty(obj);
        ObjectAdd(obj, Join(stats[i].group, stats[i].key), Int(LongToInt(stats[i].value)));
        NextStat(stats, i);
      }
      assert stats[..|stats|] == stats;
      var members := obj.Enumerate();
      v := Obj(members);
    }

    /** statsd_serialize: the text written to the file. */
    method SaveTo() returns (file: string)
      ensures file == FileText(State())
    {
      hide PutAll, StatMembers, TimerMembers, MetricMembers, Text;
      var s := StatSection();
      var t := TimerSection();
      var c := MetricSection(counters);
      var g := MetricSection(gauges);
      var obj := NewObject(hash, [Member("stats", s), Member("timers", t), Member("gauges", g), Member("counters", c)]);
      assert obj == Saved(State());
      file := Print(obj);
    }

    /** statsd_deserialize on the contents of the file: the restored entries are added
        to the tables, in file order; false when the file is too short to hold any. */
    method LoadFrom(file: string) returns (ok: bool)
      requires RestoredFile(file).Some?
      modifies this
      ensures ok == (|file| >= 10)
      ensures var m := RestoredFile(file).value;
              && stats == old(stats) + m.stats && timers == old(timers) + m.timers
              && gauges == old(gauges) + m.gauges && counters == old(counters) + m.counters
    {
      hide ParseSpec, RestoredStats, RestoredTimers, RestoredMetrics, Lookup;
      if |file| < 10 {
        return false;
      }
      assert (file + seq(20, _ => NUL))[|file|] == NUL;
      var r := Parse(file + seq(20, _ => NUL));
      LoadStats(Lookup(r.value.members, "stats").value.members);
      LoadTimers(Lookup(r.value.members, "timers").value.members);
      LoadGauges(Lookup(r.value.members, "gauges").value.members);
      LoadCounters(Lookup(r.value.members, "counters").value.members);
      ok := true;
    }

    method LoadStats(ms: seq<Member<Json>>)
      modifies this`stats
      ensures stats == old(stats) + RestoredStats(ms)
    {
      for i := 0 to |ms|
        invariant stats + RestoredStats(ms[i..]) == old(stats) + RestoredStats(ms)
      {
        var (group, key) := SplitName(ms[i].key);
        stats := stats + [Stat(group, key, GetInt(ms[i].value))];
        assert ms[i..][1..] == ms[i + 1..];
      }
    }

    /** The loop that fills the array of one timer. */
    method ValuesOf(elems: seq<Json>) returns (values: seq<real>)
      ensures values == Values(elems)
    {
      values := [];
      for k := 0 to |elems|
        invariant values + Values(elems[k..]) == Values(elems)
      {
        values := values + [GetDouble(elems[k])];
        assert elems[k..][1..] == elems[k + 1..];
      }
      assert values + Values([]) == values;
    }

    method LoadTimers(ms: seq<Member<Json>>)
      requires RestoredTimers(ms).Some?
      modifies this`timers
      ensures timers == old(timers) + RestoredTimers(ms).value
    {
      for i := 0 to |ms|
        invariant RestoredTimers(ms[i..]).Some?
        invariant timers + RestoredTimers(ms[i..]).value == old(timers) + RestoredTimers(ms).value
      {
        assert ms[i..][1..] == ms[i + 1..];
        var elems := ms[i].value.elems;
        var values := ValuesOf(elems);
        timers := timers + [Timer(ms[i].key, |elems|, values)];
        ValuesLength(elems);
      }
    }

    method LoadGauges(ms: seq<Member<Json>>)
      modifies this`gauges
      ensures gauges == old(gauges) + RestoredMetrics(ms)
    {
      for i := 0 to |ms|
        invariant gauges + RestoredMetrics(ms[i..]) == old(gauges) + RestoredMetrics(ms)
      {
        gauges := gauges + [Metric(ms[i].key, GetDouble(ms[i].value))];
        assert ms[i..][1..] == ms[i + 1..];
      }
    }

    method LoadCounters(ms: seq<Member<Json>>)
      modifies this`counters
      ensures counters == old(counters) + RestoredMetrics(ms)
    {
      for i := 0 to |ms|
        invariant counters + RestoredMetrics(ms[i..]) == old(counters) + RestoredMetrics(ms)
      {
        counters := counters + [Metric(ms[i].key, GetDouble(ms[i].value))];
        assert ms[i..][1..] == ms[i + 1..];
      }
    }
  }

  lemma {:induction false} ValuesLength(es: seq<Json>)
    ensures |Values(es)| == |es|
  {
    if es != [] {
      ValuesLength(es[1..]);
    }
  }

  lemma NoMembersYet(table: seq<Metric>)
    ensures PutAll<Json>([], MetricMembers(table[..0])) == []
  {
  }

  lemma NoTimersYet(ts: seq<Timer>)
    ensures PutAll<Json>([], TimerMembers(ts[..0])) == []
  {
  }

  lemma NoStatsYet(ss: seq<Stat>)
    ensures PutAll<Json>([], StatMembers(ss[..0])) == []
  {
  }

  lemma NextMetric(table: seq<Metric>, i: nat)
    requires i < |table|
    ensures PutAll([], MetricMembers(table[..i + 1]))
            == Put(PutAll([], MetricMembers(table[..i])), table[i].key, Double(table[i].value))
  {
    MetricMembersAt(table[..i]);
    MetricMembersAt(table[..i + 1]);
    assert MetricMembers(table[..i + 1]) == MetricMembers(table[..i]) + [Member(table[i].key, Double(table[i].value))];
    PutAllNext([], MetricMembers(table[..i]), Member(table[i].key, Double(table[i].value)));
  }

  lemma NextTimer(ts: seq<Timer>, i: nat)
    requires i < |ts|
    ensures PutAll([], TimerMembers(ts[..i + 1]))
            == Put(PutAll([], TimerMembers(ts[..i])), ts[i].key, Arr(Doubles(ts[i].values)))
  {
    TimerMembersAt(ts[..i]);
    TimerMembersAt(ts[..i + 1]);
    var m := Member(ts[i].key, Arr(Doubles(ts[i].values)));
    assert TimerMembers(ts[..i + 1]) == TimerMembers(ts[..i]) + [m];
    PutAllNext([], TimerMembers(ts[..i]), m);
  }

  lemma NextStat(ss: seq<Stat>, i: nat)
    requires i < |ss|
    ensures PutAll([], StatMembers(ss[..i + 1])) ==
            Put(PutAll([], StatMembers(ss[..i])), Join(ss[i].group, ss[i].key), Int(LongToInt(ss[i].value)))
  {
    StatMembersAt(ss[..i]);
    StatMembersAt(ss[..i + 1]);
    var m := Member(Join(ss[i].group, ss[i].key), Int(LongToInt(ss[i].value)));
    assert StatMembers(ss[..i + 1]) == StatMembers(ss[..i]) + [m];
    PutAllNext([], StatMembers(ss[..i]), m);
  }

  lemma DoublesNext(vs: seq<real>, k: nat)
    requires k < |vs|
    ensures Doubles(vs[..k + 1]) == Doubles(vs[..k]) + [Double(vs[k])]
  {
    DoublesAt(vs[..k]);
    DoublesAt(vs[..k + 1]);
  }
}
