/**
 The in-memory store (internal/storage/storage.go). Its mutable maps are a class; the
 meaning of every operation is a log of elementary updates replayed over a pair of maps.
 */
module Storage {
  import opened Model

  datatype Store = Store(gauges: map<string, Float64>, counters: map<string, Int64>) {
    predicate Finite() {
      forall k :: k in gauges ==> gauges[k].Finite()
    }

    /** Go reads a missing map entry as zero. */
    function Counter(name: string): Int64 {
      if name in counters then counters[name] else 0
    }
  }

  const EMPTY_STORE := Store(map[], map[])

  datatype Update = SetGauge(name: string, value: Float64) | AddCounter(name: string, delta: Int64)

  function Apply(s: Store, u: Update): Store {
    match u
    case SetGauge(name, v) => s.(gauges := s.gauges[name := v])
    case AddCounter(name, d) => s.(counters := s.counters[name := Wrap64(s.Counter(name) + d)])
  }

  function Replay(s: Store, log: seq<Update>): Store {
    if log == [] then s else Apply(Replay(s, log[..|log| - 1]), log[|log| - 1])
  }

  lemma {:induction false} ReplayConcat(s: Store, a: seq<Update>, b: seq<Update>)
    ensures Replay(s, a + b) == Replay(Replay(s, a), b)
  {
    if b == [] {
      assert a + b == a;
    } else {
      var n := |b| - 1;
      assert (a + b)[..|a + b| - 1] == a + b[..n];
      ReplayConcat(s, a, b[..n]);
    }
  }

  // ---- What a metric, a batch and a call do ---------------------------------------------

  /** The update one metric stands for: none when its payload is missing. */
  function Effect(m: Metric): seq<Update> {
    if m.mtype.Gauge? && m.value.Some? then [SetGauge(m.id, m.value.value)]
    else if m.mtype.Counter? && m.delta.Some? then [AddCounter(m.id, m.delta.value)]
    else []
  }

  function Effects(ms: seq<Metric>): seq<Update> {
    if ms == [] then [] else Effects(ms[..|ms| - 1]) + Effect(ms[|ms| - 1])
  }

  lemma {:induction false} EffectsConcat(a: seq<Metric>, b: seq<Metric>)
    ensures Effects(a + b) == Effects(a) + Effects(b)
  {
    if b == [] {
      assert a + b == a;
    } else {
      var n := |b| - 1;
      assert (a + b)[..|a + b| - 1] == a + b[..n];
      EffectsConcat(a, b[..n]);
    }
  }

  predicate AllKnown(ms: seq<Metric>) {
    forall i :: 0 <= i < |ms| ==> ms[i].KnownType()
  }

  /** Length of the longest prefix of known types. */
  function ValidPrefix(ms: seq<Metric>): (n: nat)
    ensures n <= |ms| && AllKnown(ms[..n])
    ensures n < |ms| ==> !ms[n].KnownType()
  {
    if ms == [] || !ms[0].KnownType() then 0
    else
      var n := 1 + ValidPrefix(ms[1..]);
      assert forall i :: 0 < i < n ==> ms[i] == ms[1..][i - 1];
      n
  }

  lemma ValidPrefixUnique(ms: seq<Metric>, n: nat)
    requires n <= |ms| && (forall i :: 0 <= i < n ==> ms[i].KnownType()) && (n < |ms| ==> !ms[n].KnownType())
    ensures ValidPrefix(ms) == n
  {
    var m := ValidPrefix(ms);
    assert forall i :: 0 <= i < m ==> ms[..m][i] == ms[i];
  }

  datatype Error = UnknownType(mtype: MetricType)

  datatype Call =
    | UpdateGauge(name: string, value: Float64)
    | UpdateCounter(name: string, delta: Int64)
    | BatchUpdate(metrics: seq<Metric>)
  {
    function Log(): seq<Update> {
      match this
      case UpdateGauge(n, v) => [SetGauge(n, v)]
      case UpdateCounter(n, d) => [AddCounter(n, d)]
      case BatchUpdate(ms) => Effects(ms[..ValidPrefix(ms)])
    }

    function Failure(): Option<Error> {
      match this
      case BatchUpdate(ms) =>
        var n := ValidPrefix(ms);
        if n == |ms| then None else Some(UnknownType(ms[n].mtype))
      case _ => None
    }
  }

  function Perform(s: Store, c: Call): Store {
    Replay(s, c.Log())
  }

  function PerformAll(s: Store, cs: seq<Call>): Store {
    if cs == [] then s else Perform(PerformAll(s, cs[..|cs| - 1]), cs[|cs| - 1])
  }

  function LogOf(cs: seq<Call>): seq<Update> {
    if cs == [] then [] else LogOf(cs[..|cs| - 1]) + cs[|cs| - 1].Log()
  }

  lemma {:induction false} PerformAllIsReplay(s: Store, cs: seq<Call>)
    ensures PerformAll(s, cs) == Replay(s, LogOf(cs))
  {
    if cs == [] {
    } else {
      var n := |cs| - 1;
      PerformAllIsReplay(s, cs[..n]);
      ReplayConcat(s, LogOf(cs[..n]), cs[n].Log());
    }
  }

  // ---- The class ------------------------------------------------------------------------

  /** Every method body runs under the store's lock, so each call is one atomic step. */
  class MetricsStorage {
    var gauges: map<string, Float64>
    var counters: map<string, Int64>

    function State(): Store
      reads this
    {
      Store(gauges, counters)
    }

    constructor ()
      ensures State() == EMPTY_STORE
    {
      gauges, counters := map[], map[];
    }

    method UpdateGauge(name: string, value: Float64)
      modifies this
      ensures State() == Perform(old(State()), Call.UpdateGauge(name, value))
      ensures name in gauges && gauges[name] == value && counters == old(counters)
      ensures forall k :: k != name ==> (k in gauges <==> k in old(gauges))
      ensures forall k :: k != name && k in gauges ==> gauges[k] == old(gauges)[k]
    {
      gauges := gauges[name := value];
      assert Replay(old(State()), []) == old(State());
    }

    method UpdateCounter(name: string, value: Int64)
      modifies this
      ensures State() == Perform(old(State()), Call.UpdateCounter(name, value))
      ensures name in counters && gauges == old(gauges)
      ensures counters[name] == Wrap64((if name in old(counters) then old(counters)[name] else 0) + value)
      ensures forall k :: k != name ==> (k in counters <==> k in old(counters))
      ensures forall k :: k != name && k in counters ==> counters[k] == old(counters)[k]
    {
      counters := counters[name := Wrap64((if name in counters then counters[name] else 0) + value)];
      assert Replay(old(State()), []) == old(State());
    }

    method BatchUpdate(metrics: seq<Metric>) returns (err: Option<Error>)
      modifies this
      ensures State() == Perform(old(State()), Call.BatchUpdate(metrics))
      ensures err == Call.BatchUpdate(metrics).Failure()
      ensures err.None? <==> AllKnown(metrics)
    {
      ghost var before := State();
      for i := 0 to |metrics|
        invariant forall j :: 0 <= j < i ==> metrics[j].KnownType()
        invariant State() == Replay(before, Effects(metrics[..i]))
      {
        BatchStep(before, metrics, i);
        var known := ApplyOne(metrics[i]);
        if !known {
          BatchStop(before, metrics, i);
          return Some(UnknownType(metrics[i].mtype));
        }
      }
      BatchStop(before, metrics, |metrics|);
      return None;
    }

    /** The switch inside the loop of BatchUpdate. */
    method ApplyOne(m: Metric) returns (known: bool)
      modifies this
      ensures known == m.KnownType()
      ensures State() == ApplyMetric(old(State()), m)
    {
      match m.mtype
      case Gauge =>
        if m.value.Some? {
          gauges := gauges[m.id := m.value.value];
        }
        return true;
      case Counter =>
        if m.delta.Some? {
          counters := counters[m.id := Wrap64((if m.id in counters then counters[m.id] else 0) + m.delta.value)];
        }
        return true;
      case Other(_) =>
        return false;
    }

    method GetGauge(name: string) returns (r: Option<Float64>)
      ensures r.Some? <==> name in gauges
      ensures r.Some? ==> r.value == gauges[name]
    {
      r := if name in gauges then Some(gauges[name]) else None;
    }

    method GetCounter(name: string) returns (r: Option<Int64>)
      ensures r.Some? <==> name in counters
      ensures r.Some? ==> r.value == counters[name]
    {
      r := if name in counters then Some(counters[name]) else None;
    }

    method GetAllMetrics() returns (gs: map<string, Float64>, cs: map<string, Int64>)
      ensures Store(gs, cs) == State()
    {
      gs := CopyMap(gauges);
      cs := CopyMap(counters);
    }
  }

  /** A loop that copies a Go map entry by entry, in whatever order the map is ranged over. */
  method CopyMap<V>(m: map<string, V>) returns (c: map<string, V>)
    ensures c == m
  {
    c := map[];
    var todo := m.Keys;
    while todo != {}
      invariant todo <= m.Keys && c.Keys == m.Keys - todo
      invariant forall k :: k in c ==> c[k] == m[k]
      decreases |todo|
    {
      var k :| k in todo;
      c := c[k := m[k]];
      todo := todo - {k};
    }
  }

  /** What the loop body of a batch does for a metric of a known type. */
  function ApplyMetric(s: Store, m: Metric): Store {
    match m.mtype
    case Gauge => if m.value.Some? then Apply(s, SetGauge(m.id, m.value.value)) else s
    case Counter => if m.delta.Some? then Apply(s, AddCounter(m.id, m.delta.value)) else s
    case Other(_) => s
  }

  /** One more metric of a batch. */
  lemma BatchStep(s: Store, ms: seq<Metric>, i: nat)
    requires i < |ms|
    ensures Replay(s, Effects(ms[..i + 1])) == ApplyMetric(Replay(s, Effects(ms[..i])), ms[i])
  {
    assert ms[..i + 1][..i] == ms[..i];
    ReplayConcat(s, Effects(ms[..i]), Effect(ms[i]));
    assert Effect(ms[i]) != [] ==> Effect(ms[i])[..0] == [];
  }

  /** Where the loop of a batch stops decides what the whole batch did. */
  lemma BatchStop(s: Store, ms: seq<Metric>, i: nat)
    requires i <= |ms| && (forall j :: 0 <= j < i ==> ms[j].KnownType())
    requires i < |ms| ==> !ms[i].KnownType()
    ensures Perform(s, BatchUpdate(ms)) == Replay(s, Effects(ms[..i]))
    ensures BatchUpdate(ms).Failure() == if i == |ms| then None else Some(UnknownType(ms[i].mtype))
    ensures AllKnown(ms) <==> i == |ms|
  {
    ValidPrefixUnique(ms, i);
    assert i < |ms| ==> !ms[i].KnownType();
  }

  // ---- Whole runs: counters are sums, gauges are last values ------------------------------

  function Contribution(u: Update, name: string): int {
    if u.AddCounter? && u.name == name then u.delta else 0
  }

  /** The mathematical sum of every delta a log applies to one counter. */
  function NetDelta(log: seq<Update>, name: string): int {
    if log == [] then 0 else NetDelta(log[..|log| - 1], name) + Contribution(log[|log| - 1], name)
  }

  predicate Counts(log: seq<Update>, name: string) {
    exists i :: 0 <= i < |log| && log[i].AddCounter? && log[i].name == name
  }

  /** The value of the last write to one gauge, if there is one. */
  function LastGauge(log: seq<Update>, name: string): Option<Float64> {
    if log == [] then None
    else
      var u := log[|log| - 1];
      if u.SetGauge? && u.name == name then Some(u.value) else LastGauge(log[..|log| - 1], name)
  }

  predicate LastGaugeAt(log: seq<Update>, name: string, i: nat) {
    && i < |log| && log[i].SetGauge? && log[i].name == name
    && forall j :: i < j < |log| && log[j].SetGauge? ==> log[j].name != name
  }

  lemma CountsSnoc(log: seq<Update>, name: string)
    requires log != []
    ensures Counts(log, name) <==>
      Counts(log[..|log| - 1], name) || (log[|log| - 1].AddCounter? && log[|log| - 1].name == name)
  {
    var n := |log| - 1;
    if Counts(log[..n], name) {
      var i :| 0 <= i < n && log[..n][i].AddCounter? && log[..n][i].name == name;
      assert log[i] == log[..n][i];
    }
    if Counts(log, name) {
      var i :| 0 <= i < |log| && log[i].AddCounter? && log[i].name == name;
      assert i < n ==> log[..n][i] == log[i];
    }
  }

  lemma {:induction false} CounterOverRun(s: Store, log: seq<Update>, name: string)
    ensures name in Replay(s, log).counters <==> name in s.counters || Counts(log, name)
    ensures Replay(s, log).Counter(name) == Wrap64(s.Counter(name) + NetDelta(log, name))
  {
    if log == [] {
    } else {
      var n := |log| - 1;
      var pre := log[..n];
      CounterOverRun(s, pre, name);
      CountsSnoc(log, name);
      WrapAdd(s.Counter(name) + NetDelta(pre, name), Contribution(log[n], name));
    }
  }

  lemma {:induction false} LastGaugeMeaning(log: seq<Update>, name: string)
    ensures LastGauge(log, name).None? ==> forall i :: 0 <= i < |log| && log[i].SetGauge? ==> log[i].name != name
    ensures LastGauge(log, name).Some? ==>
      exists i: nat :: LastGaugeAt(log, name, i) && LastGauge(log, name) == Some(log[i].value)
  {
    if log == [] {
    } else {
      var n := |log| - 1;
      LastGaugeMeaning(log[..n], name);
      assert forall i :: 0 <= i < n ==> log[..n][i] == log[i];
      if log[n].SetGauge? && log[n].name == name {
        assert LastGaugeAt(log, name, n);
      } else if LastGauge(log, name).Some? {
        var i: nat :| LastGaugeAt(log[..n], name, i) && LastGauge(log[..n], name) == Some(log[..n][i].value);
        assert LastGaugeAt(log, name, i);
      }
    }
  }

  lemma {:induction false} GaugeOverRun(s: Store, log: seq<Update>, name: string)
    ensures name in Replay(s, log).gauges <==> name in s.gauges || LastGauge(log, name).Some?
    ensures LastGauge(log, name).Some? ==> Replay(s, log).gauges[name] == LastGauge(log, name).value
    ensures LastGauge(log, name).None? && name in s.gauges ==> Replay(s, log).gauges[name] == s.gauges[name]
  {
    if log == [] {
    } else {
      GaugeOverRun(s, log[..|log| - 1], name);
    }
  }

  /** Whatever came before: each counter is the sum of its deltas, reduced to 64 bits. */
  lemma CounterAfterCalls(s: Store, cs: seq<Call>, log: seq<Update>, name: string)
    requires log == LogOf(cs)
    ensures PerformAll(s, cs).Counter(name) == Wrap64(s.Counter(name) + NetDelta(log, name))
    ensures name in PerformAll(s, cs).counters <==> name in s.counters || Counts(log, name)
  {
    PerformAllIsReplay(s, cs);
    CounterOverRun(s, log, name);
  }

  /** Each gauge is the last value written to it, if any was. */
  lemma GaugeAfterCalls(s: Store, cs: seq<Call>, name: string)
    ensures forall i: nat :: LastGaugeAt(LogOf(cs), name, i) ==>
      name in PerformAll(s, cs).gauges && PerformAll(s, cs).gauges[name] == LogOf(cs)[i].value
    ensures (forall i: nat :: !LastGaugeAt(LogOf(cs), name, i)) ==>
      (name in PerformAll(s, cs).gauges <==> name in s.gauges) &&
      (name in s.gauges ==> PerformAll(s, cs).gauges[name] == s.gauges[name])
  {
    var log := LogOf(cs);
    PerformAllIsReplay(s, cs);
    GaugeOverRun(s, log, name);
    LastGaugeMeaning(log, name);
    if i: nat :| LastGaugeAt(log, name, i) {
      forall j: nat | LastGaugeAt(log, name, j) ensures j == i {}
    }
  }

  /** What it takes for a log to leave one name as it was. */
  predicate Unmoved(s: Store, log: seq<Update>, name: string) {
    && (Counts(log, name) ==> name in s.counters)
    && Wrap64(s.Counter(name) + NetDelta(log, name)) == s.Counter(name)
    && (LastGauge(log, name).Some? ==> name in s.gauges && s.gauges[name] == LastGauge(log, name).value)
  }

  /** A log changes nothing exactly when its sums vanish and its gauges repeat what is there. */
  lemma NoChange(s: Store, log: seq<Update>)
    ensures Replay(s, log) == s <==> forall name :: Unmoved(s, log, name)
  {
    var r := Replay(s, log);
    forall name: string
      ensures Unmoved(s, log, name) <==>
        (name in r.counters <==> name in s.counters) && r.Counter(name) == s.Counter(name) &&
        (name in r.gauges <==> name in s.gauges) && (name in s.gauges ==> r.gauges[name] == s.gauges[name])
    {
      CounterOverRun(s, log, name);
      GaugeOverRun(s, log, name);
    }
    if forall name :: Unmoved(s, log, name) {
      assert forall name :: Unmoved(s, log, name) ==> (name in r.counters <==> name in s.counters);
      assert r.gauges == s.gauges;
      assert r.counters == s.counters by {
        forall name | name in s.counters ensures r.counters[name] == s.counters[name] {
          assert Unmoved(s, log, name);
        }
      }
    }
  }

  lemma {:induction false} PerformAllConcat(s: Store, a: seq<Call>, b: seq<Call>)
    ensures PerformAll(s, a + b) == PerformAll(PerformAll(s, a), b)
  {
    if b == [] {
      assert a + b == a;
    } else {
      var n := |b| - 1;
      assert (a + b)[..|a + b| - 1] == a + b[..n];
      PerformAllConcat(s, a, b[..n]);
    }
  }

  // ---- Order and grouping ----------------------------------------------------------------

  function Without<T>(s: seq<T>, i: nat): seq<T>
    requires i < |s|
  {
    s[..i] + s[i + 1..]
  }

  lemma WithoutMultiset<T>(s: seq<T>, i: nat)
    requires i < |s|
    ensures multiset(s) == multiset(Without(s, i)) + multiset{s[i]}
  {
    SplitAt(s, i);
  }

  lemma SplitAt<T>(s: seq<T>, i: nat)
    requires i < |s|
    ensures s == s[..i] + [s[i]] + s[i + 1..]
  {
  }

  lemma {:induction false} NetDeltaWithout(log: seq<Update>, i: nat, name: string)
    requires i < |log|
    ensures NetDelta(log, name) == NetDelta(Without(log, i), name) + Contribution(log[i], name)
    decreases |log|
  {
    var n := |log| - 1;
    if i == n {
      assert Without(log, i) == log[..n];
    } else {
      var w := Without(log, i);
      assert w[|w| - 1] == log[n] && w[..|w| - 1] == Without(log[..n], i);
      NetDeltaWithout(log[..n], i, name);
    }
  }

  /** Equal bags: the last element of one can be struck out of the other. */
  lemma StrikeOut<T>(a: seq<T>, b: seq<T>) returns (i: nat)
    requires a != [] && multiset(a) == multiset(b)
    ensures i < |b| && b[i] == a[|a| - 1]
    ensures multiset(a[..|a| - 1]) == multiset(Without(b, i))
  {
    var n := |a| - 1;
    assert a == a[..n] + [a[n]];
    assert a[n] in multiset(b);
    i :| 0 <= i < |b| && b[i] == a[n];
    WithoutMultiset(b, i);
    assert multiset(a[..n]) == multiset(a) - multiset{a[n]};
  }

  lemma {:induction false} NetDeltaOrderFree(a: seq<Update>, b: seq<Update>, name: string)
    requires multiset(a) == multiset(b)
    ensures NetDelta(a, name) == NetDelta(b, name)
    decreases |a|
  {
    if a == [] {
      assert |multiset(b)| == |b|;
    } else {
      var i := StrikeOut(a, b);
      NetDeltaOrderFree(a[..|a| - 1], Without(b, i), name);
      NetDeltaWithout(b, i, name);
    }
  }

  lemma {:induction false} NetDeltaConcat(a: seq<Update>, b: seq<Update>, name: string)
    ensures NetDelta(a + b, name) == NetDelta(a, name) + NetDelta(b, name)
  {
    if b == [] {
      assert a + b == a;
    } else {
      var n := |b| - 1;
      assert (a + b)[..|a + b| - 1] == a + b[..n];
      NetDeltaConcat(a, b[..n], name);
    }
  }

  lemma CountsOrderFree(a: seq<Update>, b: seq<Update>, name: string)
    requires multiset(a) == multiset(b)
    ensures Counts(a, name) ==> Counts(b, name)
  {
    if Counts(a, name) {
      var i :| 0 <= i < |a| && a[i].AddCounter? && a[i].name == name;
      assert a[i] in multiset(a);
      assert a[i] in multiset(b);
    }
  }

  lemma ReplayCountersOrderFree(s: Store, a: seq<Update>, b: seq<Update>)
    requires multiset(a) == multiset(b)
    ensures Replay(s, a).counters == Replay(s, b).counters
  {
    var x, y := Replay(s, a), Replay(s, b);
    forall name: string
      ensures name in x.counters <==> name in y.counters
      ensures name in x.counters ==> x.counters[name] == y.counters[name]
    {
      SameCounter(s, a, b, name);
    }
  }

  lemma SameCounter(s: Store, a: seq<Update>, b: seq<Update>, name: string)
    requires multiset(a) == multiset(b)
    ensures name in Replay(s, a).counters <==> name in Replay(s, b).counters
    ensures Replay(s, a).Counter(name) == Replay(s, b).Counter(name)
  {
    CounterOverRun(s, a, name);
    CounterOverRun(s, b, name);
    NetDeltaOrderFree(a, b, name);
    CountsOrderFree(a, b, name);
    CountsOrderFree(b, a, name);
  }

  /** Counters depend on neither the order nor the grouping into calls of the same updates. */
  lemma CountersOrderFree(s: Store, a: seq<Call>, b: seq<Call>)
    requires multiset(LogOf(a)) == multiset(LogOf(b))
    ensures PerformAll(s, a).counters == PerformAll(s, b).counters
  {
    PerformAllIsReplay(s, a);
    PerformAllIsReplay(s, b);
    ReplayCountersOrderFree(s, LogOf(a), LogOf(b));
  }

  /** A batch is its two halves in sequence, the second half run only if the first succeeded. */
  lemma BatchSplits(s: Store, a: seq<Metric>, b: seq<Metric>)
    ensures
      var whole, left, right := BatchUpdate(a + b), BatchUpdate(a), BatchUpdate(b);
      if left.Failure().Some?
      then Perform(s, whole) == Perform(s, left) && whole.Failure() == left.Failure()
      else Perform(s, whole) == Perform(Perform(s, left), right) && whole.Failure() == right.Failure()
  {
    var n := ValidPrefix(a);
    assert forall i :: 0 <= i < n ==> a[..n][i] == (a + b)[i];
    if n < |a| {
      assert (a + b)[..n] == a[..n];
      BatchStop(s, a + b, n);
    } else {
      assert a[..n] == a;
      BatchContinues(s, a, b);
    }
  }

  lemma BatchContinues(s: Store, a: seq<Metric>, b: seq<Metric>)
    requires AllKnown(a)
    ensures Perform(s, BatchUpdate(a + b)) == Perform(Replay(s, Effects(a)), BatchUpdate(b))
    ensures BatchUpdate(a + b).Failure() == BatchUpdate(b).Failure()
  {
    PrefixOfConcat(a, b);
    LogOfConcat(a, b);
    ReplayConcat(s, Effects(a), BatchUpdate(b).Log());
  }

  lemma LogOfConcat(a: seq<Metric>, b: seq<Metric>)
    requires ValidPrefix(a + b) == |a| + ValidPrefix(b)
    ensures BatchUpdate(a + b).Log() == Effects(a) + BatchUpdate(b).Log()
  {
    var k := ValidPrefix(b);
    assert BatchUpdate(b).Log() == Effects(b[..k]);
    EffectsConcat(a, b[..k]);
    PrefixAcross(a, b, k);
  }

  lemma PrefixAcross<T>(a: seq<T>, b: seq<T>, k: nat)
    requires k <= |b|
    ensures (a + b)[..|a| + k] == a + b[..k]
  {
  }

  lemma PrefixOfConcat(a: seq<Metric>, b: seq<Metric>)
    requires AllKnown(a)
    ensures ValidPrefix(a + b) == |a| + ValidPrefix(b)
  {
    var k := ValidPrefix(b);
    forall i | 0 <= i < |a| + k ensures (a + b)[i].KnownType() {
      if i >= |a| {
        assert (a + b)[i] == b[..k][i - |a|];
      }
    }
    ValidPrefixUnique(a + b, |a| + k);
  }
}
