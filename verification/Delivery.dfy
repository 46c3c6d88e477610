/**
 How one snapshot of the agent reaches the store: one POST /update per metric in any order,
 one POST /updates, or one gRPC batch (internal/handler/handlers.go,
 internal/agent/grpcsender.go, internal/grpcserver/server.go).
 */
module Delivery {
  import opened Model
  import opened Storage
  import opened Snapshot

  // ---- HTTP handlers, from the decoded body on ------------------------------------------------

  class Handlers {
    const store: MetricsStorage

    constructor (store: MetricsStorage)
      ensures this.store == store
    {
      this.store := store;
    }

    /** Other requests, served while this one is between two calls of the store. */
    method Interfere(others: seq<Call>)
      modifies store
      ensures store.State() == PerformAll(old(store.State()), others)
    {
      ghost var before := store.State();
      for i := 0 to |others|
        invariant store.State() == PerformAll(before, others[..i])
      {
        assert others[..i + 1][..i] == others[..i];
        match others[i]
        case UpdateGauge(name, value) => store.UpdateGauge(name, value);
        case UpdateCounter(name, delta) => store.UpdateCounter(name, delta);
        case BatchUpdate(metrics) => var _ := store.BatchUpdate(metrics);
      }
      assert others[..|others|] == others;
    }

    /**
     updateMetricJSONHandler: the reply carries the value the store holds when it is read back,
     after whatever other requests came in between.
     */
    method UpdateMetricJSON(metric: Metric, others: seq<Call>) returns (status: int, reply: Option<Metric>)
      modifies store
      ensures status == 400 <==> Effect(metric) == []
      ensures status in {200, 400, 500} && (reply.Some? <==> status == 200)
      ensures store.State() ==
        if Effect(metric) == [] then old(store.State()) else PerformAll(Replay(old(store.State()), Effect(metric)), others)
      ensures status != 400 && metric.mtype.Gauge? ==> metric.id in store.gauges
      ensures status != 400 && metric.mtype.Counter? ==> metric.id in store.counters
      ensures status == 500 <==>
        || (metric.mtype.Gauge? && metric.value.Some? && metric.id in store.gauges && !store.gauges[metric.id].Finite())
        || (metric.mtype.Counter? && metric.delta.Some? && metric.value.Some? && !metric.value.value.Finite())
      ensures reply.Some? && metric.mtype.Gauge? ==>
        reply.value == metric.(value := Some(store.gauges[metric.id])) && (others == [] ==> reply.value == metric)
      ensures reply.Some? && metric.mtype.Counter? ==>
        && reply.value == metric.(delta := Some(store.counters[metric.id]))
        && (others == [] ==> reply.value.delta == Some(Wrap64(old(store.State()).Counter(metric.id) + metric.delta.value)))
    {
      ghost var updated := Replay(store.State(), Effect(metric));
      assert Replay(store.State(), []) == store.State();
      var m := metric;
      match metric.mtype {
        case Gauge =>
          if metric.value.None? {
            return 400, None;
          }
          store.UpdateGauge(metric.id, metric.value.value);
          NamesStay(updated, others, metric.id);
          Interfere(others);
          var v := store.GetGauge(metric.id);
          m := m.(value := v);
        case Counter =>
          if metric.delta.None? {
            return 400, None;
          }
          store.UpdateCounter(metric.id, metric.delta.value);
          NamesStay(updated, others, metric.id);
          Interfere(others);
          var d := store.GetCounter(metric.id);
          m := m.(delta := d);
        case Other(_) =>
          return 400, None;
      }
      if !m.Encodable() {
        return 500, None;
      }
      return 200, Some(m);
    }

    /** BatchUpdateMetrics: an unknown type answers 500 after its valid prefix has been applied. */
    method BatchUpdateMetrics(metrics: seq<Metric>) returns (status: int)
      modifies store
      ensures store.State() == Perform(old(store.State()), Call.BatchUpdate(metrics))
      ensures status == if metrics == [] then 400 else if AllKnown(metrics) then 200 else 500
    {
      if |metrics| == 0 {
        assert Call.BatchUpdate(metrics).Log() == [];
        return 400;
      }
      var err := store.BatchUpdate(metrics);
      return if err.Some? then 500 else 200;
    }
  }

  /** Names never disappear from a store. */
  lemma NamesStay(s: Store, cs: seq<Call>, name: string)
    ensures name in s.gauges ==> name in PerformAll(s, cs).gauges
    ensures name in s.counters ==> name in PerformAll(s, cs).counters
  {
    PerformAllIsReplay(s, cs);
    GaugeOverRun(s, LogOf(cs), name);
    CounterOverRun(s, LogOf(cs), name);
  }

  // ---- gRPC -------------------------------------------------------------------------------------

  datatype PbType = PbGauge | PbCounter | PbOther(number: int)

  datatype PbMetric = PbMetric(id: string, typ: PbType, delta: Int64, value: Float64)

  datatype GrpcStatus = Ok | InvalidArgument | Internal

  function ModelToProto(m: Metric): PbMetric {
    match m.mtype
    case Counter => PbMetric(m.id, PbCounter, if m.delta.Some? then m.delta.value else 0, ZERO_FLOAT)
    case _ => PbMetric(m.id, PbGauge, 0, if m.value.Some? then m.value.value else ZERO_FLOAT)
  }

  function ProtoToModel(m: PbMetric): Option<Metric> {
    if m.id == "" then None
    else
      match m.typ
      case PbGauge => Some(GaugeMetric(m.id, m.value))
      case PbCounter => Some(CounterMetric(m.id, m.delta))
      case PbOther(_) => None
  }

  /** A metric as the agent's collector builds it: exactly the payload of its type, no hash. */
  predicate Proper(m: Metric) {
    m.hash == "" &&
    ((m.mtype.Gauge? && m.value.Some? && m.delta.None?) || (m.mtype.Counter? && m.delta.Some? && m.value.None?))
  }

  /** The conversions undo each other on exactly the proper metrics with a name. */
  lemma ConversionRoundTrip(m: Metric)
    ensures ProtoToModel(ModelToProto(m)) == Some(m) <==> m.id != "" && Proper(m)
  {
    if m.id != "" && Proper(m) {
      match m.mtype {
        case Gauge => assert m == GaugeMetric(m.id, m.value.value);
        case Counter => assert m == CounterMetric(m.id, m.delta.value);
      }
    }
  }

  /** GRPCSender.SendBatch up to the request. */
  method ConvertAll(metrics: seq<Metric>) returns (req: seq<PbMetric>)
    ensures |req| == |metrics| && forall i :: 0 <= i < |req| ==> req[i] == ModelToProto(metrics[i])
  {
    req := [];
    for i := 0 to |metrics|
      invariant |req| == i && forall j :: 0 <= j < i ==> req[j] == ModelToProto(metrics[j])
    {
      req := req + [ModelToProto(metrics[i])];
    }
  }

  /** A request entry is accepted exactly when it is named and of one of the two types, and then it counts as sent. */
  lemma EntryMeaning(m: PbMetric)
    ensures ProtoToModel(m).Some? <==> m.id != "" && (m.typ.PbGauge? || m.typ.PbCounter?)
    ensures ProtoToModel(m).Some? ==>
      Effect(ProtoToModel(m).value) ==
      if m.typ.PbGauge? then [SetGauge(m.id, m.value)] else [AddCounter(m.id, m.delta)]
  {
  }

  /** Sent over gRPC, any named metric arrives as one of its type, a missing payload as zero; other types as gauges. */
  lemma SentAs(m: Metric)
    requires m.id != ""
    ensures ProtoToModel(ModelToProto(m)) == Some(
      if m.mtype.Counter? then CounterMetric(m.id, if m.delta.Some? then m.delta.value else 0)
      else GaugeMetric(m.id, if m.value.Some? then m.value.value else Float64(false, 0, 0)))
  {
  }

  predicate Acceptable(req: seq<PbMetric>) {
    forall i :: 0 <= i < |req| ==> ProtoToModel(req[i]).Some?
  }

  function Converted(req: seq<PbMetric>): seq<Metric>
    requires Acceptable(req)
  {
    seq(|req|, i requires 0 <= i < |req| => ProtoToModel(req[i]).value)
  }

  class MetricsServer {
    const store: MetricsStorage

    constructor (store: MetricsStorage)
      ensures this.store == store
    {
      this.store := store;
    }

    /** All or nothing: every entry is converted before the store is touched, and then cannot fail. */
    method UpdateMetrics(req: seq<PbMetric>) returns (status: GrpcStatus)
      modifies store
      ensures status == if Acceptable(req) then Ok else InvalidArgument
      ensures status == Ok <==> forall i :: 0 <= i < |req| ==> req[i].id != "" && !req[i].typ.PbOther?
      ensures store.State() ==
        if Acceptable(req) then Replay(old(store.State()), Effects(Converted(req))) else old(store.State())
    {
      var metrics: seq<Metric> := [];
      for i := 0 to |req|
        invariant store.State() == old(store.State()) && Acceptable(req[..i])
        invariant forall j :: 0 <= j < i ==> req[j].id != "" && !req[j].typ.PbOther?
        invariant metrics == Converted(req[..i])
      {
        var converted := ProtoToModel(req[i]);
        EntryMeaning(req[i]);
        if converted.None? {
          return InvalidArgument;
        }
        metrics := metrics + [converted.value];
      }
      assert req[..|req|] == req;
      ConvertedKnown(store.State(), req);
      var err := store.BatchUpdate(metrics);
      return if err.Some? then Internal else Ok;
    }
  }

  lemma ConvertedKnown(s: Store, req: seq<PbMetric>)
    requires Acceptable(req)
    ensures AllKnown(Converted(req))
    ensures Perform(s, Call.BatchUpdate(Converted(req))) == Replay(s, Effects(Converted(req)))
  {
    WholeBatch(s, Converted(req));
  }

  // ---- Order does not matter within a snapshot ----------------------------------------------------

  /** The store call that POST /update makes for a metric with a payload. */
  function CallOf(m: Metric): Call
    requires Effect(m) != []
  {
    if m.mtype.Gauge? then Call.UpdateGauge(m.id, m.value.value) else Call.UpdateCounter(m.id, m.delta.value)
  }

  function CallsOf(ms: seq<Metric>): seq<Call>
    requires forall i :: 0 <= i < |ms| ==> Effect(ms[i]) != []
  {
    seq(|ms|, i requires 0 <= i < |ms| => CallOf(ms[i]))
  }

  lemma {:induction false} CallsLog(ms: seq<Metric>)
    requires forall i :: 0 <= i < |ms| ==> Effect(ms[i]) != []
    ensures LogOf(CallsOf(ms)) == Effects(ms)
  {
    if ms == [] {
    } else {
      var n := |ms| - 1;
      assert CallsOf(ms)[..n] == CallsOf(ms[..n]);
      CallsLog(ms[..n]);
    }
  }

  lemma {:induction false} EffectsOrderFree(a: seq<Metric>, b: seq<Metric>)
    requires multiset(a) == multiset(b)
    ensures multiset(Effects(a)) == multiset(Effects(b))
    decreases |a|
  {
    if a == [] {
      assert |multiset(b)| == |b|;
    } else {
      var i := StrikeOut(a, b);
      EffectsOrderFree(a[..|a| - 1], Without(b, i));
      EffectsWithout(b, i);
    }
  }

  lemma EffectsWithout(ms: seq<Metric>, i: nat)
    requires i < |ms|
    ensures multiset(Effects(ms)) == multiset(Effects(Without(ms, i))) + multiset(Effect(ms[i]))
  {
    SplitAt(ms, i);
    EffectsAround(ms[..i], ms[i], ms[i + 1..]);
  }

  lemma EffectsAround(a: seq<Metric>, m: Metric, b: seq<Metric>)
    ensures multiset(Effects(a + [m] + b)) == multiset(Effects(a + b)) + multiset(Effect(m))
  {
    EffectsConcat(a + [m], b);
    EffectsConcat(a, [m]);
    EffectsConcat(a, b);
    assert [m][..0] == [];
    BagsAround(Effects(a), Effect(m), Effects(b));
  }

  lemma BagsAround<T>(a: seq<T>, b: seq<T>, c: seq<T>)
    ensures multiset(a + b + c) == multiset(a + c) + multiset(b)
    ensures [] + b == b
  {
  }

  /** A reordering of a log that lists s still says of every name exactly what s says. */
  lemma ReorderedDescribes(s: Store, gs: seq<string>, cs: seq<string>, log: seq<Update>, k: string)
    requires Enumerates(gs, s.gauges.Keys) && Enumerates(cs, s.counters.Keys)
    requires multiset(log) == multiset(Sets(gs, s.gauges) + Adds(cs, s.counters))
    ensures Describes(log, s, k)
  {
    var listing := Sets(gs, s.gauges) + Adds(cs, s.counters);
    ListingDescribes(s, gs, cs, k);
    NetDeltaOrderFree(log, listing, k);
    CountsOrderFree(log, listing, k);
    CountsOrderFree(listing, log, k);
    SameGauge(s, gs, cs, log, k);
  }

  lemma SameElements<T>(a: seq<T>, b: seq<T>, i: nat) returns (j: nat)
    requires multiset(a) == multiset(b) && i < |a|
    ensures j < |b| && b[j] == a[i]
  {
    assert a[i] in multiset(a);
    assert a[i] in multiset(b);
    j :| 0 <= j < |b| && b[j] == a[i];
  }

  lemma SameGauge(s: Store, gs: seq<string>, cs: seq<string>, log: seq<Update>, k: string)
    requires Enumerates(gs, s.gauges.Keys) && Enumerates(cs, s.counters.Keys)
    requires multiset(log) == multiset(Sets(gs, s.gauges) + Adds(cs, s.counters))
    ensures LastGauge(log, k) == if k in s.gauges then Some(s.gauges[k]) else None
  {
    var listing := Sets(gs, s.gauges) + Adds(cs, s.counters);
    LastGaugeMeaning(log, k);
    if LastGauge(log, k).Some? {
      var i: nat :| LastGaugeAt(log, k, i) && LastGauge(log, k) == Some(log[i].value);
      var j := SameElements(log, listing, i);
      SetInListing(s, gs, cs, j);
    } else if k in s.gauges {
      var j :| 0 <= j < |gs| && gs[j] == k;
      assert listing[j] == SetGauge(k, s.gauges[k]);
      var i := SameElements(listing, log, j);
    }
  }

  lemma SetInListing(s: Store, gs: seq<string>, cs: seq<string>, j: nat)
    requires Enumerates(gs, s.gauges.Keys) && Enumerates(cs, s.counters.Keys)
    requires j < |gs| + |cs|
    ensures
      var u := (Sets(gs, s.gauges) + Adds(cs, s.counters))[j];
      u.SetGauge? ==> u.name in s.gauges && u.value == s.gauges[u.name]
  {
  }

  lemma SnapshotHasPayloads(ms: seq<Metric>, c: Store)
    requires IsSnapshot(ms, c)
    ensures forall i :: 0 <= i < |ms| ==> Proper(ms[i]) && Effect(ms[i]) != []
    ensures AllKnown(ms)
  {
    var gs, cs :| ListedAs(ms, c, gs, cs);
  }

  lemma ReorderedSnapshot(s: Store, c: Store, ms: seq<Metric>, p: seq<Metric>)
    requires IsSnapshot(ms, c) && multiset(p) == multiset(ms)
    ensures Replay(s, Effects(p)) == Overlay(s, c)
  {
    var gs, cs :| ListedAs(ms, c, gs, cs);
    SnapshotLog(ms, c, gs, cs);
    EffectsOrderFree(p, ms);
    forall k: string ensures Describes(Effects(p), c, k) {
      ReorderedDescribes(c, gs, cs, Effects(p), k);
    }
    OverlayGauges(s, c, Effects(p));
    OverlayCounters(s, c, Effects(p));
  }

  /**
   Posting the metrics of one snapshot singly, in whatever order the workers get to it, gives
   the same store as one batch: the snapshot's gauges, and its counters added.
   */
  lemma AnyOrderIsTheBatch(s: Store, c: Store, ms: seq<Metric>, p: seq<Metric>)
    requires IsSnapshot(ms, c) && multiset(p) == multiset(ms)
    ensures forall i :: 0 <= i < |p| ==> Effect(p[i]) != []
    ensures PerformAll(s, CallsOf(p)) == Perform(s, Call.BatchUpdate(ms)) == Overlay(s, c)
  {
    SnapshotHasPayloads(ms, c);
    forall i | 0 <= i < |p| ensures Effect(p[i]) != [] {
      var j := SameElements(p, ms, i);
    }
    SinglePosts(s, p);
    ReorderedSnapshot(s, c, ms, p);
    ReorderedSnapshot(s, c, ms, ms);
    WholeBatch(s, ms);
  }

  lemma SinglePosts(s: Store, p: seq<Metric>)
    requires forall i :: 0 <= i < |p| ==> Effect(p[i]) != []
    ensures PerformAll(s, CallsOf(p)) == Replay(s, Effects(p))
  {
    CallsLog(p);
    PerformAllIsReplay(s, CallsOf(p));
  }

  lemma WholeBatch(s: Store, ms: seq<Metric>)
    requires AllKnown(ms)
    ensures Perform(s, Call.BatchUpdate(ms)) == Replay(s, Effects(ms))
  {
    BatchStop(s, ms, |ms|);
    assert ms[..|ms|] == ms;
  }

  /**
   The gRPC batch of a snapshot reaches the same store, and is accepted exactly when no
   metric has the empty name; otherwise nothing of it is applied.
   */
  lemma GrpcIsTheBatch(s: Store, c: Store, ms: seq<Metric>, req: seq<PbMetric>)
    requires IsSnapshot(ms, c)
    requires |req| == |ms| && forall i :: 0 <= i < |req| ==> req[i] == ModelToProto(ms[i])
    ensures Acceptable(req) <==> "" !in c.gauges && "" !in c.counters
    ensures Acceptable(req) ==> Replay(s, Effects(Converted(req))) == Overlay(s, c)
  {
    SnapshotHasPayloads(ms, c);
    NamesOfSnapshot(ms, c);
    forall i | 0 <= i < |ms| ensures ProtoToModel(req[i]) == if ms[i].id != "" then Some(ms[i]) else None {
      ConversionRoundTrip(ms[i]);
    }
    if Acceptable(req) {
      assert Converted(req) == ms;
      ReorderedSnapshot(s, c, ms, ms);
    }
  }

  lemma NamesOfSnapshot(ms: seq<Metric>, c: Store)
    requires IsSnapshot(ms, c)
    ensures (forall i :: 0 <= i < |ms| ==> ms[i].id != "") <==> "" !in c.gauges && "" !in c.counters
  {
    var gs, cs :| ListedAs(ms, c, gs, cs);
    ListedNames(ms, c, gs, cs);
    assert forall i :: 0 <= i < |ms| ==> ms[i].id == (gs + cs)[i];
    if "" in c.gauges {
      var i :| 0 <= i < |gs| && gs[i] == "";
      assert (gs + cs)[i] == "";
    }
    if "" in c.counters {
      var i :| 0 <= i < |cs| && cs[i] == "";
      assert (gs + cs)[|gs| + i] == "";
    }
  }

  lemma ListedNames(ms: seq<Metric>, c: Store, gs: seq<string>, cs: seq<string>)
    requires ListedAs(ms, c, gs, cs)
    ensures |ms| == |gs + cs| && forall i :: 0 <= i < |ms| ==> ms[i].id == (gs + cs)[i]
  {
  }
}
