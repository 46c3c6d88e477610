/**
 Saving the store to a file and loading it back: loadMetrics and saveMetrics of
 cmd/server/main.go. JSON is a pair of functions whose inverse law is a hypothesis.
 */
module Snapshot {
  import opened Model
  import opened Storage

  /** encoding/json, as far as lists of metrics go. */
  datatype Codec = Codec(marshal: seq<Metric> -> Option<Bytes>, unmarshal: Bytes -> Option<seq<Metric>>) {
    /** Marshal fails exactly on infinities and NaNs; what it writes is not empty and can be read back. */
    ghost predicate Lawful() {
      && (forall ms :: marshal(ms).Some? <==> AllEncodable(ms))
      && (forall ms :: marshal(ms).Some? ==> marshal(ms).value != [] && unmarshal(marshal(ms).value) == Some(ms))
    }
  }

  predicate AllEncodable(ms: seq<Metric>) {
    forall i :: 0 <= i < |ms| ==> ms[i].Encodable()
  }

  // ---- Listing a store --------------------------------------------------------------------

  predicate Distinct(names: seq<string>) {
    forall i, j :: 0 <= i < j < |names| ==> names[i] != names[j]
  }

  function GaugeList(names: seq<string>, m: map<string, Float64>): seq<Metric>
    requires forall i :: 0 <= i < |names| ==> names[i] in m
  {
    seq(|names|, i requires 0 <= i < |names| => GaugeMetric(names[i], m[names[i]]))
  }

  function CounterList(names: seq<string>, m: map<string, Int64>): seq<Metric>
    requires forall i :: 0 <= i < |names| ==> names[i] in m
  {
    seq(|names|, i requires 0 <= i < |names| => CounterMetric(names[i], m[names[i]]))
  }

  /** One of the orders in which Go may range over a map with these keys. */
  ghost predicate Enumerates(names: seq<string>, keys: set<string>) {
    Distinct(names) && forall k :: k in names <==> k in keys
  }

  ghost predicate ListedAs(ms: seq<Metric>, s: Store, gs: seq<string>, cs: seq<string>) {
    && Enumerates(gs, s.gauges.Keys) && Enumerates(cs, s.counters.Keys)
    && ms == GaugeList(gs, s.gauges) + CounterList(cs, s.counters)
  }

  /** All gauges in some order, then all counters in some order. */
  ghost predicate IsSnapshot(ms: seq<Metric>, s: Store) {
    exists gs, cs :: ListedAs(ms, s, gs, cs)
  }

  /** Ranging over a map: its keys, in an order the caller cannot choose. */
  method RangeOver(keys: set<string>) returns (names: seq<string>)
    ensures Enumerates(names, keys)
  {
    names := [];
    var todo := keys;
    while todo != {}
      invariant todo <= keys && Enumerates(names, keys - todo)
      decreases |todo|
    {
      var k :| k in todo;
      names := names + [k];
      todo := todo - {k};
    }
  }

  /** The two appending loops that saveMetrics and the agent's GetAllMetrics share. */
  method ListMetrics(gauges: map<string, Float64>, counters: map<string, Int64>) returns (ms: seq<Metric>)
    ensures IsSnapshot(ms, Store(gauges, counters))
  {
    var gs := RangeOver(gauges.Keys);
    var cs := RangeOver(counters.Keys);
    ghost var s := Store(gauges, counters);
    ms := [];
    for i := 0 to |gs|
      invariant ms == GaugeList(gs, gauges)[..i]
    {
      ms := ms + [GaugeMetric(gs[i], gauges[gs[i]])];
    }
    for i := 0 to |cs|
      invariant ms == GaugeList(gs, gauges) + CounterList(cs, counters)[..i]
    {
      ms := ms + [CounterMetric(cs[i], counters[cs[i]])];
    }
    assert ListedAs(ms, s, gs, cs);
  }

  // ---- Loading a list back ------------------------------------------------------------------

  /** What loading s into a store that already holds base gives. */
  function Overlay(base: Store, s: Store): Store {
    Store(base.gauges + s.gauges,
          map k | k in base.counters.Keys + s.counters.Keys :: Wrap64(base.Counter(k) + s.Counter(k)))
  }

  function Sets(names: seq<string>, m: map<string, Float64>): seq<Update>
    requires forall i :: 0 <= i < |names| ==> names[i] in m
  {
    seq(|names|, i requires 0 <= i < |names| => SetGauge(names[i], m[names[i]]))
  }

  function Adds(names: seq<string>, m: map<string, Int64>): seq<Update>
    requires forall i :: 0 <= i < |names| ==> names[i] in m
  {
    seq(|names|, i requires 0 <= i < |names| => AddCounter(names[i], m[names[i]]))
  }

  lemma {:induction false} EffectsOfGauges(names: seq<string>, m: map<string, Float64>)
    requires forall i :: 0 <= i < |names| ==> names[i] in m
    ensures Effects(GaugeList(names, m)) == Sets(names, m)
  {
    if names == [] {
    } else {
      var n := |names| - 1;
      assert GaugeList(names, m)[..n] == GaugeList(names[..n], m);
      assert Sets(names, m) == Sets(names[..n], m) + [SetGauge(names[n], m[names[n]])];
      EffectsOfGauges(names[..n], m);
    }
  }

  lemma {:induction false} EffectsOfCounters(names: seq<string>, m: map<string, Int64>)
    requires forall i :: 0 <= i < |names| ==> names[i] in m
    ensures Effects(CounterList(names, m)) == Adds(names, m)
  {
    if names == [] {
    } else {
      var n := |names| - 1;
      assert CounterList(names, m)[..n] == CounterList(names[..n], m);
      assert Adds(names, m) == Adds(names[..n], m) + [AddCounter(names[n], m[names[n]])];
      EffectsOfCounters(names[..n], m);
    }
  }

  lemma {:induction false} NetDeltaOfAdds(names: seq<string>, m: map<string, Int64>, k: string)
    requires Distinct(names) && forall i :: 0 <= i < |names| ==> names[i] in m
    ensures NetDelta(Adds(names, m), k) == if k in names then m[k] else 0
  {
    if names == [] {
    } else {
      var n := |names| - 1;
      assert names == names[..n] + [names[n]];
      assert Adds(names, m)[..n] == Adds(names[..n], m);
      NetDeltaOfAdds(names[..n], m, k);
    }
  }

  lemma {:induction false} NetDeltaOfSets(names: seq<string>, m: map<string, Float64>, k: string)
    requires forall i :: 0 <= i < |names| ==> names[i] in m
    ensures NetDelta(Sets(names, m), k) == 0
  {
    if names == [] {
    } else {
      var n := |names| - 1;
      assert Sets(names, m)[..n] == Sets(names[..n], m);
      NetDeltaOfSets(names[..n], m, k);
    }
  }

  lemma SnapshotLog(ms: seq<Metric>, s: Store, gs: seq<string>, cs: seq<string>)
    requires ListedAs(ms, s, gs, cs)
    ensures Effects(ms) == Sets(gs, s.gauges) + Adds(cs, s.counters)
  {
    EffectsConcat(GaugeList(gs, s.gauges), CounterList(cs, s.counters));
    EffectsOfGauges(gs, s.gauges);
    EffectsOfCounters(cs, s.counters);
  }

  /** The log that lists s says of every name exactly what s says. */
  ghost predicate Describes(log: seq<Update>, s: Store, k: string) {
    && LastGauge(log, k) == (if k in s.gauges then Some(s.gauges[k]) else None)
    && NetDelta(log, k) == s.Counter(k)
    && (Counts(log, k) <==> k in s.counters)
  }

  lemma ListingDescribes(s: Store, gs: seq<string>, cs: seq<string>, k: string)
    requires Enumerates(gs, s.gauges.Keys) && Enumerates(cs, s.counters.Keys)
    ensures Describes(Sets(gs, s.gauges) + Adds(cs, s.counters), s, k)
  {
    var sets, adds := Sets(gs, s.gauges), Adds(cs, s.counters);
    NetDeltaConcat(sets, adds, k);
    NetDeltaOfSets(gs, s.gauges, k);
    NetDeltaOfAdds(cs, s.counters, k);
    CountsAdds(sets, cs, s.counters, k);
    LastGaugeOfListing(s, gs, cs, k);
  }

  lemma LastGaugeOfListing(s: Store, gs: seq<string>, cs: seq<string>, k: string)
    requires Enumerates(gs, s.gauges.Keys) && Enumerates(cs, s.counters.Keys)
    ensures LastGauge(Sets(gs, s.gauges) + Adds(cs, s.counters), k) ==
            if k in s.gauges then Some(s.gauges[k]) else None
  {
    var log := Sets(gs, s.gauges) + Adds(cs, s.counters);
    LastGaugeMeaning(log, k);
    if k in s.gauges {
      var i :| 0 <= i < |gs| && gs[i] == k;
      assert log[i] == SetGauge(k, s.gauges[k]);
      assert forall j :: 0 <= j < |log| && log[j].SetGauge? && log[j].name == k ==> j == i;
    } else {
      assert forall j :: 0 <= j < |gs| ==> log[j] == SetGauge(gs[j], s.gauges[gs[j]]);
    }
  }

  lemma CountsAdds(sets: seq<Update>, cs: seq<string>, m: map<string, Int64>, k: string)
    requires forall i :: 0 <= i < |sets| ==> sets[i].SetGauge?
    requires forall i :: 0 <= i < |cs| ==> cs[i] in m
    ensures Counts(sets + Adds(cs, m), k) <==> k in cs
  {
    var log := sets + Adds(cs, m);
    if k in cs {
      var i :| 0 <= i < |cs| && cs[i] == k;
      assert log[|sets| + i] == AddCounter(k, m[k]);
    }
    if Counts(log, k) {
      var i :| 0 <= i < |log| && log[i].AddCounter? && log[i].name == k;
      assert cs[i - |sets|] == k;
    }
  }

  /** Whatever order the maps were listed in, loading the list overlays the store. */
  lemma LoadSnapshot(base: Store, ms: seq<Metric>, s: Store)
    requires IsSnapshot(ms, s)
    ensures Replay(base, Effects(ms)) == Overlay(base, s)
  {
    var gs, cs :| ListedAs(ms, s, gs, cs);
    SnapshotLog(ms, s, gs, cs);
    var log := Sets(gs, s.gauges) + Adds(cs, s.counters);
    forall k: string ensures Describes(log, s, k) {
      ListingDescribes(s, gs, cs, k);
    }
    OverlayGauges(base, s, log);
    OverlayCounters(base, s, log);
  }

  lemma OverlayGauges(base: Store, s: Store, log: seq<Update>)
    requires forall k :: Describes(log, s, k)
    ensures Replay(base, log).gauges == Overlay(base, s).gauges
  {
    var r := Replay(base, log).gauges;
    forall k: string
      ensures k in r <==> k in base.gauges || k in s.gauges
      ensures k in r ==> r[k] == if k in s.gauges then s.gauges[k] else base.gauges[k]
    {
      assert Describes(log, s, k);
      GaugeOverRun(base, log, k);
    }
  }

  lemma OverlayCounters(base: Store, s: Store, log: seq<Update>)
    requires forall k :: Describes(log, s, k)
    ensures Replay(base, log).counters == Overlay(base, s).counters
  {
    var r, o := Replay(base, log), Overlay(base, s).counters;
    forall k: string
      ensures k in r.counters <==> k in o
      ensures k in r.counters ==> r.counters[k] == o[k]
    {
      assert Describes(log, s, k);
      CounterOverRun(base, log, k);
    }
  }

  lemma OverlayOnEmpty(s: Store)
    ensures Overlay(EMPTY_STORE, s) == s
  {
    assert Overlay(EMPTY_STORE, s).gauges == s.gauges;
    assert Overlay(EMPTY_STORE, s).counters == s.counters;
  }

  lemma SnapshotEncodable(ms: seq<Metric>, s: Store)
    requires IsSnapshot(ms, s)
    ensures AllEncodable(ms) <==> s.Finite()
  {
    var gs, cs :| ListedAs(ms, s, gs, cs);
    assert forall i :: 0 <= i < |gs| ==> ms[i] == GaugeMetric(gs[i], s.gauges[gs[i]]);
    assert forall i :: |gs| <= i < |ms| ==> ms[i].Encodable();
    if AllEncodable(ms) {
      forall k | k in s.gauges ensures s.gauges[k].Finite() {
        var i :| 0 <= i < |gs| && gs[i] == k;
        assert ms[i].Encodable();
      }
    }
  }

  /** Restarting from a file: an absent or unreadable file leaves the store as it was. */
  function Recover(codec: Codec, base: Store, file: Option<Bytes>): Store {
    if file.None? then base
    else
      var list := codec.unmarshal(file.value);
      if list.None? then base else Replay(base, Effects(list.value))
  }

  /** saveMetrics then loadMetrics: the file of a snapshot of s overlays s on the loading store. */
  lemma SaveThenLoad(codec: Codec, ms: seq<Metric>, s: Store, base: Store)
    requires codec.Lawful() && IsSnapshot(ms, s)
    ensures codec.marshal(ms).Some? <==> s.Finite()
    ensures s.Finite() ==>
      && Recover(codec, base, codec.marshal(ms)) == Overlay(base, s)
      && Recover(codec, EMPTY_STORE, codec.marshal(ms)) == s
  {
    SnapshotEncodable(ms, s);
    LoadSnapshot(base, ms, s);
    LoadSnapshot(EMPTY_STORE, ms, s);
    OverlayOnEmpty(s);
  }
}
