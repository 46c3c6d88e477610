/**
 The save and load procedures of cmd/server/main.go as the loops and file steps they are,
 and the syncStorage wrapper that saves after every successful write.
 */
module Persist {
  import opened Model
  import opened Storage
  import opened Snapshot

  class Disk {
    var main: Option<Bytes>
    var temps: map<nat, Bytes>

    constructor (main: Option<Bytes>)
      ensures this.main == main && temps == map[]
    {
      this.main, temps := main, map[];
    }
  }

  /** How each file operation of one save turns out; tmp is the name CreateTemp hands out. */
  datatype Io = Io(tmp: nat, createOk: bool, written: nat, writeOk: bool, closeOk: bool, renameOk: bool) {
    predicate Fine() {
      createOk && writeOk && closeOk && renameOk
    }
  }

  /** An atomic save: the main file is either untouched or holds the whole store. */
  method SaveMetrics(store: MetricsStorage, disk: Disk, codec: Codec, io: Io) returns (ok: bool)
    requires codec.Lawful() && io.tmp !in disk.temps
    modifies disk
    ensures ok <==> store.State().Finite() && io.Fine()
    ensures ok ==> Recover(codec, EMPTY_STORE, disk.main) == store.State()
    ensures !ok ==> disk.main == old(disk.main)
    ensures disk.temps == old(disk.temps)
  {
    var gauges, counters := store.GetAllMetrics();
    var metrics := ListMetrics(gauges, counters);
    SaveThenLoad(codec, metrics, store.State(), EMPTY_STORE);
    var data := codec.marshal(metrics);
    if data.None? {
      return false;
    }
    ok := ReplaceFile(disk, data.value, io);
  }

  /** CreateTemp, Write, Close and Rename, removing the temporary file on any failure. */
  method ReplaceFile(disk: Disk, data: Bytes, io: Io) returns (ok: bool)
    requires io.tmp !in disk.temps
    modifies disk
    ensures ok <==> io.Fine()
    ensures disk.main == if ok then Some(data) else old(disk.main)
    ensures disk.temps == old(disk.temps)
  {
    if !io.createOk {
      return false;
    }
    var written := if io.writeOk || io.written > |data| then data else data[..io.written];
    disk.temps := disk.temps[io.tmp := written];
    ok := io.writeOk && io.closeOk && io.renameOk;
    if ok {
      disk.main := Some(disk.temps[io.tmp]);
    }
    disk.temps := disk.temps - {io.tmp};
  }

  /** Replays the listed metrics one by one; types it does not know are skipped. readOk: an existing file can be read. */
  method LoadMetrics(store: MetricsStorage, disk: Disk, codec: Codec, readOk: bool) returns (ok: bool)
    modifies store
    ensures store.State() == if readOk then Recover(codec, old(store.State()), disk.main) else old(store.State())
    ensures ok <==> disk.main.None? || (readOk && codec.unmarshal(disk.main.value).Some?)
    ensures !ok || disk.main.None? ==> store.State() == old(store.State())
    ensures ok && disk.main.Some? ==>
      store.State() == Replay(old(store.State()), Effects(codec.unmarshal(disk.main.value).value))
  {
    if disk.main.None? {
      return true;
    }
    if !readOk {
      return false;
    }
    var list := codec.unmarshal(disk.main.value);
    if list.None? {
      return false;
    }
    var metrics := list.value;
    ghost var before := store.State();
    for i := 0 to |metrics|
      invariant store.State() == Replay(before, Effects(metrics[..i]))
    {
      BatchStep(before, metrics, i);
      LoadOne(store, metrics[i]);
    }
    assert metrics[..|metrics|] == metrics;
    return true;
  }

  /** The switch in the loop of loadMetrics. */
  method LoadOne(store: MetricsStorage, m: Metric)
    modifies store
    ensures store.State() == ApplyMetric(old(store.State()), m)
  {
    PerformOne(store.State(), m);
    match m.mtype
    case Gauge =>
      if m.value.Some? {
        store.UpdateGauge(m.id, m.value.value);
      }
    case Counter =>
      if m.delta.Some? {
        store.UpdateCounter(m.id, m.delta.value);
      }
    case Other(_) =>
  }

  lemma PerformOne(s: Store, m: Metric)
    ensures m.mtype.Gauge? && m.value.Some? ==>
      Perform(s, Call.UpdateGauge(m.id, m.value.value)) == ApplyMetric(s, m)
    ensures m.mtype.Counter? && m.delta.Some? ==>
      Perform(s, Call.UpdateCounter(m.id, m.delta.value)) == ApplyMetric(s, m)
  {
    assert Replay(s, []) == s;
  }

  /** One thread's view of sync mode: a write that reports success is followed by a save. */
  class SyncStorage {
    const store: MetricsStorage
    const disk: Disk
    const codec: Codec

    constructor (store: MetricsStorage, disk: Disk, codec: Codec)
      ensures this.store == store && this.disk == disk && this.codec == codec
    {
      this.store, this.disk, this.codec := store, disk, codec;
    }

    /** The file caught up with memory, or it is the one that was there before. */
    twostate predicate FileFollows(saved: bool)
      reads disk, store
    {
      if saved then Recover(codec, EMPTY_STORE, disk.main) == store.State() else disk.main == old(disk.main)
    }

    method UpdateGauge(name: string, value: Float64, io: Io)
      requires codec.Lawful() && io.tmp !in disk.temps
      modifies store, disk
      ensures store.State() == Perform(old(store.State()), Call.UpdateGauge(name, value))
      ensures FileFollows(store.State().Finite() && io.Fine())
    {
      store.UpdateGauge(name, value);
      var _ := SaveMetrics(store, disk, codec, io);
    }

    method UpdateCounter(name: string, value: Int64, io: Io)
      requires codec.Lawful() && io.tmp !in disk.temps
      modifies store, disk
      ensures store.State() == Perform(old(store.State()), Call.UpdateCounter(name, value))
      ensures FileFollows(store.State().Finite() && io.Fine())
    {
      store.UpdateCounter(name, value);
      var _ := SaveMetrics(store, disk, codec, io);
    }

    method BatchUpdate(metrics: seq<Metric>, io: Io) returns (err: Option<Error>)
      requires codec.Lawful() && io.tmp !in disk.temps
      modifies store, disk
      ensures store.State() == Perform(old(store.State()), Call.BatchUpdate(metrics))
      ensures err.None? <==> AllKnown(metrics)
      ensures FileFollows(err.None? && store.State().Finite() && io.Fine())
    {
      err := store.BatchUpdate(metrics);
      if err.None? {
        var _ := SaveMetrics(store, disk, codec, io);
      }
    }
  }
}
