/**
 The PostgreSQL backend's batch update (internal/storage/postgresql.go): one transaction
 per attempt, retried on connection errors. A script of faults says how each attempt
 meets the database; a commit can fail and have taken effect all the same.
 */
module Postgres {
  import opened Model
  import Storage
  import opened Retry

  type Store = Storage.Store

  const MAX_NAME: nat := 255            // VARCHAR(255)
  const OUT_OF_RANGE := PgError("22003")
  const TOO_LONG := PgError("22001")
  const BAD_TEXT := PgError("22021")
  const UNKNOWN_TYPE := Plain("unknown metric type")

  datatype Fault =
    | NoFault
    | BeginFails(err: Error)
    | ExecFails(at: nat, err: Error)     // the statement for metric number `at`
    | CommitFails(err: Error, applied: bool)

  datatype TxResult = TxOk(view: Store) | TxErr(err: Error)

  /** One upsert: a zero character or too many in the name and BIGINT overflow are errors. */
  function Exec(s: Store, m: Metric): TxResult
    requires m.KnownType()
  {
    if Storage.Effect(m) == [] then TxOk(s)
    else if '\0' in m.id then TxErr(BAD_TEXT)
    else if |m.id| > MAX_NAME then TxErr(TOO_LONG)
    else if m.mtype.Counter? && !(INT64_MIN <= s.Counter(m.id) + m.delta.value <= INT64_MAX) then TxErr(OUT_OF_RANGE)
    else TxOk(Storage.ApplyMetric(s, m))
  }

  /** Metric number i inside a transaction that sees s. */
  function TxStep(s: Store, m: Metric, i: nat, fault: Fault): TxResult {
    if !m.KnownType() then TxErr(UNKNOWN_TYPE)
    else if Storage.Effect(m) != [] && fault.ExecFails? && fault.at == i then TxErr(fault.err)
    else Exec(s, m)
  }

  /** The transaction's view after a list of metrics, or the error that ended it. */
  function TxFold(s: Store, ms: seq<Metric>, fault: Fault): TxResult {
    if ms == [] then TxOk(s)
    else
      var n := |ms| - 1;
      var before := TxFold(s, ms[..n], fault);
      if before.TxErr? then before else TxStep(before.view, ms[n], n, fault)
  }

  /** One attempt: begin, all statements, commit; anything else rolls back. */
  function BatchTx(s: Store, ms: seq<Metric>, fault: Fault): Outcome<Store> {
    if fault.BeginFails? then Outcome(s, Some(fault.err))
    else
      var r := TxFold(s, ms, fault);
      if r.TxErr? then Outcome(s, Some(r.err))
      else if fault.CommitFails? then Outcome(if fault.applied then r.view else s, Some(fault.err))
      else Outcome(r.view, None)
  }

  class PostgresStorage {
    var db: Store     // what is committed

    constructor ()
      ensures db == Storage.EMPTY_STORE
    {
      db := Storage.EMPTY_STORE;
    }

    method BatchUpdateTx(metrics: seq<Metric>, fault: Fault) returns (err: Option<Error>)
      modifies this
      ensures Outcome(db, err) == BatchTx(old(db), metrics, fault)
      ensures fault.NoFault? ==> (err.None? <==> AllStorable(old(db), metrics))
    {
      FaultlessAttempt(db, metrics);
      if fault.BeginFails? {
        return Some(fault.err);
      }
      var view := db;
      for i := 0 to |metrics|
        invariant db == old(db) && TxFold(db, metrics[..i], fault) == TxOk(view)
      {
        assert metrics[..i + 1][..i] == metrics[..i];
        var r := TxStep(view, metrics[i], i, fault);
        if r.TxErr? {
          TxErrSticks(db, metrics, i + 1, fault);
          return Some(r.err);
        }
        view := r.view;
      }
      assert metrics[..|metrics|] == metrics;
      if fault.CommitFails? {
        if fault.applied {
          db := view;
        }
        return Some(fault.err);
      }
      db := view;
      return None;
    }

    method BatchUpdate(metrics: seq<Metric>, faults: nat -> Fault, cancelled: nat -> bool)
      returns (err: Option<Error>)
      modifies this
      ensures db == Trial(old(db), metrics, faults, cancelled).state
      ensures err == Trial(old(db), metrics, faults, cancelled).err
    {
      var t := WithRetry(db, TxAttempt(metrics, faults), RetryIf(), cancelled);
      db := t.state;
      return t.err;
    }
  }

  function TxAttempt(ms: seq<Metric>, faults: nat -> Fault): Attempt<Store> {
    (s: Store, k: nat) => BatchTx(s, ms, faults(k))
  }

  function RetryIf(): Error -> bool {
    (e: Error) => RetriableDB(e)
  }

  /** BatchUpdate as a whole. */
  function Trial(s: Store, ms: seq<Metric>, faults: nat -> Fault, cancelled: nat -> bool): Trace<Store> {
    Attempts(s, TxAttempt(ms, faults), RetryIf(), cancelled, 0)
  }

  lemma {:induction false} TxErrSticks(s: Store, ms: seq<Metric>, i: nat, fault: Fault)
    requires i <= |ms| && TxFold(s, ms[..i], fault).TxErr?
    ensures TxFold(s, ms, fault) == TxFold(s, ms[..i], fault)
  {
    if i == |ms| {
      assert ms[..i] == ms;
    } else {
      var n := |ms| - 1;
      assert ms[..n][..i] == ms[..i];
      TxErrSticks(s, ms[..n], i, fault);
    }
  }

  // ---- Agreement with the in-memory backend ------------------------------------------------

  predicate HasPayload(m: Metric) {
    (m.mtype.Gauge? && m.value.Some?) || (m.mtype.Counter? && m.delta.Some?)
  }

  /**
   The database accepts metric number i of a batch over s: a known type; with a payload, a name
   of at most 255 characters and no zero among them; for a counter also a sum within BIGINT.
   */
  predicate Storable(s: Store, ms: seq<Metric>, i: nat)
    requires i < |ms|
  {
    var m := ms[i];
    && (m.mtype.Gauge? || m.mtype.Counter?)
    && (HasPayload(m) ==> '\0' !in m.id && |m.id| <= 255)
    && (m.mtype.Counter? && m.delta.Some? ==>
          INT64_MIN <= s.Counter(m.id) + Net(ms[..i], m.id) + m.delta.value <= INT64_MAX)
  }

  predicate AllStorable(s: Store, ms: seq<Metric>) {
    forall i :: 0 <= i < |ms| ==> Storable(s, ms, i)
  }

  /** The error a metric that is not storable ends the batch with. */
  function Refusal(m: Metric): Error {
    if m.mtype.Other? then Plain("unknown metric type")
    else if '\0' in m.id then PgError("22021")
    else if |m.id| > 255 then PgError("22001")
    else PgError("22003")
  }

  lemma {:induction false} TxIsReplay(s: Store, ms: seq<Metric>)
    requires TxFold(s, ms, NoFault).TxOk?
    ensures TxFold(s, ms, NoFault).view == Storage.Replay(s, Storage.Effects(ms))
  {
    if ms == [] {
    } else {
      var n := |ms| - 1;
      var before := TxFold(s, ms[..n], NoFault);
      TxIsReplay(s, ms[..n]);
      StepApplies(before.view, ms[n], n, NoFault);
      LastStep(s, ms);
    }
  }

  lemma StepApplies(s: Store, m: Metric, i: nat, fault: Fault)
    requires TxStep(s, m, i, fault).TxOk?
    ensures TxStep(s, m, i, fault).view == Storage.ApplyMetric(s, m)
  {
  }

  lemma LastStep(s: Store, ms: seq<Metric>)
    requires ms != []
    ensures
      var n := |ms| - 1;
      Storage.Replay(s, Storage.Effects(ms)) ==
      Storage.ApplyMetric(Storage.Replay(s, Storage.Effects(ms[..n])), ms[n])
  {
    Storage.BatchStep(s, ms, |ms| - 1);
    assert ms[..|ms|] == ms;
  }

  /** One statement, where the transaction sees the sums of the metrics before it. */
  lemma StatementWorksWhen(s: Store, ms: seq<Metric>, view: Store, i: nat)
    requires i < |ms| && forall name :: view.Counter(name) == s.Counter(name) + Net(ms[..i], name)
    ensures TxStep(view, ms[i], i, NoFault) ==
            if Storable(s, ms, i) then TxOk(Storage.ApplyMetric(view, ms[i])) else TxErr(Refusal(ms[i]))
  {
    assert view.Counter(ms[i].id) == s.Counter(ms[i].id) + Net(ms[..i], ms[i].id);
  }

  /** A transaction without faults works through the storable metrics and stops at the first other one. */
  lemma {:induction false} TxGoesTo(s: Store, ms: seq<Metric>, n: nat)
    requires n <= |ms| && forall i :: 0 <= i < n ==> Storable(s, ms, i)
    ensures TxFold(s, ms[..n], NoFault).TxOk?
    ensures forall name :: TxFold(s, ms[..n], NoFault).view.Counter(name) == s.Counter(name) + Net(ms[..n], name)
    decreases n
  {
    if n == 0 {
    } else {
      TxGoesTo(s, ms, n - 1);
      var before := TxFold(s, ms[..n - 1], NoFault);
      assert ms[..n][..n - 1] == ms[..n - 1];
      StatementWorksWhen(s, ms, before.view, n - 1);
    }
    forall name: string ensures TxFold(s, ms[..n], NoFault).view.Counter(name) == s.Counter(name) + Net(ms[..n], name) {
      TxSumsExactly(s, ms[..n], name);
    }
  }

  lemma TxStopsAt(s: Store, ms: seq<Metric>, n: nat)
    requires n < |ms| && !Storable(s, ms, n) && forall i :: 0 <= i < n ==> Storable(s, ms, i)
    ensures TxFold(s, ms, NoFault) == TxErr(Refusal(ms[n]))
  {
    TxGoesTo(s, ms, n);
    StatementWorksWhen(s, ms, TxFold(s, ms[..n], NoFault).view, n);
    assert ms[..n + 1][..n] == ms[..n];
    TxErrSticks(s, ms, n + 1, NoFault);
  }

  lemma FirstNotStorable(s: Store, ms: seq<Metric>) returns (n: nat)
    ensures n <= |ms| && forall i :: 0 <= i < n ==> Storable(s, ms, i)
    ensures n < |ms| ==> !Storable(s, ms, n)
  {
    n := 0;
    while n < |ms| && Storable(s, ms, n)
      invariant n <= |ms| && forall i :: 0 <= i < n ==> Storable(s, ms, i)
    {
      n := n + 1;
    }
  }

  /** Without faults the transaction commits if and only if every metric is storable at its turn. */
  lemma TxCommitsWhen(s: Store, ms: seq<Metric>)
    ensures TxFold(s, ms, NoFault).TxOk? <==> AllStorable(s, ms)
  {
    var n := FirstNotStorable(s, ms);
    if n == |ms| {
      TxGoesTo(s, ms, n);
      assert ms[..n] == ms;
    } else {
      TxStopsAt(s, ms, n);
    }
  }

  /**
   One attempt that meets no fault: the whole batch if all of it is storable, otherwise nothing
   and the error of the first metric that is not.
   */
  lemma FaultlessAttempt(s: Store, ms: seq<Metric>)
    ensures BatchTx(s, ms, NoFault).err.None? <==> AllStorable(s, ms)
    ensures forall n :: 0 <= n < |ms| && !Storable(s, ms, n) && (forall i :: 0 <= i < n ==> Storable(s, ms, i)) ==>
      BatchTx(s, ms, NoFault) == Outcome(s, Some(Refusal(ms[n])))
  {
    TxCommitsWhen(s, ms);
    forall n | 0 <= n < |ms| && !Storable(s, ms, n) && (forall i :: 0 <= i < n ==> Storable(s, ms, i))
      ensures BatchTx(s, ms, NoFault) == Outcome(s, Some(Refusal(ms[n])))
    {
      TxStopsAt(s, ms, n);
    }
  }

  /** A statement's fault that lies beyond the metrics makes no difference to them. */
  lemma {:induction false} FaultBeyond(s: Store, ms: seq<Metric>, fault: Fault)
    requires fault.ExecFails? ==> fault.at >= |ms|
    ensures TxFold(s, ms, fault) == TxFold(s, ms, NoFault)
  {
    if ms == [] {
    } else {
      FaultBeyond(s, ms[..|ms| - 1], fault);
    }
  }

  /** Each fault that the attempt gets as far as ends it with exactly the fault's error. */
  lemma FaultsReported(s: Store, ms: seq<Metric>, fault: Fault)
    ensures fault.BeginFails? ==> BatchTx(s, ms, fault) == Outcome(s, Some(fault.err))
    ensures fault.ExecFails? && fault.at < |ms| && HasPayload(ms[fault.at]) &&
            (forall i :: 0 <= i < fault.at ==> Storable(s, ms, i)) ==>
            BatchTx(s, ms, fault) == Outcome(s, Some(fault.err))
    ensures fault.CommitFails? && AllStorable(s, ms) ==>
            BatchTx(s, ms, fault) ==
            Outcome(if fault.applied then Storage.Replay(s, Storage.Effects(ms)) else s, Some(fault.err))
  {
    if fault.ExecFails? && fault.at < |ms| && HasPayload(ms[fault.at]) &&
       forall i :: 0 <= i < fault.at ==> Storable(s, ms, i) {
      StatementFails(s, ms, fault);
    }
    if fault.CommitFails? && AllStorable(s, ms) {
      FaultBeyond(s, ms, fault);
      TxCommitsWhen(s, ms);
      TxIsReplay(s, ms);
    }
  }

  lemma StatementFails(s: Store, ms: seq<Metric>, fault: Fault)
    requires fault.ExecFails? && fault.at < |ms| && HasPayload(ms[fault.at])
    requires forall i :: 0 <= i < fault.at ==> Storable(s, ms, i)
    ensures TxFold(s, ms, fault) == TxErr(fault.err)
  {
    var n := fault.at;
    TxGoesTo(s, ms, n);
    FaultBeyond(s, ms[..n], fault);
    assert ms[..n + 1][..n] == ms[..n];
    TxErrSticks(s, ms, n + 1, fault);
  }

  /**
   Without faults the transaction commits exactly when every metric is storable at its turn, and
   then both backends reach the same state; otherwise the transaction changes nothing, while
   memory keeps the longest valid prefix.
   */
  lemma BackendsAgree(s: Store, ms: seq<Metric>)
    ensures
      var pg, mem := BatchTx(s, ms, NoFault), Storage.Call.BatchUpdate(ms);
      && (pg.err.None? <==> AllStorable(s, ms))
      && (pg.err.None? ==> mem.Failure().None? && pg.state == Storage.Perform(s, mem))
      && (pg.err.Some? ==> pg.state == s)
      && Storage.Perform(s, mem) == Storage.Replay(s, Storage.Effects(ms[..Storage.ValidPrefix(ms)]))
  {
    TxCommitsWhen(s, ms);
    if BatchTx(s, ms, NoFault).err.None? {
      TxIsReplay(s, ms);
      AllStorableAllKnown(s, ms);
    }
  }

  lemma AllStorableAllKnown(s: Store, ms: seq<Metric>)
    requires AllStorable(s, ms)
    ensures Storage.Call.BatchUpdate(ms).Failure().None?
    ensures Storage.Perform(s, Storage.Call.BatchUpdate(ms)) == Storage.Replay(s, Storage.Effects(ms))
  {
    forall i | 0 <= i < |ms| ensures ms[i].KnownType() {
      assert Storable(s, ms, i);
    }
    Storage.BatchStop(s, ms, |ms|);
    assert ms[..|ms|] == ms;
  }

  /** Inside the column's range nothing wraps: counters are exact sums. */
  lemma {:induction false} TxSumsExactly(s: Store, ms: seq<Metric>, name: string)
    requires TxFold(s, ms, NoFault).TxOk?
    ensures TxFold(s, ms, NoFault).view.Counter(name) ==
            s.Counter(name) + Storage.NetDelta(Storage.Effects(ms), name)
  {
    if ms == [] {
    } else {
      var n := |ms| - 1;
      TxSumsExactly(s, ms[..n], name);
      Storage.NetDeltaConcat(Storage.Effects(ms[..n]), Storage.Effect(ms[n]), name);
      OneSumsExactly(TxFold(s, ms[..n], NoFault).view, ms[n], name);
    }
  }

  lemma OneSumsExactly(s: Store, m: Metric, name: string)
    requires m.KnownType() && Exec(s, m).TxOk?
    ensures Exec(s, m).view.Counter(name) == s.Counter(name) + Storage.NetDelta(Storage.Effect(m), name)
  {
    var us := Storage.Effect(m);
    if us != [] {
      assert Storage.NetDelta(us[..0], name) == 0;
    }
  }

  // ---- How often a retried batch is applied --------------------------------------------------

  /** The attempt reported an error, but its commit had taken effect. */
  predicate Unnoticed(s: Store, ms: seq<Metric>, fault: Fault) {
    fault.CommitFails? && fault.applied && TxFold(s, ms, fault).TxOk?
  }

  function Silent(ms: seq<Metric>, faults: nat -> Fault): Silently<Store> {
    (s: Store, k: nat) => Unnoticed(s, ms, faults(k))
  }

  /** The attempts of one BatchUpdate that were applied without the client learning it. */
  function UnnoticedCommits(s: Store, ms: seq<Metric>, faults: nat -> Fault, cancelled: nat -> bool): nat {
    SilentCalls(s, TxAttempt(ms, faults), Silent(ms, faults), RetryIf(), cancelled, 0)
  }

  function Once(ms: seq<Metric>): Store -> Store {
    (s: Store) => Storage.Replay(s, Storage.Effects(ms))
  }

  function Times(s: Store, ms: seq<Metric>, n: nat): Store {
    Iterate(Once(ms), s, n)
  }

  function Reading(name: string): Store -> int {
    (s: Store) => s.Counter(name)
  }

  lemma {:induction false} ExecFaultOnlyHurts(s: Store, ms: seq<Metric>, fault: Fault)
    requires TxFold(s, ms, fault).TxOk?
    ensures TxFold(s, ms, NoFault) == TxFold(s, ms, fault)
  {
    if ms == [] {
    } else {
      ExecFaultOnlyHurts(s, ms[..|ms| - 1], fault);
    }
  }

  /** One attempt applies the whole batch or nothing of it, with exact sums. */
  lemma OneAttempt(s: Store, ms: seq<Metric>, fault: Fault, name: string)
    ensures
      var o := BatchTx(s, ms, fault);
      var applied := o.err.None? || Unnoticed(s, ms, fault);
      && (Unnoticed(s, ms, fault) ==> o.err.Some?)
      && o.state == (if applied then Storage.Replay(s, Storage.Effects(ms)) else s)
      && o.state.Counter(name) ==
         s.Counter(name) + (if applied then Storage.NetDelta(Storage.Effects(ms), name) else 0)
  {
    if TxFold(s, ms, fault).TxOk? {
      ExecFaultOnlyHurts(s, ms, fault);
      TxIsReplay(s, ms);
      TxSumsExactly(s, ms, name);
    }
  }

  function Net(ms: seq<Metric>, name: string): int {
    Storage.NetDelta(Storage.Effects(ms), name)
  }

  lemma AttemptsAreAllOrNothing(ms: seq<Metric>, faults: nat -> Fault)
    ensures AllOrNothing(TxAttempt(ms, faults), Silent(ms, faults), Once(ms))
  {
    forall s: Store, k: nat
      ensures TxAttempt(ms, faults)(s, k).state ==
        if TxAttempt(ms, faults)(s, k).err.None? || Silent(ms, faults)(s, k) then Once(ms)(s) else s
      ensures Silent(ms, faults)(s, k) ==> TxAttempt(ms, faults)(s, k).err.Some?
    {
      OneAttempt(s, ms, faults(k), "");
    }
  }

  /**
   Whatever the database does: BatchUpdate makes one to four attempts, and the batch ends up
   applied u times on error and 1 + u times on success, u being the attempts whose commit
   took effect although it failed. Each counter moves by exactly that many net deltas.
   */
  lemma AppliedHowOften(s: Store, ms: seq<Metric>, faults: nat -> Fault, cancelled: nat -> bool, name: string)
    ensures
      var t := Trial(s, ms, faults, cancelled);
      var u := UnnoticedCommits(s, ms, faults, cancelled);
      var n := if t.err.None? then 1 + u else u;
      && 1 <= t.calls <= 4 && t.waited <= 9
      && t.state == Times(s, ms, n)
      && t.state.Counter(name) == s.Counter(name) + n * Net(ms, name)
  {
    AttemptBounds(s, TxAttempt(ms, faults), RetryIf(), cancelled, 0);
    AttemptsAreAllOrNothing(ms, faults);
    RetriedEffects(s, TxAttempt(ms, faults), Silent(ms, faults), Once(ms), RetryIf(), cancelled, 0);
    CountedExactly(s, ms, faults, cancelled, name);
  }

  lemma CountedBy(s: Store, ms: seq<Metric>, faults: nat -> Fault, cancelled: nat -> bool, name: string, n: nat)
    requires n == UnnoticedCommits(s, ms, faults, cancelled) +
                  if Trial(s, ms, faults, cancelled).err.None? then 1 else 0
    ensures Trial(s, ms, faults, cancelled).state.Counter(name) == s.Counter(name) + Repeated(n, Net(ms, name))
  {
    var fn, silent, reading := TxAttempt(ms, faults), Silent(ms, faults), Reading(name);
    forall s: Store, k: nat
      ensures reading(fn(s, k).state) == reading(s) + if fn(s, k).err.None? || silent(s, k) then Net(ms, name) else 0
      ensures silent(s, k) ==> fn(s, k).err.Some?
    {
      OneAttempt(s, ms, faults(k), name);
    }
    RetriedSum(s, fn, silent, reading, Net(ms, name), RetryIf(), cancelled, 0);
  }

  lemma CountedExactly(s: Store, ms: seq<Metric>, faults: nat -> Fault, cancelled: nat -> bool, name: string)
    ensures
      var t := Trial(s, ms, faults, cancelled);
      var n := UnnoticedCommits(s, ms, faults, cancelled) + if t.err.None? then 1 else 0;
      t.state.Counter(name) == s.Counter(name) + n * Net(ms, name)
  {
    var t := Trial(s, ms, faults, cancelled);
    var n := UnnoticedCommits(s, ms, faults, cancelled) + if t.err.None? then 1 else 0;
    CountedBy(s, ms, faults, cancelled, name, n);
    RepeatedIsProduct(n, Net(ms, name));
  }

  /** If every failed commit really rolled back, the batch is applied once, or on error not at all. */
  lemma ExactlyOnceOrNotAtAll(s: Store, ms: seq<Metric>, faults: nat -> Fault, cancelled: nat -> bool)
    requires forall i: nat :: faults(i).CommitFails? ==> !faults(i).applied
    ensures
      var t := Trial(s, ms, faults, cancelled);
      t.state == if t.err.None? then Storage.Replay(s, Storage.Effects(ms)) else s
  {
    AttemptsAreAllOrNothing(ms, faults);
    RetriedEffects(s, TxAttempt(ms, faults), Silent(ms, faults), Once(ms), RetryIf(), cancelled, 0);
    NothingSilent(s, TxAttempt(ms, faults), Silent(ms, faults), RetryIf(), cancelled, 0);
    assert Iterate(Once(ms), s, 1) == Once(ms)(s);
  }

  // ---- When repeating does no harm ------------------------------------------------------------

  lemma {:induction false} TimesKeepsNames(s: Store, ms: seq<Metric>, n: nat)
    requires n > 0
    ensures Times(s, ms, n).gauges == Times(s, ms, 1).gauges
    ensures Times(s, ms, n).counters.Keys == Times(s, ms, 1).counters.Keys
  {
    if n == 1 {
    } else {
      TimesKeepsNames(s, ms, n - 1);
      assert Times(s, ms, 1) == Once(ms)(s);
      AgainKeepsNames(s, Times(s, ms, n - 1), Storage.Effects(ms));
    }
  }

  /** Replaying a log over a state that already shows its names and gauges. */
  lemma AgainKeepsNames(s: Store, r: Store, log: seq<Storage.Update>)
    requires r.gauges == Storage.Replay(s, log).gauges
    requires r.counters.Keys == Storage.Replay(s, log).counters.Keys
    ensures Storage.Replay(r, log).gauges == r.gauges
    ensures Storage.Replay(r, log).counters.Keys == r.counters.Keys
  {
    var again := Storage.Replay(r, log);
    forall name: string
      ensures name in again.gauges <==> name in r.gauges
      ensures name in again.gauges ==> again.gauges[name] == r.gauges[name]
    {
      Storage.GaugeOverRun(s, log, name);
      Storage.GaugeOverRun(r, log, name);
    }
    forall name: string ensures name in again.counters.Keys <==> name in r.counters.Keys {
      Storage.CounterOverRun(s, log, name);
      Storage.CounterOverRun(r, log, name);
    }
  }

  /**
   A successful BatchUpdate leaves what one application would exactly when no commit went
   unnoticed or the batch moves no counter: gauge-only batches are safe to retry blindly.
   */
  lemma RetryIsHarmless(s: Store, ms: seq<Metric>, faults: nat -> Fault, cancelled: nat -> bool)
    requires Trial(s, ms, faults, cancelled).err.None?
    ensures
      Trial(s, ms, faults, cancelled).state == Storage.Replay(s, Storage.Effects(ms)) <==>
      UnnoticedCommits(s, ms, faults, cancelled) == 0 || forall name :: Net(ms, name) == 0
  {
    var u := UnnoticedCommits(s, ms, faults, cancelled);
    var t := Trial(s, ms, faults, cancelled);
    AppliedHowOften(s, ms, faults, cancelled, "");
    assert Times(s, ms, 1) == Once(ms)(Times(s, ms, 0)) == Storage.Replay(s, Storage.Effects(ms));
    if u > 0 {
      forall name: string ensures t.state.Counter(name) == s.Counter(name) + (1 + u) * Net(ms, name) {
        AppliedHowOften(s, ms, faults, cancelled, name);
      }
      HarmlessWhen(s, t.state, ms, u);
    }
  }

  lemma HarmlessWhen(s: Store, final: Store, ms: seq<Metric>, u: nat)
    requires u > 0 && final == Times(s, ms, 1 + u)
    requires forall name :: final.Counter(name) == s.Counter(name) + (1 + u) * Net(ms, name)
    ensures final == Times(s, ms, 1) <==> forall name :: Net(ms, name) == 0
  {
    var once := Times(s, ms, 1);
    assert once == Once(ms)(Times(s, ms, 0)) == Storage.Replay(s, Storage.Effects(ms));
    TimesKeepsNames(s, ms, 1 + u);
    forall name: string ensures once.Counter(name) == Wrap64(s.Counter(name) + Net(ms, name)) {
      Storage.CounterOverRun(s, Storage.Effects(ms), name);
    }
    HarmlessByName(s, final, once, ms, u);
  }

  /**
   A BatchUpdate that reports an error leaves the database as it was exactly when no commit went
   unnoticed or the batch would change nothing however often it is applied.
   */
  lemma FailureIsHarmless(s: Store, ms: seq<Metric>, faults: nat -> Fault, cancelled: nat -> bool)
    requires Trial(s, ms, faults, cancelled).err.Some?
    ensures
      Trial(s, ms, faults, cancelled).state == s <==>
      UnnoticedCommits(s, ms, faults, cancelled) == 0 || forall name :: Idles(s, ms, name)
  {
    var u := UnnoticedCommits(s, ms, faults, cancelled);
    AppliedHowOften(s, ms, faults, cancelled, "");
    if u > 0 {
      if forall name :: Idles(s, ms, name) {
        AllIdle(s, ms, u);
      } else if Trial(s, ms, faults, cancelled).state == s {
        forall name: string ensures u * Net(ms, name) == 0 {
          AppliedHowOften(s, ms, faults, cancelled, name);
        }
        UnchangedMeansIdle(s, ms, u);
      }
    }
  }

  /** Applying the batch leaves this name as it was, and moves its counter by nothing at all. */
  predicate Idles(s: Store, ms: seq<Metric>, name: string) {
    Net(ms, name) == 0 && Storage.Unmoved(s, Storage.Effects(ms), name)
  }

  lemma {:induction false} AllIdle(s: Store, ms: seq<Metric>, n: nat)
    requires forall name :: Idles(s, ms, name)
    ensures Times(s, ms, n) == s
  {
    if n == 0 {
    } else {
      AllIdle(s, ms, n - 1);
      forall name: string ensures Storage.Unmoved(s, Storage.Effects(ms), name) {
        assert Idles(s, ms, name);
      }
      Storage.NoChange(s, Storage.Effects(ms));
    }
  }

  lemma UnchangedMeansIdle(s: Store, ms: seq<Metric>, u: nat)
    requires u > 0 && Times(s, ms, u) == s && forall name :: u * Net(ms, name) == 0
    ensures forall name :: Idles(s, ms, name)
  {
    var log := Storage.Effects(ms);
    TimesKeepsNames(s, ms, u);
    assert Times(s, ms, 1) == Once(ms)(Times(s, ms, 0)) == Storage.Replay(s, log);
    forall name: string ensures Net(ms, name) == 0 && Storage.Replay(s, log).Counter(name) == s.Counter(name) {
      assert u * Net(ms, name) == 0;
      ZeroFactor(u, Net(ms, name));
      Storage.CounterOverRun(s, log, name);
    }
    SameStore(Storage.Replay(s, log), s);
    Storage.NoChange(s, log);
    forall name: string ensures Idles(s, ms, name) {
      assert Storage.Unmoved(s, log, name);
    }
  }

  lemma ZeroFactor(u: nat, d: int)
    requires u > 0 && u * d == 0
    ensures d == 0
  {
    Stretch(u, d);
  }

  lemma Stretch(u: nat, d: int)
    requires u > 0
    ensures if d > 0 then u * d >= d else u * d <= d
  {
    if d > 0 {
      assert u * d >= d;
    } else {
      assert u * d <= d;
    }
  }

  lemma SameStore(p: Store, q: Store)
    requires p.gauges == q.gauges && p.counters.Keys == q.counters.Keys
    requires forall name :: p.Counter(name) == q.Counter(name)
    ensures p == q
  {
    forall name | name in p.counters ensures p.counters[name] == q.counters[name] {
      assert p.Counter(name) == q.Counter(name);
    }
  }

  lemma HarmlessByName(s: Store, final: Store, once: Store, ms: seq<Metric>, u: nat)
    requires u > 0 && final.gauges == once.gauges && final.counters.Keys == once.counters.Keys
    requires forall name :: final.Counter(name) == s.Counter(name) + (1 + u) * Net(ms, name)
    requires forall name :: once.Counter(name) == Wrap64(s.Counter(name) + Net(ms, name))
    ensures final == once <==> forall name :: Net(ms, name) == 0
  {
    forall name: string ensures final.Counter(name) == once.Counter(name) <==> Net(ms, name) == 0 {
      MoreThanOnce(s.Counter(name), Net(ms, name), u);
    }
    if forall name :: Net(ms, name) == 0 {
      assert final.counters == once.counters by {
        forall name | name in once.counters ensures final.counters[name] == once.counters[name] {
          assert Net(ms, name) == 0;
          assert final.Counter(name) == once.Counter(name);
        }
      }
    }
  }

  /** base + (1 + u) * d fits 64 bits, so base + d does too, and differs unless d is zero. */
  lemma MoreThanOnce(base: Int64, d: int, u: nat)
    requires u > 0 && INT64_MIN <= base + (1 + u) * d <= INT64_MAX
    ensures base + (1 + u) * d == Wrap64(base + d) <==> d == 0
  {
    assert (1 + u) * d == d + u * d;
    Stretch(u, d);
  }

  /** The double count that code 08007, transaction resolution unknown, leads to. */
  lemma UnknownResolutionCountsTwice(cancelled: nat -> bool)
    requires !cancelled(0)
    ensures
      var ms := [CounterMetric("PollCount", 5)];
      var faults := (k: nat) => if k == 0 then CommitFails(PgError("08007"), true) else NoFault;
      var t := Trial(Storage.EMPTY_STORE, ms, faults, cancelled);
      t.err.None? && t.calls == 2 && t.state.Counter("PollCount") == 10
  {
    var ms := [CounterMetric("PollCount", 5)];
    var faults := (k: nat) => if k == 0 then CommitFails(PgError("08007"), true) else NoFault;
    var one := Storage.Store(map[], map["PollCount" := 5]);
    assert ms[..0] == [];
    assert TxFold(Storage.EMPTY_STORE, ms, faults(0)) == TxOk(one);
    assert BatchTx(Storage.EMPTY_STORE, ms, faults(0)) == Outcome(one, Some(PgError("08007")));
    assert TxFold(one, ms, NoFault).TxOk?;
    assert BatchTx(one, ms, NoFault).err.None?;
  }
}
