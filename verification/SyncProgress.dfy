/**
 Every call of sync mode comes back: no thread is ever stuck, a save ends whether it works or
 not, the lock is always given back, and without new requests the server comes to rest.
 */
module SyncProgress {
  import opened Model
  import opened Storage
  import opened Snapshot
  import opened SyncMachine
  import opened SyncInvariant

  // ---- Runs ------------------------------------------------------------------------------------

  lemma {:induction false} RunConcat(codec: Codec, s: State, a: seq<Action>, b: seq<Action>)
    requires ValidRun(codec, s, a) && ValidRun(codec, Run(codec, s, a), b)
    ensures ValidRun(codec, s, a + b) && Run(codec, s, a + b) == Run(codec, Run(codec, s, a), b)
  {
    if b == [] {
      assert a + b == a;
    } else {
      var front, last := b[..|b| - 1], b[|b| - 1];
      RunConcat(codec, s, a, front);
      Snoc(codec, s, a + front, last);
      Regroup(a, b);
    }
  }

  lemma Regroup<T>(a: seq<T>, b: seq<T>)
    requires b != []
    ensures a + b[..|b| - 1] + [b[|b| - 1]] == a + b
  {
  }

  lemma OneStep(codec: Codec, s: State, a: Action)
    requires Enabled(s, a)
    ensures ValidRun(codec, s, [a]) && Run(codec, s, [a]) == Next(codec, s, a)
  {
    assert [a][..0] == [];
    assert ValidRun(codec, s, []) && Run(codec, s, []) == s;
  }

  lemma StepFirst(codec: Codec, s: State, a: Action, rest: seq<Action>)
    requires Enabled(s, a) && ValidRun(codec, Next(codec, s, a), rest)
    ensures ValidRun(codec, s, [a] + rest) && Run(codec, s, [a] + rest) == Run(codec, Next(codec, s, a), rest)
  {
    OneStep(codec, s, a);
    RunConcat(codec, s, [a], rest);
  }

  // ---- What the steps of a save need is always there -----------------------------------------------

  lemma {:induction false} Enumeration(keys: set<string>) returns (names: seq<string>)
    ensures Enumerates(names, keys)
    decreases |keys|
  {
    if keys == {} {
      names := [];
    } else {
      var k :| k in keys;
      var rest := Enumeration(keys - {k});
      names := rest + [k];
    }
  }

  lemma SomeSnapshot(s: Store) returns (ms: seq<Metric>)
    ensures IsSnapshot(ms, s)
  {
    var gs := Enumeration(s.gauges.Keys);
    var cs := Enumeration(s.counters.Keys);
    ms := GaugeList(gs, s.gauges) + CounterList(cs, s.counters);
    assert ListedAs(ms, s, gs, cs);
  }

  lemma {:induction false} Above(names: set<nat>) returns (n: nat)
    ensures forall k :: k in names ==> k < n
    decreases |names|
  {
    if names == {} {
      n := 0;
    } else {
      var k :| k in names;
      var m := Above(names - {k});
      assert names == (names - {k}) + {k};
      n := if k < m then m else k + 1;
    }
  }

  // ---- The acting thread comes closer to its end ---------------------------------------------------

  function Phase(th: Thread): nat {
    match th
    case Idle => 0
    case Waiting(_) => 6
    case Saving(_, stage) =>
      match stage
      case Snapshotting => 5
      case Creating(_, _) => 4
      case Writing(_, _, _, _) => 3
      case Renaming(_, _, _) => 2
      case Done(_) => 1
  }

  /** Bytes still to be written. */
  function Left(th: Thread): nat {
    if th.Saving? && th.stage.Writing? && th.stage.written <= |th.stage.data|
    then |th.stage.data| - th.stage.written else 0
  }

  /** A step of a request or a save that has begun. */
  predicate Internal(a: Action) {
    !a.Invoke? && !a.StartBackground?
  }

  /** Every such step makes (phase, bytes left) of its thread smaller and leaves all others alone. */
  lemma StepDecreases(codec: Codec, s: State, a: Action)
    requires Enabled(s, a) && Internal(a)
    ensures
      var th, th' := s.ThreadOf(a.t), Next(codec, s, a).ThreadOf(a.t);
      Phase(th') < Phase(th) || (Phase(th') == Phase(th) && Left(th') < Left(th))
    ensures Next(codec, s, a).threads.Keys == s.threads.Keys
  {
  }

  lemma OthersKept(codec: Codec, s: State, a: Action, u: Tid)
    requires Enabled(s, a) && u != a.t
    ensures Next(codec, s, a).ThreadOf(u) == s.ThreadOf(u)
  {
  }

  // ---- A save ends, whether it works or not ----------------------------------------------------------

  /** What a save that meets no further fault will report. */
  predicate WillWork(s: State, stage: Stage) {
    match stage
    case Snapshotting => s.mem.Finite()
    case Done(ok) => ok
    case _ => true
  }

  /** A thread that saves can take a step of its own, without a fault. */
  lemma OwnStep(codec: Codec, s: State, t: Tid) returns (a: Action)
    requires codec.Lawful() && Inv(codec, s) && s.ThreadOf(t).Saving?
    ensures Enabled(s, a) && a.t == t && Internal(a) && !a.Fail? && !a.Acquire?
    ensures a.Return? <==> s.ThreadOf(t).stage.Done?
  {
    assert ThreadOk(codec, s, t);
    match s.ThreadOf(t).stage
    case Snapshotting =>
      var ms := SomeSnapshot(s.mem);
      a := TakeSnapshot(t, ms);
    case Creating(_, _) =>
      var name := Above(s.disk.temps.Keys);
      a := CreateTemp(t, name);
    case Writing(_, data, _, written) => a := if written < |data| then Write(t, |data|) else CloseTemp(t);
    case Renaming(_, _, _) => a := Rename(t);
    case Done(_) => a := Return(t);
  }

  /** From s to r thread t goes on with its save, and nothing else that matters to it changes. */
  ghost predicate GoesOn(s: State, r: State, t: Tid) {
    && s.ThreadOf(t).Saving? && r.ThreadOf(t).Saving? && r.ThreadOf(t).entry == s.ThreadOf(t).entry
    && WillWork(r, r.ThreadOf(t).stage) == WillWork(s, s.ThreadOf(t).stage)
    && r.mem == s.mem && r.calls == s.calls && r.lock == s.lock && r.returned == s.returned
    && forall u :: u != t ==> r.ThreadOf(u) == s.ThreadOf(u)
  }

  lemma SaveGoesOn(codec: Codec, s: State, a: Action)
    requires codec.Lawful() && Enabled(s, a) && s.ThreadOf(a.t).Saving? && Internal(a)
    requires !a.Fail? && !a.Return? && s.mem == s.After(|s.calls|)
    ensures GoesOn(s, Next(codec, s, a), a.t)
  {
    if a.TakeSnapshot? {
      SnapshotHolds(codec, s, a.listing);
    }
    forall u: Tid | u != a.t ensures Next(codec, s, a).ThreadOf(u) == s.ThreadOf(u) {
      OthersKept(codec, s, a, u);
    }
    StillSaving(codec, s, a);
  }

  lemma StillSaving(codec: Codec, s: State, a: Action)
    requires Enabled(s, a) && s.ThreadOf(a.t).Saving? && Internal(a) && !a.Fail? && !a.Return?
    ensures
      var r := Next(codec, s, a);
      && r.ThreadOf(a.t).Saving? && r.ThreadOf(a.t).entry == s.ThreadOf(a.t).entry
      && r.mem == s.mem && r.calls == s.calls && r.lock == s.lock && r.returned == s.returned
  {
  }

  /** Thread t, which was saving in s, is back, and so is the lock if it held it. */
  ghost predicate Returned(s: State, r: State, t: Tid, ok: bool) {
    && s.ThreadOf(t).Saving? && r.ThreadOf(t).Idle? && r.mem == s.mem && r.calls == s.calls
    && (var entry := s.ThreadOf(t).entry;
        if entry.Some? then r.lock.None? && entry.value in r.returned && r.returned[entry.value] == ok
        else r.lock == s.lock && r.returned == s.returned)
    && forall u :: u != t ==> r.ThreadOf(u) == s.ThreadOf(u)
  }

  lemma ReturnStep(codec: Codec, s: State, t: Tid)
    requires Enabled(s, Return(t))
    ensures Returned(s, Next(codec, s, Return(t)), t, s.ThreadOf(t).stage.ok)
  {
    forall u: Tid | u != t ensures Next(codec, s, Return(t)).ThreadOf(u) == s.ThreadOf(u) {
      OthersKept(codec, s, Return(t), u);
    }
  }

  lemma ReturnedFrom(s: State, s1: State, r: State, t: Tid, ok: bool)
    requires GoesOn(s, s1, t) && Returned(s1, r, t, ok)
    ensures Returned(s, r, t, ok)
  {
  }

  predicate OnlyThread(acts: seq<Action>, t: Tid) {
    forall i :: 0 <= i < |acts| ==> acts[i].t == t && Internal(acts[i])
  }

  /**
   Wherever a save stands, also when it has failed, its thread can finish on its own: it comes
   back, gives the lock back, and its call has returned, with success unless the snapshot
   cannot be encoded or a fault has already happened.
   */
  lemma {:induction false} SaveReturns(codec: Codec, s: State, t: Tid) returns (acts: seq<Action>)
    requires codec.Lawful() && Inv(codec, s) && s.ThreadOf(t).Saving?
    ensures ValidRun(codec, s, acts) && OnlyThread(acts, t)
    ensures Returned(s, Run(codec, s, acts), t, WillWork(s, s.ThreadOf(t).stage))
    decreases Phase(s.ThreadOf(t)), Left(s.ThreadOf(t))
  {
    var a := OwnStep(codec, s, t);
    var s1 := Next(codec, s, a);
    if a.Return? {
      ReturnStep(codec, s, t);
      OneStep(codec, s, a);
      acts := [a];
    } else {
      StepDecreases(codec, s, a);
      StepKeepsInv(codec, s, a);
      SaveGoesOn(codec, s, a);
      var rest := SaveReturns(codec, s1, t);
      ReturnsLater(codec, s, a, rest, WillWork(s, s.ThreadOf(t).stage));
      acts := [a] + rest;
    }
  }

  lemma ReturnsLater(codec: Codec, s: State, a: Action, rest: seq<Action>, ok: bool)
    requires Enabled(s, a) && Internal(a) && GoesOn(s, Next(codec, s, a), a.t) && OnlyThread(rest, a.t)
    requires ValidRun(codec, Next(codec, s, a), rest)
    requires Returned(Next(codec, s, a), Run(codec, Next(codec, s, a), rest), a.t, ok)
    ensures ValidRun(codec, s, [a] + rest) && OnlyThread([a] + rest, a.t)
    ensures Returned(s, Run(codec, s, [a] + rest), a.t, ok)
  {
    var s1 := Next(codec, s, a);
    StepFirst(codec, s, a, rest);
    ReturnedFrom(s, s1, Run(codec, s1, rest), a.t, ok);
  }

  /** A fault can strike at every file operation; the call then returns all the same, the file as it was. */
  lemma FaultReturns(codec: Codec, s: State, t: Tid, removed: bool)
    requires s.ThreadOf(t).Saving?
    requires
      var stage := s.ThreadOf(t).stage;
      stage.Creating? || stage.Writing? || stage.Renaming?
    ensures
      var acts := [Fail(t, removed)] + [Return(t)];
      && ValidRun(codec, s, acts)
      && var r := Run(codec, s, acts);
         && Returned(s, r, t, false) && r.disk.main == s.disk.main
         && r.disk.temps == if removed && s.ThreadOf(t).Tmp().Some?
                            then s.disk.temps - {s.ThreadOf(t).Tmp().value} else s.disk.temps
  {
    var s1 := Next(codec, s, Fail(t, removed));
    assert s1.ThreadOf(t) == Saving(s.ThreadOf(t).entry, Done(false)) && s1.disk.main == s.disk.main;
    forall u: Tid | u != t ensures s1.ThreadOf(u) == s.ThreadOf(u) {
      OthersKept(codec, s, Fail(t, removed), u);
    }
    ReturnStep(codec, s1, t);
    OneStep(codec, s1, Return(t));
    StepFirst(codec, s, Fail(t, removed), [Return(t)]);
  }

  /** The lock is held by a thread that saves. */
  lemma HolderSaves(codec: Codec, s: State)
    requires Inv(codec, s) && s.lock.Some?
    ensures s.ThreadOf(s.lock.value).Saving? && s.ThreadOf(s.lock.value).entry.Some?
  {
    assert ThreadOk(codec, s, s.lock.value);
  }

  lemma AcquireStep(codec: Codec, s: State, t: Tid)
    requires s.ThreadOf(t).Waiting? && s.lock.None?
    ensures Enabled(s, Acquire(t))
    ensures
      var r := Next(codec, s, Acquire(t));
      r.ThreadOf(t) == Saving(Some(s.ThreadOf(t).i), Snapshotting) && r.mem == s.mem
  {
  }

  /**
   A call that waits for the lock can always be served: its holder finishes, then the call
   acquires the lock, saves and returns; with success exactly if memory is finite.
   */
  lemma WaitingReturns(codec: Codec, s: State, t: Tid) returns (acts: seq<Action>)
    requires codec.Lawful() && Inv(codec, s) && s.ThreadOf(t).Waiting?
    ensures ValidRun(codec, s, acts)
    ensures
      var r, i := Run(codec, s, acts), s.ThreadOf(t).i;
      && r.ThreadOf(t).Idle? && r.lock.None? && r.mem == s.mem
      && i in r.returned && r.returned[i] == s.mem.Finite()
  {
    var first := LockFreed(codec, s, t);
    var s1 := Run(codec, s, first);
    AcquireStep(codec, s1, t);
    var s2 := Next(codec, s1, Acquire(t));
    RunKeepsInv(codec, s, first);
    StepKeepsInv(codec, s1, Acquire(t));
    var rest := SaveReturns(codec, s2, t);
    StepFirst(codec, s1, Acquire(t), rest);
    RunConcat(codec, s, first, [Acquire(t)] + rest);
    acts := first + ([Acquire(t)] + rest);
  }

  lemma LockFreed(codec: Codec, s: State, t: Tid) returns (acts: seq<Action>)
    requires codec.Lawful() && Inv(codec, s) && s.ThreadOf(t).Waiting?
    ensures ValidRun(codec, s, acts)
    ensures
      var r := Run(codec, s, acts);
      r.lock.None? && r.mem == s.mem && r.ThreadOf(t) == s.ThreadOf(t)
  {
    if s.lock.None? {
      acts := [];
    } else {
      HolderSaves(codec, s);
      acts := SaveReturns(codec, s, s.lock.value);
    }
  }

  /**
   Nothing makes an update wait: whatever the others are doing and whoever holds the lock, a
   request reaches memory at once, and a save without the lock can begin.
   */
  lemma UpdatesNeverWait(codec: Codec, s: State, t: Tid, c: Call)
    requires s.ThreadOf(t).Idle?
    ensures Enabled(s, Invoke(t, c)) && Enabled(s, StartBackground(t))
    ensures
      var r := Next(codec, s, Invoke(t, c));
      && r.mem == Perform(s.mem, c) && r.calls == s.calls + [c] && r.disk == s.disk && r.lock == s.lock
      && r.ThreadOf(t) == if c.Failure().None? then Waiting(|s.calls|) else Idle
    ensures Next(codec, s, StartBackground(t)).ThreadOf(t) == Saving(None, Snapshotting)
  {
  }

  // ---- Temporary files -------------------------------------------------------------------------------

  /** A thread that saves is still using this temporary file. */
  predicate InUse(s: State, name: nat) {
    exists t :: t in s.threads && s.threads[t].Tmp() == Some(name)
  }

  predicate AllInUse(s: State) {
    forall name :: name in s.disk.temps ==> InUse(s, name)
  }

  /** Every removal after a fault works. */
  predicate Removes(acts: seq<Action>) {
    forall i :: 0 <= i < |acts| ==> (acts[i].Fail? ==> acts[i].removed)
  }

  lemma TempStep(codec: Codec, s: State, a: Action, name: nat)
    requires Enabled(s, a) && (a.Fail? ==> a.removed) && AllInUse(s) && name in Next(codec, s, a).disk.temps
    ensures InUse(Next(codec, s, a), name)
  {
    var r := Next(codec, s, a);
    if a.CreateTemp? && a.name == name {
      assert r.threads[a.t].Tmp() == Some(name);
    } else {
      TempWasThere(codec, s, a, name);
      var t :| t in s.threads && s.threads[t].Tmp() == Some(name);
      if t == a.t {
        OwnTempKept(codec, s, a, name);
        assert r.threads[t].Tmp() == Some(name);
      } else {
        OthersKept(codec, s, a, t);
        assert r.threads[t].Tmp() == Some(name);
      }
    }
  }

  lemma TempWasThere(codec: Codec, s: State, a: Action, name: nat)
    requires Enabled(s, a) && AllInUse(s) && name in Next(codec, s, a).disk.temps && !(a.CreateTemp? && a.name == name)
    ensures InUse(s, name)
  {
    if a.Write? {
      assert s.threads[a.t].Tmp() == Some(s.ThreadOf(a.t).stage.tmp);
    }
  }

  lemma OwnTempKept(codec: Codec, s: State, a: Action, name: nat)
    requires Enabled(s, a) && (a.Fail? ==> a.removed) && name in Next(codec, s, a).disk.temps
    requires a.t in s.threads && s.threads[a.t].Tmp() == Some(name)
    ensures a.t in Next(codec, s, a).threads && Next(codec, s, a).threads[a.t].Tmp() == Some(name)
  {
  }

  /** If removals work, saves leave no temporary file behind: in every run each one is in use, and none at rest. */
  lemma {:induction false} NoLitter(codec: Codec, file: Option<Bytes>, restore: bool, acts: seq<Action>)
    requires ValidRun(codec, Init(codec, file, restore), acts) && Removes(acts)
    ensures
      var r := Run(codec, Init(codec, file, restore), acts);
      AllInUse(r) && (r.Quiescent() ==> r.disk.temps == map[])
  {
    var s0 := Init(codec, file, restore);
    if acts == [] {
    } else {
      var before, a := acts[..|acts| - 1], acts[|acts| - 1];
      NoLitter(codec, file, restore, before);
      forall name | name in Run(codec, s0, acts).disk.temps ensures InUse(Run(codec, s0, acts), name) {
        TempStep(codec, Run(codec, s0, before), a, name);
      }
      NoneAtRest(Run(codec, s0, acts));
    }
  }

  lemma NoneAtRest(s: State)
    requires AllInUse(s)
    ensures s.Quiescent() ==> s.disk.temps == map[]
  {
    assert s.Quiescent() ==> forall name :: name in s.disk.temps ==> !InUse(s, name);
  }

  // ---- The server comes to rest ------------------------------------------------------------------------

  /** Unless all threads are idle, some step of a begun request or save is possible. */
  lemma NotStuck(codec: Codec, s: State) returns (a: Action)
    requires codec.Lawful() && Inv(codec, s) && !s.Quiescent()
    ensures Enabled(s, a) && Internal(a) && !a.Fail?
  {
    var t :| t in s.threads && !s.threads[t].Idle?;
    if s.threads[t].Saving? {
      a := OwnStep(codec, s, t);
    } else if s.lock.None? {
      a := Acquire(t);
    } else {
      HolderSaves(codec, s);
      a := OwnStep(codec, s, s.lock.value);
    }
  }

  /** Sums over the threads numbered below n. */
  function Phases(s: State, n: nat): nat {
    if n == 0 then 0 else Phases(s, n - 1) + Phase(s.ThreadOf(n - 1))
  }

  function Lefts(s: State, n: nat): nat {
    if n == 0 then 0 else Lefts(s, n - 1) + Left(s.ThreadOf(n - 1))
  }

  lemma {:induction false} SumsMove(s: State, s': State, t: Tid, n: nat)
    requires forall u :: u != t ==> s'.ThreadOf(u) == s.ThreadOf(u)
    ensures Phases(s', n) == Phases(s, n) + if t < n then Phase(s'.ThreadOf(t)) - Phase(s.ThreadOf(t)) else 0
    ensures Lefts(s', n) == Lefts(s, n) + if t < n then Left(s'.ThreadOf(t)) - Left(s.ThreadOf(t)) else 0
  {
    if n == 0 {
    } else {
      SumsMove(s, s', t, n - 1);
    }
  }

  /** Every internal step makes the two sums lexicographically smaller. */
  lemma WorkDecreases(codec: Codec, s: State, a: Action, n: nat)
    requires Enabled(s, a) && Internal(a) && forall t :: t in s.threads ==> t < n
    ensures
      var s' := Next(codec, s, a);
      Phases(s', n) < Phases(s, n) || (Phases(s', n) == Phases(s, n) && Lefts(s', n) < Lefts(s, n))
  {
    forall u: Tid | u != a.t ensures Next(codec, s, a).ThreadOf(u) == s.ThreadOf(u) {
      OthersKept(codec, s, a, u);
    }
    StepDecreases(codec, s, a);
    SumsMove(s, Next(codec, s, a), a.t, n);
  }

  ghost predicate Bounded(codec: Codec, s: State, n: nat) {
    Inv(codec, s) && forall t :: t in s.threads ==> t < n
  }

  lemma OneLess(codec: Codec, s: State, a: Action, r: State, n: nat)
    requires codec.Lawful() && Bounded(codec, s, n) && Enabled(s, a) && Internal(a) && r == Next(codec, s, a)
    ensures Bounded(codec, r, n)
    ensures Phases(r, n) < Phases(s, n) || (Phases(r, n) == Phases(s, n) && Lefts(r, n) < Lefts(s, n))
  {
    StepKeepsInv(codec, s, a);
    StepDecreases(codec, s, a);
    WorkDecreases(codec, s, a, n);
  }

  /** All threads are idle, and every call that did not fail has returned. */
  predicate AtRest(s: State) {
    && s.Quiescent()
    && forall c :: 0 <= c < |s.calls| ==> s.calls[c].Failure().Some? || c in s.returned
  }

  /** r follows s by a step of a request or a save that has begun. */
  ghost predicate Moves(codec: Codec, s: State, r: State) {
    exists a :: Enabled(s, a) && Internal(a) && r == Next(codec, s, a)
  }

  /** State number j is followed by such a step, or all threads are idle. */
  ghost predicate MovesAt(codec: Codec, f: nat -> State, j: nat) {
    f(j).Quiescent() || Moves(codec, f(j), f(j + 1))
  }

  ghost predicate NoNewRequests(codec: Codec, f: nat -> State, i: nat) {
    forall j: nat :: j >= i ==> MovesAt(codec, f, j)
  }

  lemma MoveIsLess(codec: Codec, s: State, r: State, n: nat)
    requires codec.Lawful() && Bounded(codec, s, n) && Moves(codec, s, r)
    ensures Bounded(codec, r, n)
    ensures Phases(r, n) < Phases(s, n) || (Phases(r, n) == Phases(s, n) && Lefts(r, n) < Lefts(s, n))
  {
    var a :| Enabled(s, a) && Internal(a) && r == Next(codec, s, a);
    OneLess(codec, s, a, r, n);
  }

  /**
   However the threads interleave and whatever faults strike: once no new requests come, the
   server reaches a state in which all threads are idle and every call that did not fail has
   returned. n bounds the thread numbers.
   */
  lemma {:induction false} ComesToRest(codec: Codec, f: nat -> State, i: nat, n: nat) returns (k: nat)
    requires codec.Lawful() && Bounded(codec, f(i), n) && NoNewRequests(codec, f, i)
    ensures k >= i && AtRest(f(k))
    decreases Phases(f(i), n), Lefts(f(i), n)
  {
    assert MovesAt(codec, f, i);
    if f(i).Quiescent() {
      k := i;
      AllReturned(codec, f(i));
    } else {
      MoveIsLess(codec, f(i), f(i + 1), n);
      k := ComesToRest(codec, f, i + 1, n);
    }
  }

  lemma AllReturned(codec: Codec, s: State)
    requires Inv(codec, s) && s.Quiescent()
    ensures AtRest(s)
  {
    forall c | 0 <= c < |s.calls| ensures s.calls[c].Failure().Some? || c in s.returned {
      assert Accounted(s, c);
      forall t ensures !Pending(s, t, c) {
        assert s.ThreadOf(t).Idle?;
      }
    }
  }
}
