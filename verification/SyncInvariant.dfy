/** The invariant of the synchronous persistence machine, and that every step keeps it. */
module SyncInvariant {
  import opened Model
  import opened Storage
  import opened Snapshot
  import opened SyncMachine

  /** data is the file of the state after the first n calls. */
  ghost predicate Holds(codec: Codec, s: State, data: Bytes, n: nat) {
    n <= |s.calls| && Recover(codec, EMPTY_STORE, Some(data)) == s.After(n)
  }

  /** A snapshot taken under the lock covers its own call and every earlier locked save. */
  predicate Ordered(s: State, entry: Option<nat>, n: nat) {
    entry.Some? ==> entry.value < n && s.synced <= n
  }

  ghost predicate StageOk(codec: Codec, s: State, entry: Option<nat>, stage: Stage) {
    match stage
    case Snapshotting => true
    case Creating(n, data) => Holds(codec, s, data, n) && Ordered(s, entry, n)
    case Writing(n, data, tmp, w) =>
      Holds(codec, s, data, n) && Ordered(s, entry, n) &&
      w <= |data| && tmp in s.disk.temps && s.disk.temps[tmp] == data[..w]
    case Renaming(n, data, tmp) =>
      Holds(codec, s, data, n) && Ordered(s, entry, n) &&
      tmp in s.disk.temps && s.disk.temps[tmp] == data
    case Done(ok) =>
      (ok && entry.Some? ==> entry.value < s.synced) && (!ok ==> s.ioFault || s.unencodable)
  }

  ghost predicate ThreadOk(codec: Codec, s: State, t: Tid) {
    match s.ThreadOf(t)
    case Idle => s.lock != Some(t)
    case Waiting(i) => i < |s.calls| && s.lock != Some(t)
    case Saving(entry, stage) =>
      && (entry.Some? <==> s.lock == Some(t))
      && (entry.Some? ==> entry.value < |s.calls|)
      && StageOk(codec, s, entry, stage)
  }

  predicate SeparateTemps(s: State) {
    forall t, u :: t in s.threads && u in s.threads && t != u && s.threads[t].Tmp().Some? ==>
      s.threads[t].Tmp() != s.threads[u].Tmp()
  }

  ghost predicate FileOk(codec: Codec, s: State) {
    && s.synced <= |s.calls|
    && match s.origin
       case Initial => s.disk.main == s.file0 && s.synced == 0
       case BySync(n) => s.disk.main.Some? && Holds(codec, s, s.disk.main.value, n) && n == s.synced
       case ByBackground(n) => s.disk.main.Some? && Holds(codec, s, s.disk.main.value, n)
  }

  predicate ReturnedOk(s: State) {
    forall i :: i in s.returned ==>
      && i < |s.calls|
      && (s.returned[i] ==> i < s.synced)
      && (!s.returned[i] ==> s.ioFault || s.unencodable)
  }

  predicate Pending(s: State, t: Tid, i: nat) {
    s.ThreadOf(t) == Waiting(i) || (s.ThreadOf(t).Saving? && s.ThreadOf(t).entry == Some(i))
  }

  ghost predicate Accounted(s: State, i: nat)
    requires i < |s.calls|
  {
    s.calls[i].Failure().Some? || i in s.returned || exists t :: Pending(s, t, i)
  }

  ghost predicate Inv(codec: Codec, s: State) {
    && s.mem == s.After(|s.calls|)
    && (forall t :: ThreadOk(codec, s, t))
    && SeparateTemps(s)
    && FileOk(codec, s)
    && ReturnedOk(s)
    && (forall i :: 0 <= i < |s.calls| ==> Accounted(s, i))
    && (s.unencodable ==> exists n: nat :: n <= |s.calls| && !s.After(n).Finite())
  }

  // ---- Every step keeps it ----------------------------------------------------------------

  /** What no step undoes. */
  predicate Extends(s: State, s': State) {
    && s'.start == s.start && s'.file0 == s.file0
    && s.calls <= s'.calls && s.synced <= s'.synced
    && (s.ioFault ==> s'.ioFault) && (s.unencodable ==> s'.unencodable)
  }

  lemma AfterStable(s: State, s': State, n: nat)
    requires Extends(s, s') && n <= |s.calls|
    ensures n <= |s'.calls| && s'.After(n) == s.After(n)
  {
    assert s'.calls[..n] == s.calls[..n];
  }

  lemma MemAfterAll(codec: Codec, s: State, a: Action)
    requires Enabled(s, a) && s.mem == s.After(|s.calls|)
    ensures var s' := Next(codec, s, a); s'.mem == s'.After(|s'.calls|)
  {
    if a.Invoke? {
      MemAfterCall(s.start, s.calls, a.call);
    } else {
      MemUntouched(codec, s, a);
    }
  }

  lemma MemAfterCall(s: Store, calls: seq<Call>, c: Call)
    ensures var more := calls + [c];
      PerformAll(s, more[..|more|]) == Perform(PerformAll(s, calls[..|calls|]), c)
  {
    var more := calls + [c];
    assert more[..|more|] == more && more[..|more| - 1] == calls == calls[..|calls|];
  }

  lemma MemUntouched(codec: Codec, s: State, a: Action)
    requires Enabled(s, a) && !a.Invoke?
    ensures var s' := Next(codec, s, a); s'.mem == s.mem && s'.calls == s.calls && s'.start == s.start
  {
  }

  /** The lock is free or its holder is the only one whose save can move `synced`. */
  lemma SyncedGrows(codec: Codec, s: State, a: Action)
    requires Enabled(s, a) && ThreadOk(codec, s, a.t)
    ensures Extends(s, Next(codec, s, a))
    ensures Next(codec, s, a).synced != s.synced ==> s.lock == Some(a.t)
  {
  }

  lemma StageStable(codec: Codec, s: State, s': State, entry: Option<nat>, stage: Stage)
    requires Extends(s, s') && StageOk(codec, s, entry, stage)
    requires entry.Some? ==> s'.synced == s.synced || stage.Done?
    requires var tmp := stage.Tmp();
      tmp.Some? && tmp.value in s.disk.temps ==>
        tmp.value in s'.disk.temps && s'.disk.temps[tmp.value] == s.disk.temps[tmp.value]
    ensures StageOk(codec, s', entry, stage)
  {
    if stage.Creating? || stage.Writing? || stage.Renaming? {
      AfterStable(s, s', stage.n);
    }
  }

  lemma OtherThread(codec: Codec, s: State, a: Action, u: Tid)
    requires Enabled(s, a) && u != a.t && ThreadOk(codec, s, a.t) && ThreadOk(codec, s, u) && SeparateTemps(s)
    ensures ThreadOk(codec, Next(codec, s, a), u)
  {
    var s' := Next(codec, s, a);
    SyncedGrows(codec, s, a);
    LockMoves(codec, s, a, u);
    if s.ThreadOf(u).Saving? {
      TempsKept(codec, s, a, u);
      StageStable(codec, s, s', s.ThreadOf(u).entry, s.ThreadOf(u).stage);
    }
  }

  lemma LockMoves(codec: Codec, s: State, a: Action, u: Tid)
    requires Enabled(s, a) && u != a.t && ThreadOk(codec, s, a.t)
    ensures var s' := Next(codec, s, a);
      (s'.lock == Some(u) <==> s.lock == Some(u)) && s'.ThreadOf(u) == s.ThreadOf(u)
  {
  }

  lemma TempsKept(codec: Codec, s: State, a: Action, u: Tid)
    requires Enabled(s, a) && u != a.t && SeparateTemps(s)
    ensures
      var s', tmp := Next(codec, s, a), s.ThreadOf(u).Tmp();
      tmp.Some? && tmp.value in s.disk.temps ==>
        tmp.value in s'.disk.temps && s'.disk.temps[tmp.value] == s.disk.temps[tmp.value]
  {
  }

  /** A snapshot that marshals is a faithful file of memory; one that does not is unencodable. */
  lemma SnapshotHolds(codec: Codec, s: State, ms: seq<Metric>)
    requires codec.Lawful() && IsSnapshot(ms, s.mem) && s.mem == s.After(|s.calls|)
    ensures codec.marshal(ms).Some? ==> Holds(codec, s, codec.marshal(ms).value, |s.calls|)
    ensures codec.marshal(ms).None? <==> !s.mem.Finite()
  {
    SaveThenLoad(codec, ms, s.mem, EMPTY_STORE);
  }

  lemma ActingThread(codec: Codec, s: State, a: Action)
    requires codec.Lawful() && Enabled(s, a) && ThreadOk(codec, s, a.t)
    requires s.mem == s.After(|s.calls|) && s.synced <= |s.calls|
    ensures ThreadOk(codec, Next(codec, s, a), a.t)
  {
    var s' := Next(codec, s, a);
    SyncedGrows(codec, s, a);
    match a
    case TakeSnapshot(_, ms) =>
      SnapshotHolds(codec, s, ms);
      SnapshotStep(codec, s, a);
    case CreateTemp(_, _) => AfterStable(s, s', s.ThreadOf(a.t).stage.n);
    case Write(_, _) => AfterStable(s, s', s.ThreadOf(a.t).stage.n);
    case CloseTemp(_) => CloseStep(codec, s, a);
    case Rename(_) =>
    case _ =>
  }

  lemma SnapshotStep(codec: Codec, s: State, a: Action)
    requires Enabled(s, a) && ThreadOk(codec, s, a.t) && a.TakeSnapshot? && s.synced <= |s.calls|
    requires codec.marshal(a.listing).Some? ==> Holds(codec, s, codec.marshal(a.listing).value, |s.calls|)
    ensures ThreadOk(codec, Next(codec, s, a), a.t)
  {
    var s' := Next(codec, s, a);
    SyncedGrows(codec, s, a);
    AfterStable(s, s', |s.calls|);
  }

  lemma CloseStep(codec: Codec, s: State, a: Action)
    requires Enabled(s, a) && ThreadOk(codec, s, a.t) && a.CloseTemp?
    ensures ThreadOk(codec, Next(codec, s, a), a.t)
  {
    var stage := s.ThreadOf(a.t).stage;
    SyncedGrows(codec, s, a);
    AfterStable(s, Next(codec, s, a), stage.n);
    assert stage.data[..stage.written] == stage.data;
  }

  lemma TempsStaySeparate(codec: Codec, s: State, a: Action)
    requires Enabled(s, a) && SeparateTemps(s) && forall t :: ThreadOk(codec, s, t)
    ensures SeparateTemps(Next(codec, s, a))
  {
    if a.CreateTemp? {
      NewTempSeparate(codec, s, a);
    } else {
      TempsPassOn(codec, s, a);
    }
  }

  lemma NewTempSeparate(codec: Codec, s: State, a: Action)
    requires Enabled(s, a) && SeparateTemps(s) && a.CreateTemp? && forall t :: ThreadOk(codec, s, t)
    ensures SeparateTemps(Next(codec, s, a))
  {
    forall u | u in s.threads && s.threads[u].Tmp().Some?
      ensures s.threads[u].Tmp().value != a.name
    {
      assert ThreadOk(codec, s, u);
    }
  }

  lemma TempsPassOn(codec: Codec, s: State, a: Action)
    requires Enabled(s, a) && SeparateTemps(s) && !a.CreateTemp?
    ensures SeparateTemps(Next(codec, s, a))
  {
    var s' := Next(codec, s, a);
    forall u | u in s'.threads ensures TmpFrom(s, s', u) {
      TempPassedOn(codec, s, a, u);
    }
    InheritedSeparate(s, s');
  }

  predicate TmpFrom(s: State, s': State, u: Tid) {
    var tmp := s'.ThreadOf(u).Tmp();
    tmp.Some? ==> tmp == s.ThreadOf(u).Tmp()
  }

  lemma TempPassedOn(codec: Codec, s: State, a: Action, u: Tid)
    requires Enabled(s, a) && !a.CreateTemp?
    ensures TmpFrom(s, Next(codec, s, a), u)
  {
  }

  lemma InheritedSeparate(s: State, s': State)
    requires SeparateTemps(s) && forall u :: u in s'.threads ==> TmpFrom(s, s', u)
    ensures SeparateTemps(s')
  {
    forall t, u | t in s'.threads && u in s'.threads && t != u && s'.threads[t].Tmp().Some?
      ensures s'.threads[t].Tmp() != s'.threads[u].Tmp()
    {
      assert TmpFrom(s, s', t) && TmpFrom(s, s', u);
    }
  }

  lemma FileStep(codec: Codec, s: State, a: Action)
    requires Enabled(s, a) && ThreadOk(codec, s, a.t) && FileOk(codec, s)
    ensures FileOk(codec, Next(codec, s, a))
  {
    if a.Rename? {
      RenameStep(codec, s, a);
    } else {
      FileKept(codec, s, a);
    }
  }

  lemma RenameStep(codec: Codec, s: State, a: Action)
    requires Enabled(s, a) && ThreadOk(codec, s, a.t) && FileOk(codec, s) && a.Rename?
    ensures FileOk(codec, Next(codec, s, a))
  {
    SyncedGrows(codec, s, a);
    AfterStable(s, Next(codec, s, a), s.ThreadOf(a.t).stage.n);
  }

  lemma FileKept(codec: Codec, s: State, a: Action)
    requires Enabled(s, a) && ThreadOk(codec, s, a.t) && FileOk(codec, s) && !a.Rename?
    ensures FileOk(codec, Next(codec, s, a))
  {
    SyncedGrows(codec, s, a);
    if !s.origin.Initial? {
      AfterStable(s, Next(codec, s, a), s.origin.n);
    }
  }

  lemma ReturnedStep(codec: Codec, s: State, a: Action)
    requires Enabled(s, a) && ThreadOk(codec, s, a.t) && ReturnedOk(s)
    ensures ReturnedOk(Next(codec, s, a))
  {
    SyncedGrows(codec, s, a);
  }

  lemma AccountedStep(codec: Codec, s: State, a: Action, i: nat)
    requires Enabled(s, a) && i < |s.calls| && Accounted(s, i)
    ensures Accounted(Next(codec, s, a), i)
  {
    var s' := Next(codec, s, a);
    if s.calls[i].Failure().None? && i !in s.returned {
      var t :| Pending(s, t, i);
      if t != a.t || !a.Return? {
        assert Pending(s', t, i);
      }
    }
  }

  lemma NewCallAccounted(codec: Codec, s: State, a: Action)
    requires Enabled(s, a) && a.Invoke?
    ensures Accounted(Next(codec, s, a), |s.calls|)
  {
    var s' := Next(codec, s, a);
    if a.call.Failure().None? {
      assert Pending(s', a.t, |s.calls|);
    }
  }

  lemma UnencodableStep(codec: Codec, s: State, a: Action)
    requires codec.Lawful() && Enabled(s, a) && ThreadOk(codec, s, a.t) && s.mem == s.After(|s.calls|)
    requires s.unencodable ==> exists n: nat :: n <= |s.calls| && !s.After(n).Finite()
    ensures var s' := Next(codec, s, a);
      s'.unencodable ==> exists n: nat :: n <= |s'.calls| && !s'.After(n).Finite()
  {
    var s' := Next(codec, s, a);
    SyncedGrows(codec, s, a);
    if s'.unencodable {
      var n: nat;
      if s.unencodable {
        n :| n <= |s.calls| && !s.After(n).Finite();
      } else {
        SnapshotHolds(codec, s, a.listing);
        n := |s.calls|;
      }
      AfterStable(s, s', n);
    }
  }

  lemma StepKeepsInv(codec: Codec, s: State, a: Action)
    requires codec.Lawful() && Enabled(s, a) && Inv(codec, s)
    ensures Inv(codec, Next(codec, s, a))
  {
    var s' := Next(codec, s, a);
    assert ThreadOk(codec, s, a.t);
    MemAfterAll(codec, s, a);
    ThreadsStep(codec, s, a);
    TempsStaySeparate(codec, s, a);
    FileStep(codec, s, a);
    ReturnedStep(codec, s, a);
    AllAccounted(codec, s, a);
    UnencodableStep(codec, s, a);
  }

  lemma ThreadsStep(codec: Codec, s: State, a: Action)
    requires codec.Lawful() && Enabled(s, a) && Inv(codec, s)
    ensures forall t :: ThreadOk(codec, Next(codec, s, a), t)
  {
    forall t ensures ThreadOk(codec, Next(codec, s, a), t) {
      assert ThreadOk(codec, s, a.t) && ThreadOk(codec, s, t);
      if t == a.t {
        ActingThread(codec, s, a);
      } else {
        OtherThread(codec, s, a, t);
      }
    }
  }

  lemma AllAccounted(codec: Codec, s: State, a: Action)
    requires Enabled(s, a) && forall i :: 0 <= i < |s.calls| ==> Accounted(s, i)
    ensures var s' := Next(codec, s, a); forall i :: 0 <= i < |s'.calls| ==> Accounted(s', i)
  {
    var s' := Next(codec, s, a);
    forall i | 0 <= i < |s'.calls| ensures Accounted(s', i) {
      if i < |s.calls| {
        AccountedStep(codec, s, a, i);
      } else {
        NewCallAccounted(codec, s, a);
      }
    }
  }

  lemma {:induction false} RunKeepsInv(codec: Codec, s: State, acts: seq<Action>)
    requires codec.Lawful() && Inv(codec, s) && ValidRun(codec, s, acts)
    ensures Inv(codec, Run(codec, s, acts))
  {
    if acts == [] {
    } else {
      var before := acts[..|acts| - 1];
      RunKeepsInv(codec, s, before);
      StepKeepsInv(codec, Run(codec, s, before), acts[|acts| - 1]);
    }
  }

  lemma InitHasInv(codec: Codec, file: Option<Bytes>, restore: bool)
    ensures Inv(codec, Init(codec, file, restore))
  {
  }

  lemma {:induction false} RunExtends(codec: Codec, s: State, acts: seq<Action>)
    requires codec.Lawful() && Inv(codec, s) && ValidRun(codec, s, acts)
    ensures Extends(s, Run(codec, s, acts))
  {
    if acts == [] {
    } else {
      var before := acts[..|acts| - 1];
      RunExtends(codec, s, before);
      RunKeepsInv(codec, s, before);
      assert ThreadOk(codec, Run(codec, s, before), acts[|acts| - 1].t);
      SyncedGrows(codec, Run(codec, s, before), acts[|acts| - 1]);
    }
  }
}
