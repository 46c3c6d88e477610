/**
 What synchronous persistence guarantees over whole runs: crash recovery, durability of
 acknowledged calls, monotone saves, quiescence, and the runs where a promise breaks.
 */
module SyncPersist {
  import opened Model
  import opened Storage
  import opened Snapshot
  import opened SyncMachine
  import opened SyncInvariant

  // ---- Crash recovery ---------------------------------------------------------------------

  /**
   Crash anywhere, restart from the main file: what comes back is exactly memory after some
   prefix of the calls, never a torn or mixed state. Until the first save the file is still
   the one the server found, which is the empty prefix when the server restored from it.
   */
  lemma CrashRecovery(codec: Codec, file: Option<Bytes>, restore: bool, acts: seq<Action>)
    requires codec.Lawful() && ValidRun(codec, Init(codec, file, restore), acts)
    ensures
      var s := Run(codec, Init(codec, file, restore), acts);
      && s.Covered() <= |s.calls| && s.mem == s.After(|s.calls|)
      && (s.origin.Initial? ==> s.disk.main == file)
      && (restore || !s.origin.Initial? ==>
            Recover(codec, EMPTY_STORE, s.disk.main) == s.After(s.Covered()))
  {
    var s0 := Init(codec, file, restore);
    InitHasInv(codec, file, restore);
    RunKeepsInv(codec, s0, acts);
    RunExtends(codec, s0, acts);
  }

  /**
   A call that returned after a successful save is covered by the file, unless a save that
   took no lock has since put an older snapshot in its place.
   */
  lemma AcknowledgedIsCovered(codec: Codec, file: Option<Bytes>, restore: bool, acts: seq<Action>, i: nat)
    requires codec.Lawful() && ValidRun(codec, Init(codec, file, restore), acts)
    requires var s := Run(codec, Init(codec, file, restore), acts); i in s.returned && s.returned[i]
    ensures
      var s := Run(codec, Init(codec, file, restore), acts);
      i < s.synced && (i < s.Covered() || (s.origin.ByBackground? && s.origin.n <= i))
  {
    InitHasInv(codec, file, restore);
    RunKeepsInv(codec, Init(codec, file, restore), acts);
  }

  predicate SyncOnly(acts: seq<Action>) {
    forall i :: 0 <= i < |acts| ==> !acts[i].StartBackground?
  }

  predicate NoBackground(s: State) {
    && !s.origin.ByBackground?
    && forall t :: t in s.threads && s.threads[t].Saving? ==> s.threads[t].entry.Some?
  }

  lemma NoBackgroundStep(codec: Codec, s: State, a: Action)
    requires Enabled(s, a) && NoBackground(s) && !a.StartBackground?
    ensures NoBackground(Next(codec, s, a))
  {
  }

  lemma {:induction false} SyncOnlyRun(codec: Codec, s: State, acts: seq<Action>)
    requires ValidRun(codec, s, acts) && NoBackground(s) && SyncOnly(acts)
    ensures NoBackground(Run(codec, s, acts))
  {
    if acts == [] {
    } else {
      SyncOnlyRun(codec, s, acts[..|acts| - 1]);
      NoBackgroundStep(codec, Run(codec, s, acts[..|acts| - 1]), acts[|acts| - 1]);
    }
  }

  predicate FiniteCall(c: Call) {
    forall i :: 0 <= i < |c.Log()| && c.Log()[i].SetGauge? ==> c.Log()[i].value.Finite()
  }

  predicate FiniteCalls(cs: seq<Call>) {
    forall i :: 0 <= i < |cs| ==> FiniteCall(cs[i])
  }

  lemma {:induction false} ReplayFinite(s: Store, log: seq<Update>)
    requires s.Finite() && forall i :: 0 <= i < |log| && log[i].SetGauge? ==> log[i].value.Finite()
    ensures Replay(s, log).Finite()
  {
    if log == [] {
    } else {
      ReplayFinite(s, log[..|log| - 1]);
    }
  }

  lemma {:induction false} CallsFinite(s: Store, cs: seq<Call>)
    requires s.Finite() && FiniteCalls(cs)
    ensures PerformAll(s, cs).Finite()
  {
    if cs == [] {
    } else {
      var n := |cs| - 1;
      CallsFinite(s, cs[..n]);
      assert FiniteCall(cs[n]);
      ReplayFinite(PerformAll(s, cs[..n]), cs[n].Log());
    }
  }

  lemma FiniteIsEncodable(codec: Codec, s: State)
    requires Inv(codec, s) && s.start.Finite() && FiniteCalls(s.calls)
    ensures !s.unencodable
  {
    if s.unencodable {
      var n: nat :| n <= |s.calls| && !s.After(n).Finite();
      CallsFinite(s.start, s.calls[..n]);
    }
  }

  /**
   The promise of sync mode: with finite gauges, no I/O error and no save outside the lock,
   every call that has returned is in the file, whatever the interleaving and crash point.
   */
  lemma AcknowledgedIsDurable(codec: Codec, file: Option<Bytes>, restore: bool, acts: seq<Action>)
    requires codec.Lawful() && ValidRun(codec, Init(codec, file, restore), acts) && SyncOnly(acts)
    requires
      var s := Run(codec, Init(codec, file, restore), acts);
      !s.ioFault && s.start.Finite() && FiniteCalls(s.calls)
    ensures
      var s := Run(codec, Init(codec, file, restore), acts);
      && (forall i :: i in s.returned ==> s.returned[i] && i < s.Covered())
      && s.Covered() <= |s.calls|
      && (s.returned != map[] ==> Recover(codec, EMPTY_STORE, s.disk.main) == s.After(s.Covered()))
  {
    var s0 := Init(codec, file, restore);
    var s := Run(codec, s0, acts);
    InitHasInv(codec, file, restore);
    RunKeepsInv(codec, s0, acts);
    SyncOnlyRun(codec, s0, acts);
    FiniteIsEncodable(codec, s);
    if s.returned != map[] {
      var i :| i in s.returned;
    }
  }

  // ---- Saves never go back; quiescence ------------------------------------------------------

  /** No step shrinks what the locked saves cover, and without other saves the file follows them. */
  lemma CoverageGrows(codec: Codec, s: State, a: Action)
    requires Enabled(s, a) && Inv(codec, s)
    ensures s.synced <= Next(codec, s, a).synced
    ensures NoBackground(s) && !a.StartBackground? ==> s.Covered() <= Next(codec, s, a).Covered()
  {
    assert ThreadOk(codec, s, a.t);
    SyncedGrows(codec, s, a);
    FileStep(codec, s, a);
    if NoBackground(s) && !a.StartBackground? {
      NoBackgroundStep(codec, s, a);
    }
  }

  lemma {:induction false} FileNeverGoesBack(codec: Codec, s: State, acts: seq<Action>)
    requires codec.Lawful() && Inv(codec, s) && NoBackground(s)
    requires ValidRun(codec, s, acts) && SyncOnly(acts)
    ensures s.Covered() <= Run(codec, s, acts).Covered()
  {
    if acts == [] {
    } else {
      var before := acts[..|acts| - 1];
      FileNeverGoesBack(codec, s, before);
      RunKeepsInv(codec, s, before);
      SyncOnlyRun(codec, s, before);
      CoverageGrows(codec, Run(codec, s, before), acts[|acts| - 1]);
    }
  }

  lemma {:induction false} NoOpTail(s: Store, cs: seq<Call>, n: nat)
    requires n <= |cs| && forall i :: n <= i < |cs| ==> cs[i].Log() == []
    ensures PerformAll(s, cs) == PerformAll(s, cs[..n])
  {
    if n < |cs| {
      var m := |cs| - 1;
      NoOpTail(s, cs[..m], n);
      assert cs[..m][..n] == cs[..n];
    } else {
      assert cs[..n] == cs;
    }
  }

  lemma TailDecides(s: Store, cs: seq<Call>, n: nat)
    requires n <= |cs|
    ensures var prefix := PerformAll(s, cs[..n]);
      PerformAll(s, cs) == prefix <==> forall name :: Unmoved(prefix, LogOf(cs[n..]), name)
  {
    assert cs == cs[..n] + cs[n..];
    PerformAllConcat(s, cs[..n], cs[n..]);
    PerformAllIsReplay(PerformAll(s, cs[..n]), cs[n..]);
    NoChange(PerformAll(s, cs[..n]), LogOf(cs[n..]));
  }

  /** With nobody in the middle of a call, whatever the file misses is the work of failed batches. */
  lemma QuiescentTail(codec: Codec, s: State, i: nat)
    requires Inv(codec, s) && s.Quiescent() && NoBackground(s) && !s.ioFault && !s.unencodable
    requires s.Covered() <= i < |s.calls|
    ensures s.calls[i].Failure().Some?
  {
    assert Accounted(s, i);
    forall t ensures !Pending(s, t, i) {
      assert s.ThreadOf(t).Idle?;
    }
  }

  /**
   In every reachable state, whoever saved last: the file equals memory if and only if the
   calls it misses cancel out name by name. (Without a restore and before the first save the
   file is not this server's.)
   */
  lemma FileIsMemoryWhen(codec: Codec, file: Option<Bytes>, restore: bool, acts: seq<Action>)
    requires codec.Lawful() && ValidRun(codec, Init(codec, file, restore), acts)
    requires restore || !Run(codec, Init(codec, file, restore), acts).origin.Initial?
    ensures
      var s := Run(codec, Init(codec, file, restore), acts);
      var recovered := Recover(codec, EMPTY_STORE, s.disk.main);
      && s.Covered() <= |s.calls|
      && (recovered == s.mem <==> forall name :: Unmoved(recovered, LogOf(s.calls[s.Covered()..]), name))
  {
    var s := Run(codec, Init(codec, file, restore), acts);
    CrashRecovery(codec, file, restore, acts);
    TailDecides(s.start, s.calls, s.Covered());
    assert s.calls[..|s.calls|] == s.calls;
  }

  /**
   At rest, without faults and with locked saves only, the calls the file misses are failed
   batches; so the file equals memory if no failed batch applied anything.
   */
  lemma QuiescentFile(codec: Codec, file: Option<Bytes>, restore: bool, acts: seq<Action>)
    requires codec.Lawful() && ValidRun(codec, Init(codec, file, restore), acts) && SyncOnly(acts)
    requires
      var s := Run(codec, Init(codec, file, restore), acts);
      s.Quiescent() && !s.ioFault && !s.unencodable
    ensures
      var s := Run(codec, Init(codec, file, restore), acts);
      && (forall i :: s.Covered() <= i < |s.calls| ==> s.calls[i].Failure().Some?)
      && ((restore || !s.origin.Initial?) &&
          (forall i :: 0 <= i < |s.calls| && s.calls[i].Failure().Some? ==> s.calls[i].Log() == []) ==>
            Recover(codec, EMPTY_STORE, s.disk.main) == s.mem)
  {
    var s0 := Init(codec, file, restore);
    var s := Run(codec, s0, acts);
    InitHasInv(codec, file, restore);
    RunKeepsInv(codec, s0, acts);
    SyncOnlyRun(codec, s0, acts);
    CrashRecovery(codec, file, restore, acts);
    forall i | s.Covered() <= i < |s.calls| ensures s.calls[i].Failure().Some? {
      QuiescentTail(codec, s, i);
    }
    if forall i :: 0 <= i < |s.calls| && s.calls[i].Failure().Some? ==> s.calls[i].Log() == [] {
      NoOpTail(s.start, s.calls, s.Covered());
      assert s.calls[..|s.calls|] == s.calls;
    }
  }

  // ---- Many lives -------------------------------------------------------------------------------

  /**
   A server that crashes and restarts over and over, each time restoring from the main file
   its predecessor left. Each element is the run of one life, up to its crash.
   */
  ghost predicate ValidLives(codec: Codec, file: Option<Bytes>, lives: seq<seq<Action>>)
    decreases |lives|, 0
  {
    lives == [] ||
    (ValidLives(codec, file, lives[..|lives| - 1]) &&
     ValidRun(codec, Init(codec, FileAfter(codec, file, lives[..|lives| - 1]), true), lives[|lives| - 1]))
  }

  ghost function FileAfter(codec: Codec, file: Option<Bytes>, lives: seq<seq<Action>>): Option<Bytes>
    requires ValidLives(codec, file, lives)
    decreases |lives|, 2
  {
    if lives == [] then file else LastState(codec, file, lives).disk.main
  }

  /** The state in which the last life ended. */
  ghost function LastState(codec: Codec, file: Option<Bytes>, lives: seq<seq<Action>>): State
    requires ValidLives(codec, file, lives) && lives != []
    decreases |lives|, 1
  {
    Run(codec, Init(codec, FileAfter(codec, file, lives[..|lives| - 1]), true), lives[|lives| - 1])
  }

  /** The calls of all lives that survived them: of each life, those its last file covers. */
  ghost function Surviving(codec: Codec, file: Option<Bytes>, lives: seq<seq<Action>>): seq<Call>
    requires ValidLives(codec, file, lives)
  {
    if lives == [] then []
    else
      var s := LastState(codec, file, lives);
      Surviving(codec, file, lives[..|lives| - 1]) +
      if s.Covered() <= |s.calls| then s.calls[..s.Covered()] else s.calls
  }

  /**
   However often the server crashes and wherever: what the next life restores is the first
   file's store with a prefix of each life's calls applied, life after life.
   */
  lemma {:induction false} CrashAfterCrash(codec: Codec, file: Option<Bytes>, lives: seq<seq<Action>>)
    requires codec.Lawful() && ValidLives(codec, file, lives)
    ensures Recover(codec, EMPTY_STORE, FileAfter(codec, file, lives)) ==
            PerformAll(Recover(codec, EMPTY_STORE, file), Surviving(codec, file, lives))
  {
    if lives == [] {
    } else {
      var before := lives[..|lives| - 1];
      var found := FileAfter(codec, file, before);
      CrashAfterCrash(codec, file, before);
      CrashRecovery(codec, found, true, lives[|lives| - 1]);
      StartKept(codec, found, true, lives[|lives| - 1]);
      var s := LastState(codec, file, lives);
      PerformAllConcat(Recover(codec, EMPTY_STORE, file), Surviving(codec, file, before), s.calls[..s.Covered()]);
    }
  }

  /** The server serves from what it restored, or from nothing if it does not restore. */
  lemma StartKept(codec: Codec, file: Option<Bytes>, restore: bool, acts: seq<Action>)
    requires codec.Lawful() && ValidRun(codec, Init(codec, file, restore), acts)
    ensures
      var s := Run(codec, Init(codec, file, restore), acts);
      && s.start == (if restore then Recover(codec, EMPTY_STORE, file) else EMPTY_STORE)
      && s.mem == PerformAll(s.start, s.calls)
  {
    InitHasInv(codec, file, restore);
    RunExtends(codec, Init(codec, file, restore), acts);
    RunKeepsInv(codec, Init(codec, file, restore), acts);
    var s := Run(codec, Init(codec, file, restore), acts);
    assert s.calls[..|s.calls|] == s.calls;
  }

  /** A life with finite gauges, no I/O error and no save outside the lock. */
  ghost predicate Sound(codec: Codec, file: Option<Bytes>, lives: seq<seq<Action>>)
    requires ValidLives(codec, file, lives) && lives != []
  {
    var s := LastState(codec, file, lives);
    SyncOnly(lives[|lives| - 1]) && !s.ioFault && FiniteCalls(s.calls)
  }

  ghost predicate AllSound(codec: Codec, file: Option<Bytes>, lives: seq<seq<Action>>)
    requires ValidLives(codec, file, lives)
  {
    lives == [] || (AllSound(codec, file, lives[..|lives| - 1]) && Sound(codec, file, lives))
  }

  /**
   Durability over many lives: if all of them are sound and the first file's gauges finite, every
   call that returned in the latest life is in its file, hence among the survivors. The same
   holds of each earlier life, whose own lives are a prefix of these.
   */
  lemma {:induction false} DurableAfterCrashes(codec: Codec, file: Option<Bytes>, lives: seq<seq<Action>>)
    requires codec.Lawful() && ValidLives(codec, file, lives) && AllSound(codec, file, lives)
    requires Recover(codec, EMPTY_STORE, file).Finite()
    ensures Recover(codec, EMPTY_STORE, FileAfter(codec, file, lives)).Finite()
    ensures lives != [] ==>
      var s := LastState(codec, file, lives);
      s.Covered() <= |s.calls| && forall i :: i in s.returned ==> s.returned[i] && i < s.Covered()
  {
    if lives == [] {
    } else {
      var before, last := lives[..|lives| - 1], lives[|lives| - 1];
      var found := FileAfter(codec, file, before);
      DurableAfterCrashes(codec, file, before);
      StartKept(codec, found, true, last);
      AcknowledgedIsDurable(codec, found, true, last);
      CrashRecovery(codec, found, true, last);
      var s := LastState(codec, file, lives);
      CallsFinite(s.start, s.calls[..s.Covered()]);
    }
  }

  // ---- Where the promise breaks -----------------------------------------------------------

  /** The steps of one save by thread t, from its snapshot to just before its rename. */
  function PrepareSave(t: Tid, ms: seq<Metric>, tmp: nat, length: nat): seq<Action> {
    [TakeSnapshot(t, ms), CreateTemp(t, tmp), Write(t, length), CloseTemp(t)]
  }

  lemma PrepareSaveRuns(codec: Codec, s: State, acts: seq<Action>, t: Tid, ms: seq<Metric>, tmp: nat)
    requires codec.Lawful() && ValidRun(codec, s, acts)
    requires
      var r := Run(codec, s, acts);
      && r.ThreadOf(t).Saving? && r.ThreadOf(t).stage.Snapshotting? && tmp !in r.disk.temps
      && IsSnapshot(ms, r.mem) && r.mem.Finite()
    ensures codec.marshal(ms).Some?
    ensures
      var data := codec.marshal(ms).value;
      var more := acts + PrepareSave(t, ms, tmp, |data|);
      && ValidRun(codec, s, more)
      && var r := Run(codec, s, acts);
         Run(codec, s, more) ==
         SetStage(r, t, Renaming(|r.calls|, data, tmp)).(disk := r.disk.(temps := r.disk.temps[tmp := data]))
  {
    var r := Run(codec, s, acts);
    SnapshotEncodable(ms, r.mem);
    var data := codec.marshal(ms).value;
    var begun := acts + [TakeSnapshot(t, ms)] + [CreateTemp(t, tmp)];
    PrepareSaveBegins(codec, s, acts, t, ms, tmp);
    PrepareSaveEnds(codec, s, begun, r, t, data, tmp);
    OneByOne(acts, TakeSnapshot(t, ms), CreateTemp(t, tmp), Write(t, |data|), CloseTemp(t));
  }

  lemma OneByOne<T>(acts: seq<T>, a: T, b: T, c: T, d: T)
    ensures acts + [a, b, c, d] == acts + [a] + [b] + [c] + [d]
  {
  }

  lemma PrepareSaveBegins(codec: Codec, s: State, acts: seq<Action>, t: Tid, ms: seq<Metric>, tmp: nat)
    requires ValidRun(codec, s, acts) && codec.marshal(ms).Some?
    requires
      var r := Run(codec, s, acts);
      && r.ThreadOf(t).Saving? && r.ThreadOf(t).stage.Snapshotting? && tmp !in r.disk.temps
      && IsSnapshot(ms, r.mem)
    ensures
      var more := acts + [TakeSnapshot(t, ms)] + [CreateTemp(t, tmp)];
      && ValidRun(codec, s, more)
      && var r := Run(codec, s, acts);
         Run(codec, s, more) ==
         SetStage(r, t, Writing(|r.calls|, codec.marshal(ms).value, tmp, 0))
           .(disk := r.disk.(temps := r.disk.temps[tmp := []]))
  {
    var r := Run(codec, s, acts);
    Snoc(codec, s, acts, TakeSnapshot(t, ms));
    StagesOverwrite(r, t, Creating(|r.calls|, codec.marshal(ms).value),
                    Writing(|r.calls|, codec.marshal(ms).value, tmp, 0));
    Snoc(codec, s, acts + [TakeSnapshot(t, ms)], CreateTemp(t, tmp));
  }

  lemma StagesOverwrite(r: State, t: Tid, one: Stage, two: Stage)
    ensures SetStage(SetStage(r, t, one), t, two) == SetStage(r, t, two)
  {
    var th := SetStage(r, t, two).threads[t];
    assert r.threads[t := SetStage(r, t, one).threads[t]][t := th] == r.threads[t := th];
  }

  lemma PrepareSaveEnds(codec: Codec, s: State, acts: seq<Action>, r: State, t: Tid, data: Bytes, tmp: nat)
    requires ValidRun(codec, s, acts) && r.ThreadOf(t).Saving? && data != []
    requires Run(codec, s, acts) ==
             SetStage(r, t, Writing(|r.calls|, data, tmp, 0)).(disk := r.disk.(temps := r.disk.temps[tmp := []]))
    ensures
      var more := acts + [Write(t, |data|)] + [CloseTemp(t)];
      && ValidRun(codec, s, more)
      && Run(codec, s, more) ==
         SetStage(r, t, Renaming(|r.calls|, data, tmp)).(disk := r.disk.(temps := r.disk.temps[tmp := data]))
  {
    StagesOverwrite(r, t, Writing(|r.calls|, data, tmp, 0), Writing(|r.calls|, data, tmp, |data|));
    StagesOverwrite(r, t, Writing(|r.calls|, data, tmp, |data|), Renaming(|r.calls|, data, tmp));
    assert data[..|data|] == data;
    assert r.disk.temps[tmp := []][tmp := data] == r.disk.temps[tmp := data];
    Snoc(codec, s, acts, Write(t, |data|));
    Snoc(codec, s, acts + [Write(t, |data|)], CloseTemp(t));
  }

  const LOST := Call.UpdateCounter("PollCount", 1)

  /**
   The final snapshot of the server takes no lock: it can copy memory, let a request save
   and be acknowledged, and then rename its older copy over the newer file.
   */
  lemma FinalSaveLosesAcknowledged(codec: Codec) returns (acts: seq<Action>)
    requires codec.Lawful()
    ensures ValidRun(codec, Init(codec, None, true), acts)
    ensures
      var s := Run(codec, Init(codec, None, true), acts);
      && s.calls == [LOST] && s.returned == map[0 := true] && !s.ioFault
      && s.mem.Counter("PollCount") == 1
      && Recover(codec, EMPTY_STORE, s.disk.main) == EMPTY_STORE
  {
    var s0 := Init(codec, None, true);
    acts := [];
    Snoc(codec, s0, acts, StartBackground(0));
    acts := acts + [StartBackground(0)];
    assert ListedAs([], EMPTY_STORE, [], []);
    PrepareSaveRuns(codec, s0, acts, 0, [], 0);
    var old0 := codec.marshal([]).value;
    acts := acts + PrepareSave(0, [], 0, |old0|);
    acts := AcknowledgeOne(codec, s0, acts, 1, old0);
    Snoc(codec, s0, acts, Rename(0));
    acts := acts + [Rename(0)];
    SaveThenLoad(codec, [], EMPTY_STORE, EMPTY_STORE);
  }

  /** The server while its final save, already past its snapshot, is about to rename. */
  predicate FinalSavePending(s: State, old0: Bytes) {
    s.ThreadOf(0) == Saving(None, Renaming(0, old0, 0)) && 0 in s.disk.temps && s.disk.temps[0] == old0
  }

  /** One request served by thread t, from its update to its acknowledgement. */
  lemma AcknowledgeOne(codec: Codec, s: State, acts0: seq<Action>, t: Tid, old0: Bytes) returns (acts: seq<Action>)
    requires codec.Lawful() && ValidRun(codec, s, acts0) && t != 0
    requires
      Run(codec, s, acts0) ==
      Init(codec, None, true).(threads := map[0 := Saving(None, Renaming(0, old0, 0))],
                               disk := Disk(None, map[0 := old0]))
    ensures ValidRun(codec, s, acts)
    ensures
      var r := Run(codec, s, acts);
      && r.calls == [LOST] && r.returned == map[0 := true] && !r.ioFault && r.mem.Counter("PollCount") == 1
      && FinalSavePending(r, old0)
  {
    acts := BeginOne(codec, s, acts0, t, old0);
    var one := Store(map[], map["PollCount" := 1]);
    var ms := [CounterMetric("PollCount", 1)];
    assert ListedAs(ms, one, [], ["PollCount"]);
    PrepareSaveRuns(codec, s, acts, t, ms, 1);
    acts := acts + PrepareSave(t, ms, 1, |codec.marshal(ms).value|);
    acts := FinishOne(codec, s, acts, t, old0);
  }

  lemma BeginOne(codec: Codec, s: State, acts0: seq<Action>, t: Tid, old0: Bytes) returns (acts: seq<Action>)
    requires ValidRun(codec, s, acts0) && t != 0
    requires
      Run(codec, s, acts0) ==
      Init(codec, None, true).(threads := map[0 := Saving(None, Renaming(0, old0, 0))],
                               disk := Disk(None, map[0 := old0]))
    ensures ValidRun(codec, s, acts)
    ensures
      var r := Run(codec, s, acts);
      && r.calls == [LOST] && r.returned == map[] && !r.ioFault
      && r.mem == Store(map[], map["PollCount" := 1])
      && r.ThreadOf(t) == Saving(Some(0), Snapshotting) && 1 !in r.disk.temps
      && FinalSavePending(r, old0)
  {
    InvokeLost(codec, Run(codec, s, acts0), t, old0);
    Snoc(codec, s, acts0, Invoke(t, LOST));
    acts := acts0 + [Invoke(t, LOST)];
    Snoc(codec, s, acts, Acquire(t));
    acts := acts + [Acquire(t)];
  }

  lemma InvokeLost(codec: Codec, s: State, t: Tid, old0: Bytes)
    requires t != 0
    requires
      s == Init(codec, None, true).(threads := map[0 := Saving(None, Renaming(0, old0, 0))],
                                    disk := Disk(None, map[0 := old0]))
    ensures
      var r := Next(codec, s, Invoke(t, LOST));
      && r.calls == [LOST] && r.returned == map[] && !r.ioFault
      && r.mem == Store(map[], map["PollCount" := 1])
      && r.ThreadOf(t) == Waiting(0) && r.lock.None? && 1 !in r.disk.temps
      && FinalSavePending(r, old0)
  {
    assert Perform(EMPTY_STORE, LOST) == Store(map[], map["PollCount" := 1]) by {
      assert Replay(EMPTY_STORE, LOST.Log()[..0]) == EMPTY_STORE;
    }
  }

  lemma FinishOne(codec: Codec, s: State, acts0: seq<Action>, t: Tid, old0: Bytes) returns (acts: seq<Action>)
    requires ValidRun(codec, s, acts0) && t != 0
    requires
      var r := Run(codec, s, acts0);
      && r.ThreadOf(t).Saving? && r.ThreadOf(t).entry == Some(0)
      && r.ThreadOf(t).stage.Renaming? && r.ThreadOf(t).stage.tmp == 1 && 1 in r.disk.temps
      && FinalSavePending(r, old0) && r.returned == map[]
    ensures ValidRun(codec, s, acts)
    ensures
      var before, r := Run(codec, s, acts0), Run(codec, s, acts);
      && r.calls == before.calls && r.mem == before.mem && r.ioFault == before.ioFault
      && r.returned == map[0 := true] && FinalSavePending(r, old0)
  {
    Snoc(codec, s, acts0, Rename(t));
    acts := acts0 + [Rename(t)];
    Snoc(codec, s, acts, Return(t));
    acts := acts + [Return(t)];
  }

  predicate NoInvoke(acts: seq<Action>) {
    forall i :: 0 <= i < |acts| ==> !acts[i].Invoke?
  }

  /** Nobody serves a call; whoever saves has a snapshot of all n calls. */
  predicate Drained(s: State, n: nat) {
    && |s.calls| == n
    && forall t :: t in s.threads ==>
      var th := s.threads[t];
      th.Idle? ||
      (th.Saving? && th.entry.None? && (th.stage.Snapshotting? || th.stage.Done? || th.stage.n == n))
  }

  lemma DrainedStep(codec: Codec, s: State, a: Action, n: nat)
    requires Drained(s, n) && Enabled(s, a) && !a.Invoke?
    ensures
      var r := Next(codec, s, a);
      && Drained(r, n)
      && ((r.origin == s.origin && r.disk.main == s.disk.main && !a.Rename?) || r.origin == ByBackground(n))
  {
  }

  /** Some save of the run got as far as its rename. */
  predicate Renames(acts: seq<Action>) {
    exists i :: 0 <= i < |acts| && acts[i].Rename?
  }

  lemma RenamesSnoc(acts: seq<Action>)
    requires acts != []
    ensures Renames(acts) ==> Renames(acts[..|acts| - 1]) || acts[|acts| - 1].Rename?
  {
    if Renames(acts) && !acts[|acts| - 1].Rename? {
      var i :| 0 <= i < |acts| && acts[i].Rename?;
      assert acts[..|acts| - 1][i].Rename?;
    }
  }

  lemma {:induction false} DrainedRun(codec: Codec, s: State, acts: seq<Action>)
    requires s.Quiescent() && ValidRun(codec, s, acts) && NoInvoke(acts)
    ensures
      var r := Run(codec, s, acts);
      && Drained(r, |s.calls|)
      && (r.disk.main == s.disk.main || r.origin == ByBackground(|s.calls|))
      && (Renames(acts) ==> r.origin == ByBackground(|s.calls|))
  {
    if acts == [] {
    } else {
      DrainedRun(codec, s, acts[..|acts| - 1]);
      DrainedStep(codec, Run(codec, s, acts[..|acts| - 1]), acts[|acts| - 1], |s.calls|);
      RenamesSnoc(acts);
    }
  }

  /**
   Draining the requests before the final save repairs it: if a save renames, the file is
   memory; whatever happens, the file is untouched or it is memory.
   */
  lemma FinalSaveAfterDraining(codec: Codec, s: State, acts: seq<Action>)
    requires codec.Lawful() && Inv(codec, s) && s.Quiescent()
    requires ValidRun(codec, s, acts) && NoInvoke(acts)
    ensures
      var r := Run(codec, s, acts);
      && r.mem == s.mem
      && (r.disk.main == s.disk.main || Recover(codec, EMPTY_STORE, r.disk.main) == s.mem)
      && (Renames(acts) ==> Recover(codec, EMPTY_STORE, r.disk.main) == s.mem)
  {
    DrainedRun(codec, s, acts);
    RunKeepsInv(codec, s, acts);
    RunExtends(codec, s, acts);
    assert Run(codec, s, acts).calls == s.calls;
  }

  /** A batch that fails half-way changes memory, reports an error and is never saved. */
  lemma FailedBatchIsNotSaved(codec: Codec) returns (acts: seq<Action>)
    ensures ValidRun(codec, Init(codec, None, true), acts)
    ensures
      var s := Run(codec, Init(codec, None, true), acts);
      && s.Quiescent() && |s.calls| == 1 && s.calls[0].Failure().Some? && !s.ioFault
      && s.mem.Counter("PollCount") == 1
      && Recover(codec, EMPTY_STORE, s.disk.main) == EMPTY_STORE
  {
    var bad := Metric("x", Other("histogram"), None, None, "");
    var ms := [CounterMetric("PollCount", 1), bad];
    var c := Call.BatchUpdate(ms);
    ValidPrefixUnique(ms, 1);
    BatchStep(EMPTY_STORE, ms, 0);
    var s0 := Init(codec, None, true);
    Snoc(codec, s0, [], Invoke(0, c));
    acts := [] + [Invoke(0, c)];
  }
}
