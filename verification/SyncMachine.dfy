/**
 Synchronous persistence (syncStorage in cmd/server/main.go) as an interleaving of atomic
 steps: callers update memory under the store's lock, then save under a second lock; the
 periodic and the final save take neither lock. A crash may happen after any step, and
 what survives it is the disk.
 */
module SyncMachine {
  import opened Model
  import opened Storage
  import opened Snapshot

  type Tid = nat

  /** A thread inside saveMetrics. n is the number of calls its snapshot had seen. */
  datatype Stage =
    | Snapshotting
    | Creating(n: nat, data: Bytes)
    | Writing(n: nat, data: Bytes, tmp: nat, written: nat)
    | Renaming(n: nat, data: Bytes, tmp: nat)
    | Done(ok: bool)
  {
    function Tmp(): Option<nat> {
      if Writing? || Renaming? then Some(tmp) else None
    }
  }

  /**
   A thread between calls, one that has updated memory as call i and waits for the saving
   lock, or one that saves: for call i while holding that lock, or for nobody without it.
   */
  datatype Thread = Idle | Waiting(i: nat) | Saving(entry: Option<nat>, stage: Stage) {
    function Tmp(): Option<nat> {
      if Saving? then stage.Tmp() else None
    }
  }

  datatype Disk = Disk(main: Option<Bytes>, temps: map<nat, Bytes>)

  /** Whose snapshot the main file holds, and how many calls it covers. */
  datatype Origin = Initial | BySync(n: nat) | ByBackground(n: nat)

  datatype State = State(
    start: Store,              // memory when the server began to serve
    file0: Option<Bytes>,      // the main file at that moment
    calls: seq<Call>,          // every call so far, in the order it changed memory
    mem: Store,
    disk: Disk,
    lock: Option<Tid>,         // syncStorage.mu
    threads: map<Tid, Thread>, // absent threads are idle
    returned: map<nat, bool>,  // calls that returned after saving, and whether the save worked
    origin: Origin,
    synced: nat,               // calls covered by the last save under the lock
    ioFault: bool,             // some file operation failed
    unencodable: bool)         // some snapshot held an infinity or a NaN
  {
    function ThreadOf(t: Tid): Thread {
      if t in threads then threads[t] else Idle
    }

    function After(n: nat): Store
      requires n <= |calls|
    {
      PerformAll(start, calls[..n])
    }

    /** How many calls the main file covers. */
    function Covered(): nat {
      if origin.Initial? then 0 else origin.n
    }

    predicate Quiescent() {
      forall t :: t in threads ==> threads[t].Idle?
    }
  }

  /** restore is the server's Restore setting: load the file before serving. */
  function Init(codec: Codec, file: Option<Bytes>, restore: bool): State {
    var mem := if restore then Recover(codec, EMPTY_STORE, file) else EMPTY_STORE;
    State(mem, file, [], mem, Disk(file, map[]), None, map[], map[], Initial, 0, false, false)
  }

  datatype Action =
    | Invoke(t: Tid, call: Call)
    | Acquire(t: Tid)
    | StartBackground(t: Tid)
    | TakeSnapshot(t: Tid, listing: seq<Metric>)
    | CreateTemp(t: Tid, name: nat)
    | Write(t: Tid, upTo: nat)
    | CloseTemp(t: Tid)
    | Rename(t: Tid)
    | Fail(t: Tid, removed: bool)
    | Return(t: Tid)

  ghost predicate Enabled(s: State, a: Action) {
    var th := s.ThreadOf(a.t);
    match a
    case Invoke(_, _) => th.Idle?
    case Acquire(_) => th.Waiting? && s.lock.None?
    case StartBackground(_) => th.Idle?
    case TakeSnapshot(_, ms) => th.Saving? && th.stage.Snapshotting? && IsSnapshot(ms, s.mem)
    case CreateTemp(_, name) => th.Saving? && th.stage.Creating? && name !in s.disk.temps
    case Write(_, k) => th.Saving? && th.stage.Writing? && th.stage.written < k <= |th.stage.data|
    case CloseTemp(_) => th.Saving? && th.stage.Writing? && th.stage.written == |th.stage.data|
    case Rename(_) => th.Saving? && th.stage.Renaming? && th.stage.tmp in s.disk.temps
    case Fail(_, _) => th.Saving? && (th.stage.Creating? || th.stage.Writing? || th.stage.Renaming?)
    case Return(_) => th.Saving? && th.stage.Done?
  }

  function SetThread(s: State, t: Tid, th: Thread): State {
    s.(threads := s.threads[t := th])
  }

  function SetStage(s: State, t: Tid, stage: Stage): State {
    SetThread(s, t, Saving(if s.ThreadOf(t).Saving? then s.ThreadOf(t).entry else None, stage))
  }

  ghost function Next(codec: Codec, s: State, a: Action): State
    requires Enabled(s, a)
  {
    var t, th := a.t, s.ThreadOf(a.t);
    match a
    case Invoke(_, c) =>
      SetThread(s, t, if c.Failure().None? then Waiting(|s.calls|) else Idle)
        .(calls := s.calls + [c], mem := Perform(s.mem, c))
    case Acquire(_) => SetThread(s, t, Saving(Some(th.i), Snapshotting)).(lock := Some(t))
    case StartBackground(_) => SetThread(s, t, Saving(None, Snapshotting))
    case TakeSnapshot(_, ms) =>
      var data := codec.marshal(ms);
      if data.Some? then SetStage(s, t, Creating(|s.calls|, data.value))
      else SetStage(s, t, Done(false)).(unencodable := true)
    case CreateTemp(_, name) =>
      SetStage(s, t, Writing(th.stage.n, th.stage.data, name, 0))
        .(disk := s.disk.(temps := s.disk.temps[name := []]))
    case Write(_, k) =>
      SetStage(s, t, th.stage.(written := k))
        .(disk := s.disk.(temps := s.disk.temps[th.stage.tmp := th.stage.data[..k]]))
    case CloseTemp(_) => SetStage(s, t, Renaming(th.stage.n, th.stage.data, th.stage.tmp))
    case Rename(_) =>
      SetStage(s, t, Done(true))
        .(disk := Disk(Some(s.disk.temps[th.stage.tmp]), s.disk.temps - {th.stage.tmp}),
          origin := if th.entry.Some? then BySync(th.stage.n) else ByBackground(th.stage.n),
          synced := if th.entry.Some? then th.stage.n else s.synced)
    case Fail(_, removed) =>
      SetStage(s, t, Done(false))
        .(disk := if removed && th.stage.Tmp().Some?
                  then s.disk.(temps := s.disk.temps - {th.stage.Tmp().value}) else s.disk,
          ioFault := true)
    case Return(_) =>
      if th.entry.Some?
      then SetThread(s, t, Idle).(lock := None, returned := s.returned[th.entry.value := th.stage.ok])
      else SetThread(s, t, Idle)
  }

  ghost predicate ValidRun(codec: Codec, s: State, acts: seq<Action>)
    decreases |acts|, 0
  {
    acts == [] ||
    (ValidRun(codec, s, acts[..|acts| - 1]) && Enabled(Run(codec, s, acts[..|acts| - 1]), acts[|acts| - 1]))
  }

  ghost function Run(codec: Codec, s: State, acts: seq<Action>): State
    requires ValidRun(codec, s, acts)
    decreases |acts|, 1
  {
    if acts == [] then s else Next(codec, Run(codec, s, acts[..|acts| - 1]), acts[|acts| - 1])
  }

  lemma Snoc(codec: Codec, s: State, acts: seq<Action>, a: Action)
    requires ValidRun(codec, s, acts) && Enabled(Run(codec, s, acts), a)
    ensures ValidRun(codec, s, acts + [a])
    ensures Run(codec, s, acts + [a]) == Next(codec, Run(codec, s, acts), a)
  {
    assert (acts + [a])[..|acts + [a]| - 1] == acts;
  }
}
