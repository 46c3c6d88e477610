/**
 The agent's reporter, its bounded channel of jobs and the pool of sending workers
 (cmd/agent/main.go, HTTP mode), as interleaved atomic steps. Jobs are numbered in the
 order they enter the channel.
 */
module Agent {
  import opened Model

  datatype Phase =
    | Waiting                              // at the outer select
    | Dispatching(rest: seq<Metric>)       // a tick's snapshot, interruptible by ctx
    | Flushing(rest: seq<Metric>)          // the final snapshot, interruptible by drainCtx
    | Leaving                              // returned, the deferred close is due
    | Closed
  {
    function Rest(): seq<Metric> {
      if Dispatching? || Flushing? then rest else []
    }

    function Rank(): nat {
      match this
      case Dispatching(_) => 4
      case Waiting => 3
      case Flushing(_) => 2
      case Leaving => 1
      case Closed => 0
    }
  }

  /** retries counts the delays retryOnConnErr has left; drain says which context it watches. */
  datatype Worker =
    | Receiving
    | Holding(job: nat)
    | Sending(job: nat, drain: bool, retries: nat)
    | BackingOff(job: nat, drain: bool, retries: nat)
    | Exited
  {
    /** Is job j in this worker's hands? */
    predicate Has(j: nat) {
      (Holding? || Sending? || BackingOff?) && job == j
    }

    /** Has this worker called SendMetric for job j? */
    predicate Calling(j: nat) {
      (Sending? || BackingOff?) && job == j
    }

    function Weight(): nat {
      match this
      case Receiving => 1
      case Holding(_) => 10
      case Sending(_, _, r) => 2 * r + 3
      case BackingOff(_, _, r) => 2 * r + 2
      case Exited => 0
    }
  }

  const RETRIES: nat := 3

  /** The final snapshot, and how many jobs had been enqueued when it was taken. */
  datatype Flush = NoFlush | Flush(items: seq<Metric>, base: nat)

  datatype State = State(
    limit: nat,                // RateLimit
    phase: Phase,
    queue: seq<nat>,           // the channel's buffer
    open: bool,
    panicked: bool,            // a send on, or a second close of, a closed channel
    workers: seq<Worker>,
    cancelled: bool,           // ctx
    expired: bool,             // drainCtx
    taken: seq<Metric>,        // everything the reporter took from the collector
    enqueued: seq<Metric>,     // job n carries enqueued[n]
    lost: seq<Metric>,         // what an interrupted loop never enqueued
    started: seq<nat>,         // SendMetric was called
    finished: seq<nat>,        // SendMetric returned
    flush: Flush)
  {
    predicate Terminated() {
      phase.Closed? && forall w :: 0 <= w < |workers| ==> workers[w].Exited?
    }
  }

  function Init(limit: nat): State {
    State(limit, Waiting, [], true, false, seq(limit, _ => Receiving), false, false, [], [], [], [], [], NoFlush)
  }

  datatype Action =
    | Cancel
    | Expire
    | Tick(items: seq<Metric>)
    | DispatchDone
    | Enqueue
    | AbandonDispatch
    | StartFlush(items: seq<Metric>)
    | AbandonFlush
    | FlushDone
    | CloseJobs
    | Receive(w: nat)
    | Quit(w: nat)
    | Send(w: nat)
    | PostFails(w: nat)
    | PostEnds(w: nat)
    | BackoffOver(w: nat)
    | BackoffCancelled(w: nat)
  {
    predicate OfWorker() {
      Receive? || Quit? || Send? || PostFails? || PostEnds? || BackoffOver? || BackoffCancelled?
    }
  }

  predicate Enabled(s: State, a: Action) {
    if a.OfWorker() then a.w < |s.workers| && WorkerEnabled(s, a, s.workers[a.w])
    else ReporterEnabled(s, a)
  }

  predicate ReporterEnabled(s: State, a: Action)
    requires !a.OfWorker()
  {
    match a
    case Cancel => !s.cancelled
    case Expire => !s.expired
    case Tick(_) => s.phase.Waiting?
    case DispatchDone => s.phase == Dispatching([])
    case Enqueue => s.phase.Rest() != [] && |s.queue| < 2 * s.limit
    case AbandonDispatch => s.phase.Dispatching? && s.phase.rest != [] && s.cancelled
    case StartFlush(_) => s.phase.Waiting? && s.cancelled
    case AbandonFlush => s.phase.Flushing? && s.phase.rest != [] && s.expired
    case FlushDone => s.phase == Flushing([])
    case CloseJobs => s.phase.Leaving?
  }

  predicate WorkerEnabled(s: State, a: Action, w: Worker)
    requires a.OfWorker()
  {
    match a
    case Receive(_) => w.Receiving? && s.queue != []
    case Quit(_) => w.Receiving? && s.queue == [] && !s.open
    case Send(_) => w.Holding?
    case PostFails(_) => w.Sending?
    case PostEnds(_) => w.Sending?
    case BackoffOver(_) => w.BackingOff? && w.retries > 0
    case BackoffCancelled(_) => w.BackingOff? && (if w.drain then s.expired else s.cancelled)
  }

  function Next(s: State, a: Action): State
    requires Enabled(s, a)
  {
    if a.OfWorker() then WorkerNext(s, a) else ReporterNext(s, a)
  }

  function ReporterNext(s: State, a: Action): State
    requires !a.OfWorker() && ReporterEnabled(s, a)
  {
    match a
    case Cancel => s.(cancelled := true)
    case Expire => s.(expired := true)
    case Tick(items) =>
      if items == [] then s else s.(phase := Dispatching(items), taken := s.taken + items)
    case DispatchDone => s.(phase := Waiting)
    case Enqueue =>
      var rest := s.phase.rest[1..];
      s.(phase := if s.phase.Dispatching? then Dispatching(rest) else Flushing(rest),
         queue := s.queue + [|s.enqueued|], enqueued := s.enqueued + [s.phase.rest[0]],
         panicked := s.panicked || !s.open)
    case AbandonDispatch => s.(phase := Leaving, lost := s.phase.rest)
    case StartFlush(items) =>
      s.(phase := Flushing(items), taken := s.taken + items, flush := Flush(items, |s.enqueued|))
    case AbandonFlush => s.(phase := Leaving, lost := s.phase.rest)
    case FlushDone => s.(phase := Leaving)
    case CloseJobs => s.(phase := Closed, open := false, panicked := s.panicked || !s.open)
  }

  function WorkerNext(s: State, a: Action): State
    requires a.OfWorker() && a.w < |s.workers| && WorkerEnabled(s, a, s.workers[a.w])
  {
    var w := s.workers[a.w];
    match a
    case Receive(_) => Becomes(s, a.w, Holding(s.queue[0])).(queue := s.queue[1..])
    case Quit(_) => Becomes(s, a.w, Exited)
    case Send(_) =>
      Becomes(s, a.w, Sending(w.job, s.cancelled, RETRIES)).(started := s.started + [w.job])
    case PostFails(_) =>
      if w.retries == 0 then Finish(s, a.w, w.job) else Becomes(s, a.w, BackingOff(w.job, w.drain, w.retries))
    case PostEnds(_) => Finish(s, a.w, w.job)
    case BackoffOver(_) => Becomes(s, a.w, Sending(w.job, w.drain, w.retries - 1))
    case BackoffCancelled(_) => Finish(s, a.w, w.job)
  }

  function Becomes(s: State, w: nat, worker: Worker): State
    requires w < |s.workers|
  {
    s.(workers := s.workers[w := worker])
  }

  function Finish(s: State, w: nat, job: nat): State
    requires w < |s.workers|
  {
    Becomes(s, w, Receiving).(finished := s.finished + [job])
  }

  predicate ValidRun(s: State, acts: seq<Action>)
    decreases |acts|, 0
  {
    acts == [] || (ValidRun(s, acts[..|acts| - 1]) && Enabled(Run(s, acts[..|acts| - 1]), acts[|acts| - 1]))
  }

  function Run(s: State, acts: seq<Action>): State
    requires ValidRun(s, acts)
    decreases |acts|, 1
  {
    if acts == [] then s else Next(Run(s, acts[..|acts| - 1]), acts[|acts| - 1])
  }

  // ---- Where every job is --------------------------------------------------------------------

  function One(b: bool): nat {
    if b then 1 else 0
  }

  /** How many workers have job j in hand, and how many are inside SendMetric with it. */
  function Hands(ws: seq<Worker>, j: nat): nat {
    if ws == [] then 0 else Hands(ws[..|ws| - 1], j) + One(ws[|ws| - 1].Has(j))
  }

  function Calls(ws: seq<Worker>, j: nat): nat {
    if ws == [] then 0 else Calls(ws[..|ws| - 1], j) + One(ws[|ws| - 1].Calling(j))
  }

  function Weights(ws: seq<Worker>): nat {
    if ws == [] then 0 else Weights(ws[..|ws| - 1]) + ws[|ws| - 1].Weight()
  }

  function Count(jobs: seq<nat>, j: nat): nat {
    if jobs == [] then 0 else Count(jobs[..|jobs| - 1], j) + One(jobs[|jobs| - 1] == j)
  }

  lemma CountSnoc(jobs: seq<nat>, k: nat, j: nat)
    ensures Count(jobs + [k], j) == Count(jobs, j) + One(k == j)
  {
    assert (jobs + [k])[..|jobs|] == jobs;
  }

  lemma {:induction false} ReplaceWorker(ws: seq<Worker>, i: nat, w: Worker, j: nat)
    requires i < |ws|
    ensures Hands(ws[i := w], j) + One(ws[i].Has(j)) == Hands(ws, j) + One(w.Has(j))
    ensures Calls(ws[i := w], j) + One(ws[i].Calling(j)) == Calls(ws, j) + One(w.Calling(j))
  {
    var n := |ws| - 1;
    if i == n {
      assert ws[i := w][..n] == ws[..n];
    } else {
      assert ws[i := w][..n] == ws[..n][i := w] && ws[i := w][n] == ws[n];
      ReplaceWorker(ws[..n], i, w, j);
    }
  }

  lemma {:induction false} ReplaceWeight(ws: seq<Worker>, i: nat, w: Worker)
    requires i < |ws|
    ensures Weights(ws[i := w]) + ws[i].Weight() == Weights(ws) + w.Weight()
  {
    var n := |ws| - 1;
    if i == n {
      assert ws[i := w][..n] == ws[..n];
    } else {
      assert ws[i := w][..n] == ws[..n][i := w] && ws[i := w][n] == ws[n];
      ReplaceWeight(ws[..n], i, w);
    }
  }

  lemma {:induction false} IdleWorkersHoldNothing(ws: seq<Worker>, j: nat)
    requires forall i :: 0 <= i < |ws| ==> ws[i].Receiving? || ws[i].Exited?
    ensures Hands(ws, j) == 0 && Calls(ws, j) == 0
  {
    if ws == [] {
    } else {
      IdleWorkersHoldNothing(ws[..|ws| - 1], j);
    }
  }

  /** Jobs that have left the buffer. */
  function Gone(s: State): int {
    |s.enqueued| - |s.queue|
  }

  /** A job that has left the buffer is in one worker's hands or finished once: never both, never twice. */
  predicate ConservedAt(s: State, j: nat) {
    && Hands(s.workers, j) + Count(s.finished, j) == One(j < Gone(s))
    && Calls(s.workers, j) + Count(s.finished, j) == Count(s.started, j)
  }

  ghost predicate Conserved(s: State) {
    forall j :: ConservedAt(s, j)
  }

  /** The buffer is bounded and holds the newest jobs, oldest first. */
  predicate BufferOk(s: State) {
    && |s.queue| <= 2 * s.limit && |s.queue| <= |s.enqueued|
    && forall i :: 0 <= i < |s.queue| ==> s.queue[i] == |s.enqueued| - |s.queue| + i
  }

  predicate ChannelOk(s: State) {
    && !s.panicked && (s.open <==> !s.phase.Closed?) && |s.workers| == s.limit
    && (forall w :: 0 <= w < |s.workers| && s.workers[w].Exited? ==> !s.open && s.queue == [])
    && (forall w :: 0 <= w < |s.workers| && s.workers[w].BackingOff? ==> s.workers[w].retries > 0)
  }

  /** Nothing the reporter took is unaccounted for, and what it lost it lost for a reason. */
  predicate ReporterOk(s: State) {
    && s.taken == s.enqueued + s.phase.Rest() + s.lost
    && (s.phase.Waiting? || s.phase.Dispatching? ==> s.flush.NoFlush? && s.lost == [])
    && (s.phase.Flushing? ==> s.flush.Flush? && s.lost == [] && s.cancelled)
    && (s.phase.Leaving? || s.phase.Closed? ==>
          s.cancelled && (s.flush.NoFlush? ==> s.lost != []) && (s.flush.Flush? && s.lost != [] ==> s.expired))
    && (s.flush.Flush? ==>
          s.flush.base <= |s.enqueued| && s.enqueued[s.flush.base..] + s.phase.Rest() + s.lost == s.flush.items)
  }

  ghost predicate Inv(s: State) {
    Conserved(s) && BufferOk(s) && ChannelOk(s) && ReporterOk(s)
  }

  lemma ConservedStep(s: State, a: Action, j: nat)
    requires Enabled(s, a) && ConservedAt(s, j) && BufferOk(s)
    ensures ConservedAt(Next(s, a), j)
  {
    if a.OfWorker() {
      WorkerConserves(s, a, j);
    }
  }

  lemma WorkerConserves(s: State, a: Action, j: nat)
    requires Enabled(s, a) && a.OfWorker() && ConservedAt(s, j) && BufferOk(s)
    ensures ConservedAt(WorkerNext(s, a), j)
  {
    var w := s.workers[a.w];
    match a
    case Receive(i) => ReceiveConserves(s, i, j);
    case Quit(i) => StayConserves(s, i, Exited, j);
    case Send(i) => SendConserves(s, i, j);
    case PostFails(i) =>
      if w.retries == 0 {
        FinishConserves(s, i, j);
      } else {
        StayConserves(s, i, BackingOff(w.job, w.drain, w.retries), j);
      }
    case PostEnds(i) => FinishConserves(s, i, j);
    case BackoffOver(i) => StayConserves(s, i, Sending(w.job, w.drain, w.retries - 1), j);
    case BackoffCancelled(i) => FinishConserves(s, i, j);
  }

  lemma ReceiveConserves(s: State, i: nat, j: nat)
    requires Enabled(s, Receive(i)) && ConservedAt(s, j) && BufferOk(s)
    ensures ConservedAt(WorkerNext(s, Receive(i)), j)
  {
    ReplaceWorker(s.workers, i, Holding(s.queue[0]), j);
  }

  lemma SendConserves(s: State, i: nat, j: nat)
    requires Enabled(s, Send(i)) && ConservedAt(s, j)
    ensures ConservedAt(WorkerNext(s, Send(i)), j)
  {
    var job := s.workers[i].job;
    ReplaceWorker(s.workers, i, Sending(job, s.cancelled, RETRIES), j);
    CountSnoc(s.started, job, j);
  }

  lemma FinishConserves(s: State, i: nat, j: nat)
    requires i < |s.workers| && (s.workers[i].Sending? || s.workers[i].BackingOff?) && ConservedAt(s, j)
    ensures ConservedAt(Finish(s, i, s.workers[i].job), j)
  {
    ReplaceWorker(s.workers, i, Receiving, j);
    CountSnoc(s.finished, s.workers[i].job, j);
  }

  lemma StayConserves(s: State, i: nat, w: Worker, j: nat)
    requires i < |s.workers| && ConservedAt(s, j)
    requires w.Has(j) == s.workers[i].Has(j) && w.Calling(j) == s.workers[i].Calling(j)
    ensures ConservedAt(Becomes(s, i, w), j)
  {
    ReplaceWorker(s.workers, i, w, j);
  }

  lemma BufferStep(s: State, a: Action)
    requires Enabled(s, a) && BufferOk(s)
    ensures BufferOk(Next(s, a))
  {
    if a.OfWorker() {
      WorkerKeepsBuffer(s, a);
    }
  }

  lemma WorkerKeepsBuffer(s: State, a: Action)
    requires Enabled(s, a) && a.OfWorker() && BufferOk(s)
    ensures BufferOk(WorkerNext(s, a))
  {
  }

  lemma ChannelStep(s: State, a: Action)
    requires Enabled(s, a) && ChannelOk(s)
    ensures ChannelOk(Next(s, a)) && Next(s, a).limit == s.limit
  {
    if a.OfWorker() {
      WorkerKeepsChannel(s, a);
    } else {
      ReporterKeepsChannel(s, a);
    }
  }

  lemma WorkerKeepsChannel(s: State, a: Action)
    requires Enabled(s, a) && a.OfWorker() && ChannelOk(s)
    ensures ChannelOk(WorkerNext(s, a)) && WorkerNext(s, a).limit == s.limit
  {
  }

  lemma ReporterKeepsChannel(s: State, a: Action)
    requires Enabled(s, a) && !a.OfWorker() && ChannelOk(s)
    ensures ChannelOk(ReporterNext(s, a)) && ReporterNext(s, a).limit == s.limit
  {
  }

  lemma ReporterStep(s: State, a: Action)
    requires Enabled(s, a) && ReporterOk(s)
    ensures ReporterOk(Next(s, a))
  {
    if a.OfWorker() {
      WorkerLeavesReporter(s, a);
    } else if a.Enqueue? {
      EnqueueStep(s);
    } else if a.Tick? || a.StartFlush? {
      SnapshotStep(s, a);
    } else {
      LoopStep(s, a);
    }
  }

  lemma WorkerLeavesReporter(s: State, a: Action)
    requires Enabled(s, a) && a.OfWorker() && ReporterOk(s)
    ensures ReporterOk(WorkerNext(s, a))
  {
    var s' := WorkerNext(s, a);
    assert s' == s.(queue := s'.queue, workers := s'.workers, started := s'.started, finished := s'.finished);
  }

  lemma LoopStep(s: State, a: Action)
    requires Enabled(s, a) && !a.OfWorker() && ReporterOk(s) && !a.Enqueue? && !a.Tick? && !a.StartFlush?
    ensures ReporterOk(ReporterNext(s, a))
  {
    var s' := ReporterNext(s, a);
    assert s'.phase.Rest() + s'.lost == s.phase.Rest() + s.lost;
    Reassociate(s.enqueued, s.phase.Rest(), s.lost);
    Reassociate(s.enqueued, s'.phase.Rest(), s'.lost);
    if s.flush.Flush? {
      Reassociate(s.enqueued[s.flush.base..], s.phase.Rest(), s.lost);
      Reassociate(s.enqueued[s.flush.base..], s'.phase.Rest(), s'.lost);
    }
  }

  lemma Reassociate<T>(a: seq<T>, b: seq<T>, c: seq<T>)
    ensures a + b + c == a + (b + c)
  {
  }

  lemma EnqueueStep(s: State)
    requires Enabled(s, Enqueue) && ReporterOk(s)
    ensures ReporterOk(Next(s, Enqueue))
  {
    var s', rest := Next(s, Enqueue), s.phase.rest;
    Shift(s.enqueued, rest, s.lost);
    if s.flush.Flush? {
      assert s'.enqueued[s.flush.base..] == s.enqueued[s.flush.base..] + [rest[0]];
      Shift(s.enqueued[s.flush.base..], rest, s.lost);
    }
  }

  lemma Shift<T>(a: seq<T>, b: seq<T>, c: seq<T>)
    requires b != []
    ensures a + b + c == (a + [b[0]]) + b[1..] + c
  {
  }

  lemma SnapshotStep(s: State, a: Action)
    requires Enabled(s, a) && ReporterOk(s) && (a.Tick? || a.StartFlush?)
    ensures ReporterOk(Next(s, a))
  {
    assert s.taken == s.enqueued + [] + [];
    assert s.enqueued[|s.enqueued|..] == [];
    assert s.enqueued + a.items + [] == s.enqueued + a.items;
  }

  lemma {:induction false} RunKeepsInv(s: State, acts: seq<Action>)
    requires Inv(s) && ValidRun(s, acts)
    ensures Inv(Run(s, acts))
  {
    if acts == [] {
    } else {
      var before, a := Run(s, acts[..|acts| - 1]), acts[|acts| - 1];
      RunKeepsInv(s, acts[..|acts| - 1]);
      forall j ensures ConservedAt(Next(before, a), j) {
        assert ConservedAt(before, j);
        ConservedStep(before, a, j);
      }
      BufferStep(before, a);
      ChannelStep(before, a);
      ReporterStep(before, a);
    }
  }

  lemma InitHasInv(limit: nat)
    ensures Inv(Init(limit))
  {
    forall j ensures ConservedAt(Init(limit), j) {
      IdleWorkersHoldNothing(Init(limit).workers, j);
    }
  }

  // ---- Conservation ----------------------------------------------------------------------

  /**
   In every reachable state: the buffer holds at most 2 * RateLimit jobs, the newest ones in
   order; every older job is in exactly one worker's hands or finished, once; SendMetric has
   been called at most once for each; and nothing is sent on or closes a closed channel.
   */
  lemma JobsAreConserved(limit: nat, acts: seq<Action>, j: nat)
    requires ValidRun(Init(limit), acts)
    ensures
      var s := Run(Init(limit), acts);
      && |s.queue| <= 2 * limit && !s.panicked
      && (j in s.queue <==> Gone(s) <= j < |s.enqueued|)
      && Hands(s.workers, j) + Count(s.finished, j) == One(j < Gone(s))
      && Count(s.started, j) <= 1 && (Count(s.finished, j) == 1 ==> Count(s.started, j) == 1)
      && s.taken == s.enqueued + s.phase.Rest() + s.lost
  {
    InitHasInv(limit);
    RunKeepsInv(Init(limit), acts);
    var s := Run(Init(limit), acts);
    assert ConservedAt(s, j);
    CallsWithinHands(s.workers, j);
    LimitFixed(limit, acts);
    if Gone(s) <= j < |s.enqueued| {
      assert s.queue[j - Gone(s)] == j;
    }
  }

  lemma LimitStep(s: State, a: Action)
    requires Enabled(s, a)
    ensures Next(s, a).limit == s.limit
  {
    if a.OfWorker() {
      assert WorkerNext(s, a).limit == s.limit;
    } else {
      assert ReporterNext(s, a).limit == s.limit;
    }
  }

  lemma {:induction false} LimitFixed(limit: nat, acts: seq<Action>)
    requires ValidRun(Init(limit), acts)
    ensures Run(Init(limit), acts).limit == limit
  {
    if acts == [] {
    } else {
      LimitFixed(limit, acts[..|acts| - 1]);
      LimitStep(Run(Init(limit), acts[..|acts| - 1]), acts[|acts| - 1]);
    }
  }

  lemma {:induction false} CallsWithinHands(ws: seq<Worker>, j: nat)
    ensures Calls(ws, j) <= Hands(ws, j)
  {
    if ws == [] {
    } else {
      CallsWithinHands(ws[..|ws| - 1], j);
    }
  }

  /** When reporter and workers have exited, every enqueued job had exactly one SendMetric call, and it returned. */
  lemma AllJobsSent(limit: nat, acts: seq<Action>, j: nat)
    requires limit > 0 && ValidRun(Init(limit), acts) && Run(Init(limit), acts).Terminated()
    ensures
      var s := Run(Init(limit), acts);
      Count(s.started, j) == Count(s.finished, j) == One(j < |s.enqueued|) && s.queue == []
  {
    InitHasInv(limit);
    RunKeepsInv(Init(limit), acts);
    LimitFixed(limit, acts);
    NothingLeft(Run(Init(limit), acts), j);
  }

  lemma NothingLeft(s: State, j: nat)
    requires Inv(s) && s.limit > 0 && s.Terminated()
    ensures Count(s.started, j) == Count(s.finished, j) == One(j < |s.enqueued|) && s.queue == []
  {
    assert ConservedAt(s, j) && s.workers[0].Exited?;
    IdleWorkersHoldNothing(s.workers, j);
  }

  predicate CutsDispatch(acts: seq<Action>) {
    exists i :: 0 <= i < |acts| && acts[i].AbandonDispatch?
  }

  predicate CutsFlush(acts: seq<Action>) {
    exists i :: 0 <= i < |acts| && acts[i].AbandonFlush?
  }

  lemma CutsSnoc(acts: seq<Action>)
    requires acts != []
    ensures CutsDispatch(acts) <==> CutsDispatch(acts[..|acts| - 1]) || acts[|acts| - 1].AbandonDispatch?
    ensures CutsFlush(acts) <==> CutsFlush(acts[..|acts| - 1]) || acts[|acts| - 1].AbandonFlush?
  {
    var n := |acts| - 1;
    if CutsDispatch(acts[..n]) {
      var i :| 0 <= i < n && acts[..n][i].AbandonDispatch?;
      assert acts[i].AbandonDispatch?;
    }
    if CutsFlush(acts[..n]) {
      var i :| 0 <= i < n && acts[..n][i].AbandonFlush?;
      assert acts[i].AbandonFlush?;
    }
    if CutsDispatch(acts) && !acts[n].AbandonDispatch? {
      var i :| 0 <= i < |acts| && acts[i].AbandonDispatch?;
      assert acts[..n][i].AbandonDispatch?;
    }
    if CutsFlush(acts) && !acts[n].AbandonFlush? {
      var i :| 0 <= i < |acts| && acts[i].AbandonFlush?;
      assert acts[..n][i].AbandonFlush?;
    }
  }

  /** What the reporter's fields say about the loops that were cut short. */
  predicate CutsAt(s: State, dispatch: bool, flush: bool) {
    && (dispatch <==> (s.phase.Leaving? || s.phase.Closed?) && s.flush.NoFlush?)
    && (dispatch || flush <==> s.lost != [])
    && !(dispatch && flush)
    && (flush ==> s.flush.Flush? && (s.phase.Leaving? || s.phase.Closed?))
  }

  lemma CutsStep(s: State, a: Action, dispatch: bool, flush: bool)
    requires Enabled(s, a) && ReporterOk(s) && CutsAt(s, dispatch, flush)
    ensures CutsAt(Next(s, a), dispatch || a.AbandonDispatch?, flush || a.AbandonFlush?)
  {
    if a.OfWorker() {
      var s' := WorkerNext(s, a);
      assert s'.phase == s.phase && s'.flush == s.flush && s'.lost == s.lost;
    }
  }

  lemma {:induction false} CutsRun(limit: nat, acts: seq<Action>)
    requires ValidRun(Init(limit), acts)
    ensures CutsAt(Run(Init(limit), acts), CutsDispatch(acts), CutsFlush(acts))
  {
    if acts == [] {
    } else {
      var before, a := acts[..|acts| - 1], acts[|acts| - 1];
      CutsRun(limit, before);
      CutsSnoc(acts);
      InitHasInv(limit);
      RunKeepsInv(Init(limit), before);
      CutsStep(Run(Init(limit), before), a, CutsDispatch(before), CutsFlush(before));
    }
  }

  /**
   Once the reporter has left: it took a final snapshot if and only if cancellation never cut
   a dispatch short, and nothing it took is missing from the channel if and only if moreover
   drainCtx never cut the flush short; then the whole final snapshot was enqueued, in order.
   */
  lemma FinalFlush(limit: nat, acts: seq<Action>)
    requires ValidRun(Init(limit), acts)
    requires var s := Run(Init(limit), acts); s.phase.Leaving? || s.phase.Closed?
    ensures
      var s := Run(Init(limit), acts);
      && s.cancelled && s.taken == s.enqueued + s.lost
      && (s.flush.Flush? <==> !CutsDispatch(acts))
      && (s.lost == [] <==> !CutsDispatch(acts) && !CutsFlush(acts))
      && (CutsFlush(acts) ==> s.expired)
      && (s.lost == [] ==> s.flush.base <= |s.enqueued| && s.enqueued[s.flush.base..] == s.flush.items)
  {
    InitHasInv(limit);
    RunKeepsInv(Init(limit), acts);
    CutsRun(limit, acts);
    FlushedAt(Run(Init(limit), acts));
  }

  lemma FlushedAt(s: State)
    requires ReporterOk(s) && (s.phase.Leaving? || s.phase.Closed?)
    ensures s.cancelled && s.taken == s.enqueued + s.lost && (s.flush.NoFlush? ==> s.lost != [])
    ensures s.flush.Flush? && s.lost != [] ==> s.expired
    ensures s.flush.Flush? && s.lost == [] ==>
      s.flush.base <= |s.enqueued| && s.enqueued[s.flush.base..] == s.flush.items
  {
    assert s.enqueued + [] + s.lost == s.enqueued + s.lost;
    if s.flush.Flush? && s.lost == [] {
      assert s.enqueued[s.flush.base..] + [] + [] == s.enqueued[s.flush.base..];
    }
  }

  /** The reporter was at its outer select and has taken no tick since. */
  predicate NotDispatching(s: State) {
    s.phase.Waiting? || s.phase.Flushing? || ((s.phase.Leaving? || s.phase.Closed?) && s.flush.Flush?)
  }

  lemma NotDispatchingStep(s: State, a: Action)
    requires Enabled(s, a) && ReporterOk(s) && NotDispatching(s) && !a.Tick?
    ensures NotDispatching(Next(s, a))
  {
    if a.OfWorker() {
      assert WorkerNext(s, a).phase == s.phase && WorkerNext(s, a).flush == s.flush;
    }
  }

  lemma {:induction false} NotDispatchingRun(limit: nat, acts: seq<Action>, k: nat)
    requires ValidRun(Init(limit), acts) && k <= |acts| && ValidRun(Init(limit), acts[..k])
    requires Run(Init(limit), acts[..k]).phase.Waiting?
    requires forall i :: k <= i < |acts| ==> !acts[i].Tick?
    ensures NotDispatching(Run(Init(limit), acts))
    decreases |acts|
  {
    if k == |acts| {
      assert acts[..k] == acts;
    } else {
      var before := acts[..|acts| - 1];
      assert before[..k] == acts[..k];
      NotDispatchingRun(limit, before, k);
      InitHasInv(limit);
      RunKeepsInv(Init(limit), before);
      NotDispatchingStep(Run(Init(limit), before), acts[|acts| - 1]);
    }
  }

  lemma {:induction false} PrefixValid(s: State, acts: seq<Action>, k: nat)
    requires ValidRun(s, acts) && k <= |acts|
    ensures ValidRun(s, acts[..k])
  {
    if k == |acts| {
      assert acts[..k] == acts;
    } else {
      assert acts[..|acts| - 1][..k] == acts[..k];
      PrefixValid(s, acts[..|acts| - 1], k);
    }
  }

  /**
   If the reporter is idle at some moment and takes no tick from then on (as when cancellation
   finds it at the outer select), then by the time it leaves it has taken its final snapshot;
   with drainCtx unexpired all of it is in the channel, in order, and nothing was ever lost.
   */
  lemma IdleCancellationFlushes(limit: nat, acts: seq<Action>, k: nat)
    requires ValidRun(Init(limit), acts) && k <= |acts|
    requires ValidRun(Init(limit), acts[..k]) ==> Run(Init(limit), acts[..k]).phase.Waiting?
    requires forall i :: k <= i < |acts| ==> !acts[i].Tick?
    requires var s := Run(Init(limit), acts); s.phase.Leaving? || s.phase.Closed?
    ensures
      var s := Run(Init(limit), acts);
      && s.flush.Flush?
      && (!s.expired ==>
            s.taken == s.enqueued && s.flush.base <= |s.enqueued| && s.enqueued[s.flush.base..] == s.flush.items)
  {
    PrefixValid(Init(limit), acts, k);
    NotDispatchingRun(limit, acts, k);
    FinalFlush(limit, acts);
    InitHasInv(limit);
    RunKeepsInv(Init(limit), acts);
    FlushedAt(Run(Init(limit), acts));
  }

  ghost predicate Reaches(limit: nat, acts: seq<Action>, s: State) {
    ValidRun(Init(limit), acts) && Run(Init(limit), acts) == s
  }

  /** Some run of an agent with this RateLimit ends in s. */
  ghost predicate Reachable(limit: nat, s: State) {
    exists acts :: Reaches(limit, acts, s)
  }

  lemma Start(limit: nat)
    ensures Reachable(limit, Init(limit))
  {
    assert Reaches(limit, [], Init(limit));
  }

  lemma Step(limit: nat, s: State, a: Action)
    requires Reachable(limit, s) && Enabled(s, a)
    ensures Reachable(limit, Next(s, a))
  {
    var acts :| Reaches(limit, acts, s);
    assert (acts + [a])[..|acts + [a]| - 1] == acts;
    assert Reaches(limit, acts + [a], Next(s, a));
  }

  /** A cancellation in the middle of a dispatch: the rest is dropped and nothing is flushed. */
  lemma InterruptedDispatchLoses(limit: nat, m: Metric)
    ensures
      Reachable(limit, Init(limit).(phase := Closed, open := false, cancelled := true, taken := [m], lost := [m]))
  {
    var s := Init(limit);
    Start(limit);
    Step(limit, s, Tick([m]));
    var s1 := s.(phase := Dispatching([m]), taken := [m]);
    assert Next(s, Tick([m])) == s1;
    Step(limit, s1, Cancel);
    Step(limit, s1.(cancelled := true), AbandonDispatch);
    var s2 := s1.(cancelled := true, phase := Leaving, lost := [m]);
    Step(limit, s2, CloseJobs);
  }

  /** A deadline that passed before the signal came, as it does 30 s after the start: the flush may drop everything. */
  lemma ExpiredFlushLoses(limit: nat, m: Metric)
    ensures
      Reachable(limit, Init(limit).(phase := Closed, open := false, cancelled := true, expired := true,
                                    taken := [m], lost := [m], flush := Flush([m], 0)))
  {
    var s := Init(limit);
    Start(limit);
    Step(limit, s, Expire);
    var s1 := s.(expired := true);
    Step(limit, s1, Cancel);
    var s2 := s1.(cancelled := true);
    Step(limit, s2, StartFlush([m]));
    var s3 := s2.(phase := Flushing([m]), taken := [m], flush := Flush([m], 0));
    assert Next(s2, StartFlush([m])) == s3;
    Step(limit, s3, AbandonFlush);
    var s4 := s3.(phase := Leaving, lost := [m]);
    Step(limit, s4, CloseJobs);
  }

  // ---- Progress ---------------------------------------------------------------------------

  /** A step of the program itself: not a signal, a deadline or a tick of the report timer. */
  predicate Internal(a: Action) {
    !a.Cancel? && !a.Expire? && !a.Tick?
  }

  /** After cancellation the agent is never stuck: something can move until all have exited. */
  lemma NotStuck(s: State, snapshot: seq<Metric>) returns (a: Action)
    requires Inv(s) && s.limit > 0 && s.cancelled && !s.Terminated()
    ensures Enabled(s, a) && Internal(a)
    ensures a.StartFlush? ==> a.items == snapshot
  {
    match s.phase
    case Waiting => a := StartFlush(snapshot);
    case Dispatching(rest) => a := if rest == [] then DispatchDone else AbandonDispatch;
    case Flushing(rest) =>
      if rest == [] {
        a := FlushDone;
      } else if |s.queue| < 2 * s.limit {
        a := Enqueue;
      } else {
        a := WorkerMoves(s, 0);
      }
    case Leaving => a := CloseJobs;
    case Closed =>
      var w :| 0 <= w < |s.workers| && !s.workers[w].Exited?;
      a := WorkerMoves(s, w);
  }

  lemma WorkerMoves(s: State, w: nat) returns (a: Action)
    requires ChannelOk(s) && w < |s.workers|
    requires if s.phase.Closed? then !s.workers[w].Exited? else s.queue != []
    ensures Enabled(s, a) && a.OfWorker()
  {
    match s.workers[w]
    case Receiving => a := if s.queue != [] then Receive(w) else Quit(w);
    case Holding(_) => a := Send(w);
    case Sending(_, _, _) => a := PostEnds(w);
    case BackingOff(_, _, _) => a := BackoffOver(w);
  }

  function Work(s: State): nat {
    11 * |s.phase.Rest()| + 10 * |s.queue| + Weights(s.workers) + One(!s.cancelled) + One(!s.expired)
  }

  /** Every step but a tick makes (phase, work) lexicographically smaller. */
  lemma StepDecreases(s: State, a: Action)
    requires Enabled(s, a) && !a.Tick?
    ensures
      var s' := Next(s, a);
      s'.phase.Rank() < s.phase.Rank() || (s'.phase.Rank() == s.phase.Rank() && Work(s') < Work(s))
  {
    if a.OfWorker() {
      WorkerStepDecreases(s, a);
    }
  }

  lemma WorkerStepDecreases(s: State, a: Action)
    requires Enabled(s, a) && a.OfWorker()
    ensures var s' := WorkerNext(s, a); s'.phase == s.phase && Work(s') < Work(s)
  {
    var w := s.workers[a.w];
    match a
    case Receive(i) => ReceiveDecreases(s, i);
    case Quit(i) => StayDecreases(s, i, Exited);
    case Send(i) => SendDecreases(s, i);
    case PostFails(i) =>
      if w.retries == 0 {
        FinishDecreases(s, i);
      } else {
        StayDecreases(s, i, BackingOff(w.job, w.drain, w.retries));
      }
    case PostEnds(i) => FinishDecreases(s, i);
    case BackoffOver(i) => StayDecreases(s, i, Sending(w.job, w.drain, w.retries - 1));
    case BackoffCancelled(i) => FinishDecreases(s, i);
  }

  lemma ReceiveDecreases(s: State, i: nat)
    requires Enabled(s, Receive(i))
    ensures WorkerNext(s, Receive(i)).phase == s.phase && Work(WorkerNext(s, Receive(i))) < Work(s)
  {
    ReplaceWeight(s.workers, i, Holding(s.queue[0]));
  }

  lemma SendDecreases(s: State, i: nat)
    requires Enabled(s, Send(i))
    ensures WorkerNext(s, Send(i)).phase == s.phase && Work(WorkerNext(s, Send(i))) < Work(s)
  {
    ReplaceWeight(s.workers, i, Sending(s.workers[i].job, s.cancelled, RETRIES));
  }

  lemma FinishDecreases(s: State, i: nat)
    requires i < |s.workers| && (s.workers[i].Sending? || s.workers[i].BackingOff?)
    ensures Work(Finish(s, i, s.workers[i].job)) < Work(s)
  {
    ReplaceWeight(s.workers, i, Receiving);
  }

  lemma StayDecreases(s: State, i: nat, w: Worker)
    requires i < |s.workers| && w.Weight() < s.workers[i].Weight()
    ensures Work(Becomes(s, i, w)) < Work(s)
  {
    ReplaceWeight(s.workers, i, w);
  }

  /** State number j is followed by a step that is no tick, or all is over. */
  ghost predicate MovesAt(f: nat -> State, j: nat) {
    f(j).Terminated() || exists a :: Enabled(f(j), a) && !a.Tick? && f(j + 1) == Next(f(j), a)
  }

  /** A run that has stopped taking ticks. */
  ghost predicate TicklessFrom(f: nat -> State, i: nat) {
    forall j: nat :: j >= i ==> MovesAt(f, j)
  }

  /**
   However the selects choose, an agent that takes ticks only finitely often exits. With
   NotStuck: after cancellation it moves until it exits.
   */
  lemma {:induction false} Exits(f: nat -> State, i: nat) returns (k: nat)
    requires TicklessFrom(f, i)
    ensures k >= i && f(k).Terminated()
    decreases f(i).phase.Rank(), Work(f(i))
  {
    assert MovesAt(f, i);
    if f(i).Terminated() {
      k := i;
    } else {
      var a :| Enabled(f(i), a) && !a.Tick? && f(i + 1) == Next(f(i), a);
      StepDecreases(f(i), a);
      k := Exits(f, i + 1);
    }
  }
}
