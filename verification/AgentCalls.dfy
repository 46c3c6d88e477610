/**
 How every SendMetric call of the agent ends, told by the actions of the run: by an answer, by
 its fourth failed post, or by the one context it watches. And how much the channel holds.
 */
module AgentCalls {
  import opened Model
  import opened Agent
  import EndToEnd
  import GaugeOrder

  predicate Cancelled(acts: seq<Action>) {
    exists i :: 0 <= i < |acts| && acts[i].Cancel?
  }

  predicate Expired(acts: seq<Action>) {
    exists i :: 0 <= i < |acts| && acts[i].Expire?
  }

  /** The position of worker w's last call of SendMetric. */
  function LastSend(acts: seq<Action>, w: nat): Option<nat> {
    if acts == [] then None
    else if acts[|acts| - 1] == Send(w) then Some(|acts| - 1)
    else LastSend(acts[..|acts| - 1], w)
  }

  lemma {:induction false} LastSendInRange(acts: seq<Action>, w: nat)
    ensures LastSend(acts, w).Some? ==> LastSend(acts, w).value < |acts| && acts[LastSend(acts, w).value] == Send(w)
    ensures LastSend(acts, w).Some? ==> forall i :: LastSend(acts, w).value < i < |acts| ==> acts[i] != Send(w)
    ensures LastSend(acts, w).None? ==> forall i :: 0 <= i < |acts| ==> acts[i] != Send(w)
  {
    if acts == [] {
    } else {
      LastSendInRange(acts[..|acts| - 1], w);
      assert forall i :: 0 <= i < |acts| - 1 ==> acts[i] == acts[..|acts| - 1][i];
    }
  }

  /** Was worker w's last call begun after the signal? */
  predicate BegunAfterSignal(acts: seq<Action>, w: nat) {
    var j := LastSend(acts, w);
    j.Some? && j.value <= |acts| && Cancelled(acts[..j.value])
  }

  /** Failed posts of worker w since its last call began. */
  function Failures(acts: seq<Action>, w: nat): nat {
    if acts == [] then 0
    else
      var before := Failures(acts[..|acts| - 1], w);
      match acts[|acts| - 1]
      case Send(v) => if v == w then 0 else before
      case PostFails(v) => if v == w then before + 1 else before
      case _ => before
  }

  // ---- The state remembers the actions ---------------------------------------------------------------

  lemma HistorySnoc(acts: seq<Action>, a: Action)
    ensures Cancelled(acts + [a]) <==> Cancelled(acts) || a.Cancel?
    ensures Expired(acts + [a]) <==> Expired(acts) || a.Expire?
  {
    var more := acts + [a];
    assert more[|acts|] == a && forall i :: 0 <= i < |acts| ==> more[i] == acts[i];
    if Cancelled(acts) {
      var i :| 0 <= i < |acts| && acts[i].Cancel?;
      assert more[i].Cancel?;
    }
    if Expired(acts) {
      var i :| 0 <= i < |acts| && acts[i].Expire?;
      assert more[i].Expire?;
    }
  }

  lemma ContextStep(s: State, a: Action)
    requires Enabled(s, a)
    ensures Next(s, a).cancelled == (s.cancelled || a.Cancel?) && Next(s, a).expired == (s.expired || a.Expire?)
  {
    if a.OfWorker() {
      assert WorkerNext(s, a).cancelled == s.cancelled && WorkerNext(s, a).expired == s.expired;
    }
  }

  lemma {:induction false} Contexts(limit: nat, acts: seq<Action>)
    requires ValidRun(Init(limit), acts)
    ensures Run(Init(limit), acts).cancelled == Cancelled(acts)
    ensures Run(Init(limit), acts).expired == Expired(acts)
  {
    if acts == [] {
    } else {
      var before, a := acts[..|acts| - 1], acts[|acts| - 1];
      Contexts(limit, before);
      ContextStep(Run(Init(limit), before), a);
      HistorySnoc(before, a);
      EndToEnd.SplitLast(acts);
    }
  }

  /** A worker in a call knows when the call began and how many of its posts have failed. */
  predicate Remembers(worker: Worker, late: bool, failures: nat) {
    match worker
    case Sending(_, drain, retries) => drain == late && failures + retries == 3
    case BackingOff(_, drain, retries) => drain == late && failures + retries == 4
    case _ => true
  }

  lemma MemoryOf(acts: seq<Action>, a: Action, w: nat)
    ensures BegunAfterSignal(acts + [a], w) == if a == Send(w) then Cancelled(acts) else BegunAfterSignal(acts, w)
    ensures Failures(acts + [a], w) ==
            if a == Send(w) then 0 else Failures(acts, w) + if a == PostFails(w) then 1 else 0
  {
    var more := acts + [a];
    assert more[..|acts|] == acts;
    LastSendInRange(acts, w);
    if a != Send(w) && LastSend(acts, w).Some? {
      var j := LastSend(acts, w).value;
      PrefixSame(acts, a, j);
    }
  }

  lemma PrefixSame<T>(s: seq<T>, x: T, j: nat)
    requires j <= |s|
    ensures (s + [x])[..j] == s[..j]
  {
  }

  /** What a worker's own action makes of it. */
  function Becoming(worker: Worker, a: Action, cancelled: bool, next: nat): Worker {
    match a
    case Receive(_) => Holding(next)
    case Quit(_) => Exited
    case Send(_) => if worker.Holding? then Sending(worker.job, cancelled, 3) else worker
    case PostFails(_) =>
      if worker.Sending? && worker.retries > 0 then BackingOff(worker.job, worker.drain, worker.retries) else Receiving
    case BackoffOver(_) =>
      if worker.BackingOff? && worker.retries > 0 then Sending(worker.job, worker.drain, worker.retries - 1) else worker
    case _ => Receiving
  }

  lemma ActingWorker(s: State, a: Action)
    requires Enabled(s, a) && a.OfWorker()
    ensures
      WorkerNext(s, a).workers ==
      s.workers[a.w := Becoming(s.workers[a.w], a, s.cancelled, if s.queue == [] then 0 else s.queue[0])]
  {
  }

  lemma MemoryStep(s: State, a: Action, w: nat, late: bool, failures: nat)
    requires Enabled(s, a) && w < |s.workers| && Remembers(s.workers[w], late, failures)
    ensures w < |Next(s, a).workers|
    ensures
      var late' := if a == Send(w) then s.cancelled else late;
      var failures' := if a == Send(w) then 0 else failures + if a == PostFails(w) then 1 else 0;
      Remembers(Next(s, a).workers[w], late', failures')
  {
    if a.OfWorker() {
      ActingWorker(s, a);
      if a.w == w {
        OwnMemory(s.workers[w], a, s.cancelled, if s.queue == [] then 0 else s.queue[0], late, failures);
      }
    }
  }

  lemma OwnMemory(worker: Worker, a: Action, cancelled: bool, next: nat, late: bool, failures: nat)
    requires a.OfWorker() && Remembers(worker, late, failures)
    requires (a.Send? ==> worker.Holding?) && (a.PostFails? ==> worker.Sending?)
    requires a.BackoffOver? ==> worker.BackingOff? && worker.retries > 0
    ensures
      var late' := if a.Send? then cancelled else late;
      var failures' := if a.Send? then 0 else failures + if a.PostFails? then 1 else 0;
      Remembers(Becoming(worker, a, cancelled, next), late', failures')
  {
  }

  lemma {:induction false} RunRemembers(limit: nat, acts: seq<Action>, w: nat)
    requires ValidRun(Init(limit), acts) && w < limit
    ensures
      var s := Run(Init(limit), acts);
      w < |s.workers| && Remembers(s.workers[w], BegunAfterSignal(acts, w), Failures(acts, w))
  {
    if acts == [] {
    } else {
      var before, a := acts[..|acts| - 1], acts[|acts| - 1];
      RunRemembers(limit, before, w);
      Contexts(limit, before);
      MemoryStep(Run(Init(limit), before), a, w, BegunAfterSignal(before, w), Failures(before, w));
      MemoryOf(before, a, w);
      EndToEnd.SplitLast(acts);
    }
  }

  // ---- How a call can end ------------------------------------------------------------------------------

  /** Has the context that worker w's call watches come to its end? */
  predicate ContextOver(acts: seq<Action>, w: nat) {
    if BegunAfterSignal(acts, w) then Expired(acts) else Cancelled(acts)
  }

  /**
   Between two posts a call can be broken off if and only if its context is over: drainCtx for
   a call begun after the signal, the signal itself for any other. It can always go on.
   */
  lemma InterruptedWhen(limit: nat, acts: seq<Action>, w: nat)
    requires ValidRun(Init(limit), acts) && w < |Run(Init(limit), acts).workers|
    requires Run(Init(limit), acts).workers[w].BackingOff?
    ensures Enabled(Run(Init(limit), acts), BackoffCancelled(w)) <==> ContextOver(acts, w)
    ensures Enabled(Run(Init(limit), acts), BackoffOver(w))
  {
    InitHasInv(limit);
    RunKeepsInv(Init(limit), acts);
    LimitFixed(limit, acts);
    RunRemembers(limit, acts, w);
    Contexts(limit, acts);
  }

  /** The server and the network may do as they like: a post under way can fail, and can be answered. */
  lemma PostsEndEitherWay(s: State, w: nat)
    requires w < |s.workers| && s.workers[w].Sending?
    ensures Enabled(s, PostFails(w)) && Enabled(s, PostEnds(w))
  {
  }

  predicate InCall(worker: Worker) {
    worker.Sending? || worker.BackingOff?
  }

  lemma EndingStep(s: State, a: Action, w: nat)
    requires Enabled(s, a) && w < |s.workers| && InCall(s.workers[w])
    ensures w < |Next(s, a).workers|
    ensures !InCall(Next(s, a).workers[w]) <==>
      a == PostEnds(w) || (a == PostFails(w) && s.workers[w].retries == 0) || a == BackoffCancelled(w)
    ensures a == PostFails(w) ==> s.workers[w].Sending?
    ensures a == BackoffCancelled(w) ==> s.workers[w].BackingOff?
  {
    if a.OfWorker() {
      ActingWorker(s, a);
    }
  }

  /**
   A call of SendMetric is over, in any run, exactly when a post gets an answer that is not
   retried, when its fourth post fails, or when it is broken off by the end of its context.
   */
  lemma HowCallsEnd(limit: nat, acts: seq<Action>, a: Action, w: nat)
    requires ValidRun(Init(limit), acts) && Enabled(Run(Init(limit), acts), a)
    requires w < |Run(Init(limit), acts).workers| && InCall(Run(Init(limit), acts).workers[w])
    ensures w < |Next(Run(Init(limit), acts), a).workers|
    ensures !InCall(Next(Run(Init(limit), acts), a).workers[w]) <==>
      a == PostEnds(w) || (a == PostFails(w) && Failures(acts + [a], w) == 4) ||
      (a == BackoffCancelled(w) && ContextOver(acts, w))
  {
    var s := Run(Init(limit), acts);
    LimitFixed(limit, acts);
    InitHasInv(limit);
    RunKeepsInv(Init(limit), acts);
    RunRemembers(limit, acts, w);
    EndingStep(s, a, w);
    MemoryOf(acts, a, w);
    if a == BackoffCancelled(w) {
      InterruptedWhen(limit, acts, w);
    }
  }

  /** While drainCtx lasts, a call begun after the signal is never broken off. */
  lemma DrainedCallsEndByThemselves(limit: nat, acts: seq<Action>, a: Action, w: nat)
    requires ValidRun(Init(limit), acts) && Enabled(Run(Init(limit), acts), a) && !Expired(acts)
    requires w < |Run(Init(limit), acts).workers| && InCall(Run(Init(limit), acts).workers[w])
    requires BegunAfterSignal(acts, w)
    ensures w < |Next(Run(Init(limit), acts), a).workers|
    ensures !InCall(Next(Run(Init(limit), acts), a).workers[w]) ==>
      a == PostEnds(w) || (a == PostFails(w) && Failures(acts + [a], w) == 4)
  {
    HowCallsEnd(limit, acts, a, w);
  }

  /** A report with nothing to send changes nothing; any other is dispatched whole. */
  lemma TickTakes(s: State, items: seq<Metric>)
    requires s.phase.Waiting?
    ensures Enabled(s, Tick(items))
    ensures items == [] ==> Next(s, Tick(items)) == s
    ensures items != [] ==>
      Next(s, Tick(items)).phase == Dispatching(items) && Next(s, Tick(items)).taken == s.taken + items
  {
  }

  // ---- How much the channel holds --------------------------------------------------------------------------

  lemma {:induction false} Fill(limit: nat, m: Metric, n: nat) returns (s: State)
    requires n <= 2 * limit
    ensures Reachable(limit, s) && |s.queue| == n && |s.enqueued| == n && s.started == []
    ensures s.phase.Waiting? && s.open && s.limit == limit
  {
    if n == 0 {
      s := Init(limit);
      Start(limit);
    } else {
      var before := Fill(limit, m, n - 1);
      GaugeOrder.ReportOne(limit, before, m);
      s := before.(queue := before.queue + [|before.enqueued|], taken := before.taken + [m],
                   enqueued := before.enqueued + [m]);
    }
  }

  /** The channel really takes 2 * RateLimit jobs before the reporter blocks, and then it blocks. */
  lemma BlocksWhenFull(limit: nat, m: Metric) returns (full: State)
    ensures Reachable(limit, full) && |full.queue| == 2 * limit && full.started == []
    ensures
      var next := full.(phase := Dispatching([m]), taken := full.taken + [m]);
      Reachable(limit, next) && !Enabled(next, Enqueue)
  {
    full := Fill(limit, m, 2 * limit);
    assert Next(full, Tick([m])) == full.(phase := Dispatching([m]), taken := full.taken + [m]);
    Step(limit, full, Tick([m]));
  }
}
