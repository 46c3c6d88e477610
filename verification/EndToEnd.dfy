/**
 From the agent's jobs to the server's store: what the store holds once the worker pool has
 drained, when every SendMetric call reached the server exactly once. Arrivals lists the job
 numbers in the order the server handled them.
 */
module EndToEnd {
  import opened Model
  import opened Storage
  import Agent
  import Retry
  import Delivery

  predicate InRange(jobs: seq<Metric>, arrivals: seq<nat>) {
    forall i :: 0 <= i < |arrivals| ==> arrivals[i] < |jobs|
  }

  /** The metrics of the jobs that arrived, in order of arrival. */
  function Carried(jobs: seq<Metric>, arrivals: seq<nat>): seq<Metric>
    requires InRange(jobs, arrivals)
  {
    seq(|arrivals|, i requires 0 <= i < |arrivals| => jobs[arrivals[i]])
  }

  predicate OnceEach(jobs: seq<Metric>, arrivals: seq<nat>, j: nat) {
    Agent.Count(arrivals, j) == Agent.One(j < |jobs|)
  }

  ghost predicate AllOnce(jobs: seq<Metric>, arrivals: seq<nat>) {
    forall j :: OnceEach(jobs, arrivals, j)
  }

  lemma {:induction false} CountedMeansPresent(arrivals: seq<nat>, j: nat)
    ensures Agent.Count(arrivals, j) > 0 <==> j in arrivals
  {
    if arrivals == [] {
    } else {
      var n := |arrivals| - 1;
      assert arrivals == arrivals[..n] + [arrivals[n]];
      CountedMeansPresent(arrivals[..n], j);
    }
  }

  lemma {:induction false} CountWithout(arrivals: seq<nat>, i: nat, j: nat)
    requires i < |arrivals|
    ensures Agent.Count(arrivals, j) == Agent.Count(Without(arrivals, i), j) + Agent.One(arrivals[i] == j)
    decreases |arrivals|
  {
    var n := |arrivals| - 1;
    if i == n {
      assert Without(arrivals, i) == arrivals[..n];
    } else {
      var w := Without(arrivals, i);
      assert w[|w| - 1] == arrivals[n] && w[..|w| - 1] == Without(arrivals[..n], i);
      CountWithout(arrivals[..n], i, j);
    }
  }

  lemma ArrivalsInRange(jobs: seq<Metric>, arrivals: seq<nat>)
    requires AllOnce(jobs, arrivals)
    ensures InRange(jobs, arrivals)
  {
    forall i | 0 <= i < |arrivals| ensures arrivals[i] < |jobs| {
      assert OnceEach(jobs, arrivals, arrivals[i]);
      CountedMeansPresent(arrivals, arrivals[i]);
    }
  }

  /** Jobs that arrive once each carry exactly the metrics that were enqueued. */
  lemma {:induction false} SameBag(jobs: seq<Metric>, arrivals: seq<nat>)
    requires AllOnce(jobs, arrivals)
    ensures InRange(jobs, arrivals)
    ensures multiset(Carried(jobs, arrivals)) == multiset(jobs)
    decreases |jobs|
  {
    ArrivalsInRange(jobs, arrivals);
    if jobs == [] {
    } else {
      var n := |jobs| - 1;
      assert OnceEach(jobs, arrivals, n);
      CountedMeansPresent(arrivals, n);
      var i :| 0 <= i < |arrivals| && arrivals[i] == n;
      OthersOnce(jobs, arrivals, i);
      SameBag(jobs[..n], Without(arrivals, i));
      WithoutLast(jobs, arrivals, i);
    }
  }

  lemma OthersOnce(jobs: seq<Metric>, arrivals: seq<nat>, i: nat)
    requires jobs != [] && i < |arrivals| && arrivals[i] == |jobs| - 1
    requires AllOnce(jobs, arrivals)
    ensures AllOnce(jobs[..|jobs| - 1], Without(arrivals, i))
  {
    var front := jobs[..|jobs| - 1];
    forall j: nat ensures OnceEach(front, Without(arrivals, i), j) {
      assert OnceEach(jobs, arrivals, j);
      CountWithout(arrivals, i, j);
    }
  }

  lemma WithoutLast(jobs: seq<Metric>, arrivals: seq<nat>, i: nat)
    requires jobs != [] && i < |arrivals| && arrivals[i] == |jobs| - 1
    requires InRange(jobs, arrivals) && InRange(jobs[..|jobs| - 1], Without(arrivals, i))
    requires multiset(Carried(jobs[..|jobs| - 1], Without(arrivals, i))) == multiset(jobs[..|jobs| - 1])
    ensures multiset(Carried(jobs, arrivals)) == multiset(jobs)
  {
    var n := |jobs| - 1;
    var all := Carried(jobs, arrivals);
    assert Without(all, i) == Carried(jobs[..n], Without(arrivals, i));
    WithoutMultiset(all, i);
    assert jobs == jobs[..n] + [jobs[n]];
  }

  // ---- Counters: lost and repeated requests ------------------------------------------------------

  /** Every job's delta, times the number of times it arrived. */
  function Delivered(jobs: seq<Metric>, arrivals: seq<nat>, name: string): int {
    if jobs == [] then 0
    else
      var n := |jobs| - 1;
      Delivered(jobs[..n], arrivals, name) + Retry.Repeated(Agent.Count(arrivals, n), NetDelta(Effect(jobs[n]), name))
  }

  lemma {:induction false} DeliveredSnoc(jobs: seq<Metric>, arrivals: seq<nat>, k: nat, name: string)
    ensures Delivered(jobs, arrivals + [k], name) ==
            Delivered(jobs, arrivals, name) + if k < |jobs| then NetDelta(Effect(jobs[k]), name) else 0
  {
    if jobs == [] {
    } else {
      var n := |jobs| - 1;
      DeliveredSnoc(jobs[..n], arrivals, k, name);
      Agent.CountSnoc(arrivals, k, n);
      assert forall c: nat, d :: Retry.Repeated(c + 1, d) == d + Retry.Repeated(c, d);
    }
  }

  lemma {:induction false} NothingArrived(jobs: seq<Metric>, name: string)
    ensures Delivered(jobs, [], name) == 0
  {
    if jobs == [] {
    } else {
      NothingArrived(jobs[..|jobs| - 1], name);
      assert Agent.Count([], |jobs| - 1) == 0;
    }
  }

  /** Metric number i is that of the i-th arrival. */
  predicate Carries(jobs: seq<Metric>, arrivals: seq<nat>, ms: seq<Metric>) {
    |ms| == |arrivals| && forall i :: 0 <= i < |ms| ==> arrivals[i] < |jobs| && ms[i] == jobs[arrivals[i]]
  }

  lemma {:induction false} ArrivalsSum(jobs: seq<Metric>, arrivals: seq<nat>, ms: seq<Metric>, name: string)
    requires Carries(jobs, arrivals, ms)
    ensures NetDelta(Effects(ms), name) == Delivered(jobs, arrivals, name)
  {
    if arrivals == [] {
      NothingArrived(jobs, name);
    } else {
      var n := |arrivals| - 1;
      var front, k, before := arrivals[..n], arrivals[n], ms[..n];
      SplitLast(arrivals);
      SplitLast(ms);
      ArrivalsSum(jobs, front, before, name);
      OneMoreArrival(jobs, front, k, before, name);
    }
  }

  lemma SplitLast<T>(s: seq<T>)
    requires s != []
    ensures s == s[..|s| - 1] + [s[|s| - 1]]
  {
  }

  lemma OneMoreArrival(jobs: seq<Metric>, arrivals: seq<nat>, k: nat, ms: seq<Metric>, name: string)
    requires NetDelta(Effects(ms), name) == Delivered(jobs, arrivals, name) && k < |jobs|
    ensures NetDelta(Effects(ms + [jobs[k]]), name) == Delivered(jobs, arrivals + [k], name)
  {
    NetOfSnoc(ms, jobs[k], name);
    DeliveredSnoc(jobs, arrivals, k, name);
  }

  lemma NetOfSnoc(ms: seq<Metric>, m: Metric, name: string)
    ensures NetDelta(Effects(ms + [m]), name) == NetDelta(Effects(ms), name) + NetDelta(Effect(m), name)
  {
    assert (ms + [m])[..|ms|] == ms;
    NetDeltaConcat(Effects(ms), Effect(m), name);
  }

  /**
   Whatever requests were lost, and whatever a retry repeated because its answer was lost: a
   counter moves by each enqueued delta times the number of its arrivals, in any order.
   */
  lemma ArrivalsCounted(r: Store, s: Store, jobs: seq<Metric>, arrivals: seq<nat>, ms: seq<Metric>, log: seq<Update>,
                        name: string, delta: int)
    requires Carries(jobs, arrivals, ms) && log == Effects(ms) && r == Replay(s, log)
    requires delta == Delivered(jobs, arrivals, name)
    ensures r.Counter(name) == Wrap64(s.Counter(name) + delta)
  {
    ArrivalsSum(jobs, arrivals, ms, name);
    CounterBy(s, log, delta, name);
  }

  lemma CounterBy(s: Store, log: seq<Update>, delta: int, name: string)
    requires NetDelta(log, name) == delta
    ensures Replay(s, log).Counter(name) == Wrap64(s.Counter(name) + delta)
  {
    CounterOverRun(s, log, name);
  }

  // ---- How often one SendMetric call arrives -----------------------------------------------------

  /** A job's number, n times. */
  function Again(job: nat, n: nat): seq<nat> {
    seq(n, _ => job)
  }

  function Arriving(job: nat): seq<nat> -> seq<nat> {
    (arrivals: seq<nat>) => arrivals + [job]
  }

  lemma {:induction false} IterateArriving(job: nat, arrivals: seq<nat>, n: nat)
    ensures Retry.Iterate(Arriving(job), arrivals, n) == arrivals + Again(job, n)
  {
    if n == 0 {
      assert Again(job, 0) == [];
    } else {
      IterateArriving(job, arrivals, n - 1);
      assert Again(job, n) == Again(job, n - 1) + [job];
    }
  }

  function IfNetError(): Retry.Error -> bool {
    (e: Retry.Error) => Retry.RetriableNet(e)
  }

  /**
   sendJSON posts under retryOnConnErr, and a post may be handled although its answer is lost
   (silent). Then one SendMetric call of a job makes it arrive at most four times, at least
   once if the call succeeds, and exactly once if it succeeds and no answer was lost.
   */
  lemma ArrivalsOfOneCall(arrivals: seq<nat>, job: nat, post: Retry.Attempt<seq<nat>>,
                          silent: Retry.Silently<seq<nat>>, cancelled: nat -> bool) returns (n: nat)
    requires Retry.AllOrNothing(post, silent, Arriving(job))
    ensures
      var t := Retry.Attempts(arrivals, post, IfNetError(), cancelled, 0);
      && t.state == arrivals + Again(job, n) && n <= t.calls <= 4
      && (t.calls > 1 <==> post(arrivals, 0).err == Some(Retry.NetError) && !cancelled(0))
      && n == Retry.SilentCalls(arrivals, post, silent, IfNetError(), cancelled, 0) + if t.err.None? then 1 else 0
  {
    var t := Retry.Attempts(arrivals, post, IfNetError(), cancelled, 0);
    n := Retry.SilentCalls(arrivals, post, silent, IfNetError(), cancelled, 0) + if t.err.None? then 1 else 0;
    Retry.RetriedEffects(arrivals, post, silent, Arriving(job), IfNetError(), cancelled, 0);
    Retry.AttemptBounds(arrivals, post, IfNetError(), cancelled, 0);
    Retry.EffectsWithinCalls(arrivals, post, silent, Arriving(job), IfNetError(), cancelled, 0);
    IterateArriving(job, arrivals, n);
    SecondCallWhen(arrivals, post, cancelled);
  }

  /** A post is repeated exactly after a network error, unless the context ends first. */
  lemma SecondCallWhen(arrivals: seq<nat>, post: Retry.Attempt<seq<nat>>, cancelled: nat -> bool)
    ensures Retry.Attempts(arrivals, post, IfNetError(), cancelled, 0).calls > 1 <==>
            post(arrivals, 0).err == Some(Retry.NetError) && !cancelled(0)
  {
    var last := Retry.LastCall(arrivals, post, IfNetError(), cancelled);
    assert Retry.StateBefore(arrivals, post, 0) == arrivals;
    assert last > 0 ==> Retry.Repeats(arrivals, post, IfNetError(), cancelled, 0);
  }

  // ---- Counters: any number of workers ---------------------------------------------------------

  lemma BagDecidesCounters(s: Store, a: seq<Metric>, b: seq<Metric>)
    requires multiset(a) == multiset(b)
    ensures Replay(s, Effects(a)).counters == Replay(s, Effects(b)).counters
  {
    Delivery.EffectsOrderFree(a, b);
    ReplayCountersOrderFree(s, Effects(a), Effects(b));
  }

  /**
   However many workers there are and however they interleave: once the agent has exited, the
   counters of the server are those that one batch of everything enqueued would have left.
   */
  lemma DrainedCounters(limit: nat, acts: seq<Agent.Action>, s: Store, arrivals: seq<nat>)
    requires limit > 0 && Agent.ValidRun(Agent.Init(limit), acts)
    requires Agent.Run(Agent.Init(limit), acts).Terminated()
    requires forall j :: Agent.Count(arrivals, j) == Agent.Count(Agent.Run(Agent.Init(limit), acts).started, j)
    ensures
      var jobs := Agent.Run(Agent.Init(limit), acts).enqueued;
      && InRange(jobs, arrivals)
      && multiset(Carried(jobs, arrivals)) == multiset(jobs)
      && Replay(s, Effects(Carried(jobs, arrivals))).counters == Replay(s, Effects(jobs)).counters
  {
    var jobs := Agent.Run(Agent.Init(limit), acts).enqueued;
    forall j: nat ensures OnceEach(jobs, arrivals, j) {
      Agent.AllJobsSent(limit, acts, j);
    }
    SameBag(jobs, arrivals);
    BagDecidesCounters(s, Carried(jobs, arrivals), jobs);
  }

  // ---- One worker: gauges too --------------------------------------------------------------------

  predicate Counting(jobs: seq<nat>) {
    forall i :: 0 <= i < |jobs| ==> jobs[i] == i
  }

  /** A single worker calls SendMetric for jobs 0, 1, 2 and so on. */
  predicate InOrder(s: Agent.State) {
    && |s.workers| == 1 && Counting(s.started)
    && if s.workers[0].Holding? then s.workers[0].job == |s.started| == Agent.Gone(s) - 1
       else |s.started| == Agent.Gone(s)
  }

  lemma InOrderStep(s: Agent.State, a: Agent.Action)
    requires Agent.Enabled(s, a) && Agent.BufferOk(s) && InOrder(s)
    ensures InOrder(Agent.Next(s, a))
  {
    if a.OfWorker() {
      WorkerKeepsOrder(s, a);
    }
  }

  lemma WorkerKeepsOrder(s: Agent.State, a: Agent.Action)
    requires Agent.Enabled(s, a) && a.OfWorker() && Agent.BufferOk(s) && InOrder(s)
    ensures InOrder(Agent.WorkerNext(s, a))
  {
  }

  lemma {:induction false} OneWorkerInOrder(acts: seq<Agent.Action>)
    requires Agent.ValidRun(Agent.Init(1), acts)
    ensures InOrder(Agent.Run(Agent.Init(1), acts))
  {
    if acts == [] {
    } else {
      var before := acts[..|acts| - 1];
      OneWorkerInOrder(before);
      Agent.InitHasInv(1);
      Agent.RunKeepsInv(Agent.Init(1), before);
      InOrderStep(Agent.Run(Agent.Init(1), before), acts[|acts| - 1]);
    }
  }

  /**
   With RateLimit 1 a request is over before the next begins, so the server handles the jobs
   in the order of the calls; then the whole store, gauges included, is that of the one batch.
   */
  lemma OneWorkerKeepsOrder(acts: seq<Agent.Action>, s: Store)
    requires Agent.ValidRun(Agent.Init(1), acts) && Agent.Run(Agent.Init(1), acts).Terminated()
    ensures
      var r := Agent.Run(Agent.Init(1), acts);
      && InRange(r.enqueued, r.started)
      && Carried(r.enqueued, r.started) == r.enqueued
      && Replay(s, Effects(Carried(r.enqueued, r.started))) == Replay(s, Effects(r.enqueued))
  {
    OneWorkerInOrder(acts);
    Agent.InitHasInv(1);
    Agent.RunKeepsInv(Agent.Init(1), acts);
    Agent.LimitFixed(1, acts);
    Agent.NothingLeft(Agent.Run(Agent.Init(1), acts), 0);
  }

  // ---- Several workers: exactly when the gauges are right ----------------------------------------

  /** Two logs leave a gauge with the same value. */
  predicate LastAgree(a: seq<Update>, b: seq<Update>, name: string) {
    LastGauge(a, name) == LastGauge(b, name)
  }

  predicate BothSet(a: seq<Update>, b: seq<Update>, name: string) {
    LastGauge(a, name).Some? <==> LastGauge(b, name).Some?
  }

  lemma LastGaugesDecide(s: Store, a: seq<Update>, b: seq<Update>)
    requires Replay(s, a).counters == Replay(s, b).counters
    requires forall name :: BothSet(a, b, name)
    ensures Replay(s, a) == Replay(s, b) <==> forall name :: LastAgree(a, b, name)
  {
    var p, q := Replay(s, a), Replay(s, b);
    forall name: string ensures SameAt(p, q, name) <==> LastAgree(a, b, name) {
      assert BothSet(a, b, name);
      OneGaugeDecides(s, a, b, name);
    }
    SameEverywhere(p, q);
  }

  lemma OneGaugeDecides(s: Store, a: seq<Update>, b: seq<Update>, name: string)
    requires BothSet(a, b, name)
    ensures SameAt(Replay(s, a), Replay(s, b), name) <==> LastAgree(a, b, name)
  {
    GaugeOverRun(s, a, name);
    GaugeOverRun(s, b, name);
  }

  predicate SameAt(p: Store, q: Store, name: string) {
    (name in p.gauges <==> name in q.gauges) &&
    (name in p.gauges && name in q.gauges ==> p.gauges[name] == q.gauges[name])
  }

  lemma SameEverywhere(p: Store, q: Store)
    requires p.counters == q.counters
    ensures p == q <==> forall name :: SameAt(p, q, name)
  {
    if forall name :: SameAt(p, q, name) {
      forall name: string
        ensures name in p.gauges <==> name in q.gauges
        ensures name in p.gauges && name in q.gauges ==> p.gauges[name] == q.gauges[name]
      {
        assert SameAt(p, q, name);
      }
      assert p.gauges == q.gauges;
    }
  }

  lemma SameGaugesSet(a: seq<Update>, b: seq<Update>, name: string)
    requires multiset(a) == multiset(b) && LastGauge(a, name).Some?
    ensures LastGauge(b, name).Some?
  {
    LastGaugeMeaning(a, name);
    LastGaugeMeaning(b, name);
    var i: nat :| LastGaugeAt(a, name, i);
    var j := Delivery.SameElements(a, b, i);
  }

  lemma SameReports(jobs: seq<Metric>, arrivals: seq<nat>)
    requires AllOnce(jobs, arrivals)
    ensures InRange(jobs, arrivals)
    ensures forall name :: BothSet(Effects(Carried(jobs, arrivals)), Effects(jobs), name)
  {
    SameBag(jobs, arrivals);
    var carried := Carried(jobs, arrivals);
    Delivery.EffectsOrderFree(carried, jobs);
    forall name: string ensures BothSet(Effects(carried), Effects(jobs), name) {
      if LastGauge(Effects(carried), name).Some? {
        SameGaugesSet(Effects(carried), Effects(jobs), name);
      } else if LastGauge(Effects(jobs), name).Some? {
        SameGaugesSet(Effects(jobs), Effects(carried), name);
      }
    }
  }

  /**
   When every job arrives once, in whatever order the workers manage: the store is that of the
   one batch if and only if, for every gauge, the last report to arrive carries the value of
   the last one enqueued.
   */
  lemma RightIffLastArrivalsAgree(s: Store, jobs: seq<Metric>, arrivals: seq<nat>)
    requires AllOnce(jobs, arrivals)
    ensures InRange(jobs, arrivals)
    ensures
      var arrived, sent := Effects(Carried(jobs, arrivals)), Effects(jobs);
      Replay(s, arrived) == Replay(s, sent) <==> forall name :: LastAgree(arrived, sent, name)
  {
    SameBag(jobs, arrivals);
    var carried := Carried(jobs, arrivals);
    BagDecidesCounters(s, carried, jobs);
    SameReports(jobs, arrivals);
    LastGaugesDecide(s, Effects(carried), Effects(jobs));
  }
}
