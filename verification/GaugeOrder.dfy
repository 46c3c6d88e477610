/**
 When the server's gauges can be trusted, over all schedules of an agent: exactly with one
 worker, or when no gauge is ever reported with two values. Otherwise one worker can hold an
 old report back until all others are sent. Each lemma of that run advances a reachable state.
 */
module GaugeOrder {
  import opened Model
  import opened Storage
  import opened EndToEnd
  import Agent

  // ---- Reports of gauges -------------------------------------------------------------------------

  predicate Reports(m: Metric, name: string) {
    m.mtype.Gauge? && m.value.Some? && m.id == name
  }

  /** Any two jobs that report the same gauge carry the same value. */
  predicate OneValue(jobs: seq<Metric>) {
    forall i, j :: 0 <= i < |jobs| && 0 <= j < |jobs| && Reports(jobs[i], jobs[i].id) && Reports(jobs[j], jobs[i].id) ==>
      jobs[i].value == jobs[j].value
  }

  lemma LastReportSnoc(ms: seq<Metric>, m: Metric, name: string)
    ensures LastGauge(Effects(ms + [m]), name) == if Reports(m, name) then m.value else LastGauge(Effects(ms), name)
  {
    assert (ms + [m])[..|ms|] == ms;
    var log := Effects(ms);
    if Effect(m) == [] {
      assert log + [] == log;
    } else {
      var u := Effect(m)[0];
      assert (log + [u])[..|log|] == log;
    }
  }

  /** The last value logged for a gauge is that of some job, and any job that reports it logs one. */
  lemma {:induction false} LastReport(ms: seq<Metric>, name: string)
    ensures LastGauge(Effects(ms), name).Some? ==>
      exists i :: 0 <= i < |ms| && Reports(ms[i], name) && ms[i].value == LastGauge(Effects(ms), name)
    ensures LastGauge(Effects(ms), name).None? ==> forall i :: 0 <= i < |ms| ==> !Reports(ms[i], name)
  {
    if ms == [] {
    } else {
      var n := |ms| - 1;
      LastReport(ms[..n], name);
      SplitLast(ms);
      LastReportSnoc(ms[..n], ms[n], name);
      if LastGauge(Effects(ms), name).Some? && !Reports(ms[n], name) {
        var i :| 0 <= i < n && Reports(ms[..n][i], name) && ms[..n][i].value == LastGauge(Effects(ms[..n]), name);
        assert Reports(ms[i], name);
      }
    }
  }

  // ---- Safe: one value ---------------------------------------------------------------------------

  /** The metric that the last value logged for a gauge comes from. */
  lemma LastReporter(ms: seq<Metric>, name: string) returns (m: Metric)
    requires LastGauge(Effects(ms), name).Some?
    ensures m in ms && Reports(m, name) && m.value == LastGauge(Effects(ms), name)
  {
    LastReport(ms, name);
    var i :| 0 <= i < |ms| && Reports(ms[i], name) && ms[i].value == LastGauge(Effects(ms), name);
    m := ms[i];
  }

  lemma SameValue(jobs: seq<Metric>, a: Metric, b: Metric, name: string)
    requires OneValue(jobs) && a in jobs && b in jobs && Reports(a, name) && Reports(b, name)
    ensures a.value == b.value
  {
  }

  lemma OneValueAgrees(jobs: seq<Metric>, ms: seq<Metric>, name: string)
    requires OneValue(jobs) && forall m :: m in ms ==> m in jobs
    requires BothSet(Effects(ms), Effects(jobs), name)
    ensures LastAgree(Effects(ms), Effects(jobs), name)
  {
    if LastGauge(Effects(jobs), name).Some? {
      var a := LastReporter(ms, name);
      var b := LastReporter(jobs, name);
      SameValue(jobs, a, b, name);
    }
  }

  lemma OneValueIsSafe(s: Store, jobs: seq<Metric>, arrivals: seq<nat>)
    requires AllOnce(jobs, arrivals) && OneValue(jobs)
    ensures InRange(jobs, arrivals)
    ensures Replay(s, Effects(Carried(jobs, arrivals))) == Replay(s, Effects(jobs))
  {
    RightIffLastArrivalsAgree(s, jobs, arrivals);
    SameReports(jobs, arrivals);
    var ms := Carried(jobs, arrivals);
    forall name: string ensures LastAgree(Effects(ms), Effects(jobs), name) {
      OneValueAgrees(jobs, ms, name);
    }
  }

  // ---- A run that holds one job back -----------------------------------------------------------------

  /** The reporter at its outer select takes a snapshot of one metric and enqueues it. */
  lemma ReportOne(limit: nat, s: Agent.State, m: Metric)
    requires Agent.Reachable(limit, s) && s.phase.Waiting? && |s.queue| < 2 * s.limit && s.open
    ensures
      Agent.Reachable(limit, s.(queue := s.queue + [|s.enqueued|], taken := s.taken + [m], enqueued := s.enqueued + [m]))
  {
    var s1 := s.(phase := Agent.Dispatching([m]), taken := s.taken + [m]);
    assert Agent.Next(s, Agent.Tick([m])) == s1;
    Agent.Step(limit, s, Agent.Tick([m]));
    var s2 := s1.(phase := Agent.Dispatching([]), queue := s.queue + [|s.enqueued|], enqueued := s.enqueued + [m]);
    assert [m][1..] == [];
    assert Agent.Next(s1, Agent.Enqueue) == s2;
    Agent.Step(limit, s1, Agent.Enqueue);
    assert Agent.Next(s2, Agent.DispatchDone) == s2.(phase := Agent.Waiting);
    Agent.Step(limit, s2, Agent.DispatchDone);
  }

  lemma Take(limit: nat, s: Agent.State, w: nat)
    requires Agent.Reachable(limit, s) && w < |s.workers| && s.workers[w].Receiving? && |s.queue| == 1
    ensures Agent.Reachable(limit, s.(queue := [], workers := s.workers[w := Agent.Holding(s.queue[0])]))
  {
    assert s.queue[1..] == [];
    assert Agent.Next(s, Agent.Receive(w)) == s.(queue := [], workers := s.workers[w := Agent.Holding(s.queue[0])]);
    Agent.Step(limit, s, Agent.Receive(w));
  }

  /** A worker calls SendMetric with the job it holds, and the request is answered. */
  lemma SendHeld(limit: nat, s: Agent.State, w: nat)
    requires Agent.Reachable(limit, s) && w < |s.workers| && s.workers[w].Holding? && !s.cancelled
    ensures
      var j := s.workers[w].job;
      Agent.Reachable(limit, s.(workers := s.workers[w := Agent.Receiving], started := s.started + [j],
                                finished := s.finished + [j]))
  {
    var j := s.workers[w].job;
    var sending := Agent.Sending(j, false, Agent.RETRIES);
    var s1 := s.(workers := s.workers[w := sending], started := s.started + [j]);
    assert Agent.Next(s, Agent.Send(w)) == s1;
    Agent.Step(limit, s, Agent.Send(w));
    assert s1.workers[w := Agent.Receiving] == s.workers[w := Agent.Receiving];
    assert Agent.Next(s1, Agent.PostEnds(w)) ==
      s.(workers := s.workers[w := Agent.Receiving], started := s.started + [j], finished := s.finished + [j]);
    Agent.Step(limit, s1, Agent.PostEnds(w));
  }

  /** Between two reports: all jobs are out of the queue, worker 0 is first, the others are idle. */
  function Between(limit: nat, first: Agent.Worker, jobs: seq<Metric>, sent: seq<nat>): Agent.State
    requires limit > 1
  {
    var s := Agent.Init(limit);
    s.(workers := s.workers[0 := first], taken := jobs, enqueued := jobs, started := sent, finished := sent)
  }

  /** One more metric is reported, and worker w takes it. */
  lemma ReportAndTake(limit: nat, first: Agent.Worker, jobs: seq<Metric>, sent: seq<nat>, m: Metric, w: nat)
    requires limit > 1 && w < limit && (w == 0 ==> first.Receiving?)
    requires Agent.Reachable(limit, Between(limit, first, jobs, sent))
    ensures
      var s := Between(limit, first, jobs + [m], sent);
      Agent.Reachable(limit, s.(workers := s.workers[w := Agent.Holding(|jobs|)]))
  {
    var s := Between(limit, first, jobs, sent);
    ReportOne(limit, s, m);
    assert s.queue + [|jobs|] == [|jobs|];
    var s1 := Between(limit, first, jobs + [m], sent).(queue := [|jobs|]);
    assert s.(queue := [|jobs|], taken := jobs + [m], enqueued := jobs + [m]) == s1;
    Take(limit, s1, w);
  }

  /** Worker 1 sends the next job while worker 0 does nothing. */
  lemma OtherSends(limit: nat, first: Agent.Worker, jobs: seq<Metric>, sent: seq<nat>, m: Metric)
    requires limit > 1 && Agent.Reachable(limit, Between(limit, first, jobs, sent))
    ensures Agent.Reachable(limit, Between(limit, first, jobs + [m], sent + [|jobs|]))
  {
    ReportAndTake(limit, first, jobs, sent, m, 1);
    var s := Between(limit, first, jobs + [m], sent);
    var s1 := s.(workers := s.workers[1 := Agent.Holding(|jobs|)]);
    SendHeld(limit, s1, 1);
    assert s1.workers[1 := Agent.Receiving] == s.workers;
  }

  /** Worker 0 takes the next job and keeps it. */
  lemma FirstHolds(limit: nat, jobs: seq<Metric>, sent: seq<nat>, m: Metric)
    requires limit > 1 && Agent.Reachable(limit, Between(limit, Agent.Receiving, jobs, sent))
    ensures Agent.Reachable(limit, Between(limit, Agent.Holding(|jobs|), jobs + [m], sent))
  {
    ReportAndTake(limit, Agent.Receiving, jobs, sent, m, 0);
    var s := Between(limit, Agent.Receiving, jobs + [m], sent);
    assert s.workers[0 := Agent.Holding(|jobs|)] == Between(limit, Agent.Holding(|jobs|), jobs + [m], sent).workers;
  }

  /** The job numbers below n without k, in order. */
  function AllBut(n: nat, k: nat): seq<nat> {
    if n == 0 then [] else AllBut(n - 1, k) + if n - 1 == k then [] else [n - 1]
  }

  lemma PrefixSnoc<T>(s: seq<T>, n: nat)
    requires 0 < n <= |s|
    ensures s[..n - 1] + [s[n - 1]] == s[..n]
  {
  }

  lemma NothingReported(limit: nat)
    requires limit > 1
    ensures Agent.Reachable(limit, Between(limit, Agent.Receiving, [], []))
  {
    Agent.Start(limit);
    var s := Agent.Init(limit);
    assert s.workers[0 := Agent.Receiving] == s.workers;
    assert Between(limit, Agent.Receiving, [], []) == s;
  }

  /** Worker 0 once n jobs are out, if it holds on to job k. */
  function First(n: nat, k: nat): Agent.Worker {
    if n <= k then Agent.Receiving else Agent.Holding(k)
  }

  lemma OneMoreOut(limit: nat, jobs: seq<Metric>, k: nat, m: Metric)
    requires limit > 1
    requires Agent.Reachable(limit, Between(limit, First(|jobs|, k), jobs, AllBut(|jobs|, k)))
    ensures Agent.Reachable(limit, Between(limit, First(|jobs| + 1, k), jobs + [m], AllBut(|jobs| + 1, k)))
  {
    var n := |jobs|;
    if n == k {
      FirstHolds(limit, jobs, AllBut(n, k), m);
      assert AllBut(n + 1, k) == AllBut(n, k);
    } else {
      OtherSends(limit, First(n, k), jobs, AllBut(n, k), m);
      assert First(n + 1, k) == First(n, k);
    }
  }

  /** After the first n reports, with worker 0 holding job k if that is out. */
  lemma {:induction false} HoldsBack(limit: nat, jobs: seq<Metric>, k: nat, n: nat)
    requires limit > 1 && k < |jobs| && n <= |jobs|
    ensures Agent.Reachable(limit, Between(limit, First(n, k), jobs[..n], AllBut(n, k)))
  {
    if n == 0 {
      NothingReported(limit);
    } else {
      HoldsBack(limit, jobs, k, n - 1);
      OneMoreOut(limit, jobs[..n - 1], k, jobs[n - 1]);
      PrefixSnoc(jobs, n);
    }
  }

  /** A signal finds the reporter idle and the collector empty: it closes the channel. */
  lemma CloseDown(limit: nat, s: Agent.State)
    requires s.phase.Waiting? && s.open && !s.panicked && !s.cancelled && Agent.Reachable(limit, s)
    ensures
      Agent.Reachable(limit, s.(phase := Agent.Closed, open := false, cancelled := true,
                                flush := Agent.Flush([], |s.enqueued|)))
  {
    var s1 := s.(cancelled := true);
    assert Agent.Next(s, Agent.Cancel) == s1;
    Agent.Step(limit, s, Agent.Cancel);
    var s2 := s1.(phase := Agent.Flushing([]), flush := Agent.Flush([], |s.enqueued|));
    assert s.taken + [] == s.taken;
    assert Agent.Next(s1, Agent.StartFlush([])) == s2;
    Agent.Step(limit, s1, Agent.StartFlush([]));
    CloseFlushed(limit, s2);
  }

  lemma CloseFlushed(limit: nat, s: Agent.State)
    requires s.phase == Agent.Flushing([]) && s.open && !s.panicked && Agent.Reachable(limit, s)
    ensures Agent.Reachable(limit, s.(phase := Agent.Closed, open := false))
  {
    var s1 := s.(phase := Agent.Leaving);
    assert Agent.Next(s, Agent.FlushDone) == s1;
    Agent.Step(limit, s, Agent.FlushDone);
    Agent.Step(limit, s1, Agent.CloseJobs);
  }

  /** With the channel closed and empty the idle workers quit one after the other. */
  lemma {:induction false} AllQuit(limit: nat, s: Agent.State, n: nat) returns (end: Agent.State)
    requires Agent.Reachable(limit, s) && s.phase.Closed? && !s.open && s.queue == [] && n <= |s.workers|
    requires forall w :: 0 <= w < |s.workers| ==> if w < n then s.workers[w].Exited? else s.workers[w].Receiving?
    ensures Agent.Reachable(limit, end) && end.Terminated()
    ensures end.enqueued == s.enqueued && end.started == s.started
    decreases |s.workers| - n
  {
    if n == |s.workers| {
      end := s;
    } else {
      var s1 := s.(workers := s.workers[n := Agent.Exited]);
      assert Agent.Next(s, Agent.Quit(n)) == s1;
      Agent.Step(limit, s, Agent.Quit(n));
      end := AllQuit(limit, s1, n + 1);
    }
  }

  /** From start to exit, with at least two workers: job k is sent after all the others. */
  lemma HeldBackRun(limit: nat, jobs: seq<Metric>, k: nat) returns (end: Agent.State)
    requires limit > 1 && k < |jobs|
    ensures Agent.Reachable(limit, end) && end.Terminated()
    ensures end.enqueued == jobs && end.started == AllBut(|jobs|, k) + [k]
  {
    HoldsBack(limit, jobs, k, |jobs|);
    assert jobs[..|jobs|] == jobs;
    var s := Between(limit, Agent.Holding(k), jobs, AllBut(|jobs|, k));
    SendHeld(limit, s, 0);
    var sent := AllBut(|jobs|, k) + [k];
    var s1 := s.(workers := s.workers[0 := Agent.Receiving], started := sent, finished := sent);
    CloseDown(limit, s1);
    var s2 := s1.(phase := Agent.Closed, open := false, cancelled := true, flush := Agent.Flush([], |jobs|));
    end := AllQuit(limit, s2, 0);
  }

  // ---- The exact condition -----------------------------------------------------------------------------

  /** The run with this end sent every job once, and in its order they leave the store of one batch. */
  ghost predicate RightStore(s: Store, jobs: seq<Metric>, end: Agent.State) {
    InRange(jobs, end.started) && Replay(s, Effects(Carried(jobs, end.started))) == Replay(s, Effects(jobs))
  }

  lemma SentOnce(limit: nat, end: Agent.State)
    requires limit > 0 && Agent.Reachable(limit, end) && end.Terminated()
    ensures AllOnce(end.enqueued, end.started)
  {
    var acts :| Agent.Reaches(limit, acts, end);
    forall j: nat ensures OnceEach(end.enqueued, end.started, j) {
      Agent.AllJobsSent(limit, acts, j);
    }
  }

  lemma SafeSchedule(limit: nat, s: Store, end: Agent.State)
    requires limit > 0 && Agent.Reachable(limit, end) && end.Terminated()
    requires limit == 1 || OneValue(end.enqueued)
    ensures RightStore(s, end.enqueued, end)
  {
    if limit == 1 {
      var acts :| Agent.Reaches(1, acts, end);
      OneWorkerKeepsOrder(acts, s);
    } else {
      SentOnce(limit, end);
      OneValueIsSafe(s, end.enqueued, end.started);
    }
  }

  /** The last arrival decides its gauge. */
  lemma LastArrivalWins(s: Store, jobs: seq<Metric>, front: seq<nat>, k: nat, name: string)
    requires InRange(jobs, front + [k]) && k < |jobs| && Reports(jobs[k], name)
    ensures
      var r := Replay(s, Effects(Carried(jobs, front + [k])));
      name in r.gauges && Some(r.gauges[name]) == jobs[k].value
  {
    var all := Carried(jobs, front + [k]);
    assert InRange(jobs, front) by {
      forall i | 0 <= i < |front| ensures front[i] < |jobs| {
        assert (front + [k])[i] == front[i];
      }
    }
    assert all == Carried(jobs, front) + [jobs[k]];
    LastReportSnoc(Carried(jobs, front), jobs[k], name);
    GaugeOverRun(s, Effects(all), name);
  }

  /** Two workers or more, and a gauge reported with two values: some schedule leaves the wrong one. */
  lemma UnsafeSchedule(limit: nat, s: Store, jobs: seq<Metric>) returns (end: Agent.State)
    requires limit > 1 && !OneValue(jobs)
    ensures Agent.Reachable(limit, end) && end.Terminated() && end.enqueued == jobs
    ensures !RightStore(s, jobs, end)
  {
    var i, j :| 0 <= i < |jobs| && 0 <= j < |jobs| && Reports(jobs[i], jobs[i].id) &&
                Reports(jobs[j], jobs[i].id) && jobs[i].value != jobs[j].value;
    var name := jobs[i].id;
    LastReport(jobs, name);
    GaugeOverRun(s, Effects(jobs), name);
    var k := if jobs[i].value == LastGauge(Effects(jobs), name) then j else i;
    end := HeldBackRun(limit, jobs, k);
    if InRange(jobs, end.started) {
      LastArrivalWins(s, jobs, AllBut(|jobs|, k), k, name);
    }
  }

  /**
   The server ends up with the store of one batch, whatever the schedule, if and only if the
   agent has one worker or no gauge is ever reported with two values.
   */
  lemma RightOnEverySchedule(limit: nat, jobs: seq<Metric>, s: Store)
    requires limit > 0
    ensures
      (forall end :: Agent.Reachable(limit, end) && end.Terminated() && end.enqueued == jobs ==>
        RightStore(s, jobs, end)) <==>
      limit == 1 || OneValue(jobs)
  {
    if limit == 1 || OneValue(jobs) {
      forall end | Agent.Reachable(limit, end) && end.Terminated() && end.enqueued == jobs
        ensures RightStore(s, jobs, end)
      {
        SafeSchedule(limit, s, end);
      }
    } else {
      var end := UnsafeSchedule(limit, s, jobs);
    }
  }

  /** In particular two reports of one gauge can be swapped: the older value then stays in the store. */
  lemma StaleGaugeWins(limit: nat, name: string, older: Float64, newer: Float64, s: Store) returns (end: Agent.State)
    requires limit > 1 && older != newer
    ensures Agent.Reachable(limit, end) && end.Terminated()
    ensures end.enqueued == [GaugeMetric(name, older), GaugeMetric(name, newer)] && end.started == [1, 0]
    ensures InRange(end.enqueued, end.started)
    ensures
      var r := Replay(s, Effects(Carried(end.enqueued, end.started)));
      name in r.gauges && r.gauges[name] == older
  {
    var jobs := [GaugeMetric(name, older), GaugeMetric(name, newer)];
    end := HeldBackRun(limit, jobs, 0);
    AllButFirst();
    LastArrivalWins(s, jobs, [1], 0, name);
  }

  lemma AllButFirst()
    ensures AllBut(2, 0) == [1]
  {
    assert AllBut(0, 0) == [] && AllBut(1, 0) == [];
  }
}
