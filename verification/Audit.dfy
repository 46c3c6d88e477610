/**
 The audit fan-out queue (internal/audit/audit.go): callers enqueue without blocking, one
 dispatcher hands each event to every observer in turn, Close drains. Methods of the class
 are the atomic steps; the functions beside it say what a step does to the whole state.
 */
module Audit {
  import opened Model

  datatype Event = Event(ts: Int64, metrics: seq<string>, ipAddress: string)

  const CAPACITY: nat := 256

  /** The dispatcher: at the channel, about to notify observer `next` of an event, or gone. */
  datatype Dispatcher = Idle | Delivering(event: Event, next: nat) | Gone

  datatype Step =
    | Notify(event: Event)
    | Receive
    | Deliver
    | CloseQueue
    | Exit

  /** An event offered to Notify, and whether the queue had room for it. */
  datatype Offer = Offer(event: Event, accepted: bool)

  datatype State = State(
    queue: seq<Event>,
    open: bool,
    dispatcher: Dispatcher,
    logs: seq<seq<Event>>,     // what each observer has been notified of
    offers: seq<Offer>)

  function Init(observers: nat): State {
    State([], true, Idle, seq(observers, _ => []), [])
  }

  predicate Enabled(s: State, step: Step) {
    match step
    case Notify(_) => s.open
    case Receive => s.dispatcher.Idle? && s.queue != []
    case Deliver => s.dispatcher.Delivering? && s.dispatcher.next < |s.logs|
    case CloseQueue => s.open
    case Exit => s.dispatcher.Idle? && s.queue == [] && !s.open
  }

  function Next(s: State, step: Step): State
    requires Enabled(s, step)
  {
    match step
    case Notify(e) =>
      var room := |s.queue| < CAPACITY;
      s.(queue := if room then s.queue + [e] else s.queue, offers := s.offers + [Offer(e, room)])
    case Receive => s.(queue := s.queue[1..], dispatcher := AtObserver(s, s.queue[0], 0))
    case Deliver =>
      var e, k := s.dispatcher.event, s.dispatcher.next;
      s.(logs := s.logs[k := s.logs[k] + [e]], dispatcher := AtObserver(s, e, k + 1))
    case CloseQueue => s.(open := false)
    case Exit => s.(dispatcher := Gone)
  }

  /** The inner loop of dispatch ends after the last observer. */
  function AtObserver(s: State, e: Event, k: nat): Dispatcher {
    if k < |s.logs| then Delivering(e, k) else Idle
  }

  class Subject {
    var ch: seq<Event>
    var open: bool
    var dispatcher: Dispatcher
    var logs: seq<seq<Event>>
    ghost var offers: seq<Offer>

    ghost function Now(): State
      reads this
    {
      State(ch, open, dispatcher, logs, offers)
    }

    constructor (observers: nat)
      ensures Now() == Init(observers)
    {
      ch, open, dispatcher, logs, offers := [], true, Idle, seq(observers, _ => []), [];
    }

    /** The select with a default branch: never blocks, drops when the buffer is full. */
    method Notify(e: Event) returns (accepted: bool)
      requires open
      modifies this
      ensures Now() == Next(old(Now()), Step.Notify(e))
      ensures accepted <==> |old(ch)| < 256
      ensures ch == (if accepted then old(ch) + [e] else old(ch)) && logs == old(logs) && open
    {
      accepted := |ch| < CAPACITY;
      if accepted {
        ch := ch + [e];
      }
      offers := offers + [Offer(e, accepted)];
    }

    /** One iteration of `for e := range s.ch`, run without interruption. */
    method DispatchOne()
      requires dispatcher.Idle? && ch != []
      modifies this
      ensures dispatcher.Idle? && ch == old(ch)[1..] && open == old(open) && offers == old(offers)
      ensures |logs| == |old(logs)|
      ensures forall i :: 0 <= i < |logs| ==> logs[i] == old(logs)[i] + [old(ch)[0]]
    {
      var e := ch[0];
      ch := ch[1..];
      for k := 0 to |logs|
        invariant |logs| == |old(logs)| && dispatcher.Idle? && open == old(open)
        invariant ch == old(ch)[1..] && offers == old(offers)
        invariant forall i :: 0 <= i < k ==> logs[i] == old(logs)[i] + [e]
        invariant forall i :: k <= i < |logs| ==> logs[i] == old(logs)[i]
      {
        logs := logs[k := logs[k] + [e]];
      }
    }

    method Close()
      requires open
      modifies this
      ensures Now() == Next(old(Now()), CloseQueue)
      ensures !open && ch == old(ch) && logs == old(logs) && dispatcher == old(dispatcher)
    {
      open := false;
    }
  }

  predicate ValidRun(s: State, steps: seq<Step>)
    decreases |steps|, 0
  {
    steps == [] ||
    (ValidRun(s, steps[..|steps| - 1]) && Enabled(Run(s, steps[..|steps| - 1]), steps[|steps| - 1]))
  }

  function Run(s: State, steps: seq<Step>): State
    requires ValidRun(s, steps)
    decreases |steps|, 1
  {
    if steps == [] then s else Next(Run(s, steps[..|steps| - 1]), steps[|steps| - 1])
  }

  // ---- Accepted, dropped, delivered ----------------------------------------------------------

  /** The events offered with the given outcome, in order. */
  function Offered(offers: seq<Offer>, accepted: bool): seq<Event> {
    if offers == [] then []
    else
      var o := offers[|offers| - 1];
      Offered(offers[..|offers| - 1], accepted) + if o.accepted == accepted then [o.event] else []
  }

  function Accepted(s: State): seq<Event> {
    Offered(s.offers, true)
  }

  function Events(offers: seq<Offer>): seq<Event> {
    if offers == [] then [] else Events(offers[..|offers| - 1]) + [offers[|offers| - 1].event]
  }

  lemma {:induction false} OffersSplit(offers: seq<Offer>)
    ensures multiset(Events(offers)) == multiset(Offered(offers, true)) + multiset(Offered(offers, false))
  {
    if offers == [] {
    } else {
      OffersSplit(offers[..|offers| - 1]);
    }
  }

  /** The events that a run's callers passed to Notify, in order. */
  function Notified(steps: seq<Step>): seq<Event> {
    if steps == [] then []
    else
      var step := steps[|steps| - 1];
      Notified(steps[..|steps| - 1]) + if step.Notify? then [step.event] else []
  }

  lemma OffersGrow(s: State, step: Step)
    requires Enabled(s, step)
    ensures Events(Next(s, step).offers) == Events(s.offers) + if step.Notify? then [step.event] else []
  {
    if step.Notify? {
      var o := Offer(step.event, |s.queue| < CAPACITY);
      assert (s.offers + [o])[..|s.offers|] == s.offers;
    }
  }

  lemma {:induction false} OffersAreNotified(observers: nat, steps: seq<Step>)
    requires ValidRun(Init(observers), steps)
    ensures Events(Run(Init(observers), steps).offers) == Notified(steps)
  {
    if steps == [] {
    } else {
      OffersAreNotified(observers, steps[..|steps| - 1]);
      OffersGrow(Run(Init(observers), steps[..|steps| - 1]), steps[|steps| - 1]);
    }
  }

  /** In every run, what was passed to Notify is accepted or dropped, each event exactly as often as it was passed. */
  lemma NotifiedSplits(observers: nat, steps: seq<Step>)
    requires ValidRun(Init(observers), steps)
    ensures
      var s := Run(Init(observers), steps);
      && Events(s.offers) == Notified(steps)
      && multiset(Notified(steps)) == multiset(Accepted(s)) + multiset(Offered(s.offers, false))
  {
    OffersAreNotified(observers, steps);
    OffersSplit(Run(Init(observers), steps).offers);
  }

  /** Accepted events that have left the queue. */
  function Taken(s: State): int {
    |Accepted(s)| - |s.queue|
  }

  /** How many of those observer k has been notified of. */
  function Seen(s: State, k: nat): int {
    if s.dispatcher.Delivering? && k >= s.dispatcher.next then Taken(s) - 1 else Taken(s)
  }

  predicate QueueOk(s: State) {
    && |s.queue| <= CAPACITY && |s.queue| <= |Accepted(s)|
    && s.queue == Accepted(s)[Taken(s)..]
    && (s.dispatcher.Delivering? ==>
          s.dispatcher.next < |s.logs| && Taken(s) > 0 && Accepted(s)[Taken(s) - 1] == s.dispatcher.event)
    && (s.dispatcher.Gone? ==> !s.open && s.queue == [])
  }

  predicate LogOk(s: State, k: nat)
    requires k < |s.logs|
  {
    0 <= Seen(s, k) <= |Accepted(s)| && s.logs[k] == Accepted(s)[..Seen(s, k)]
  }

  predicate Inv(s: State) {
    QueueOk(s) && forall k :: 0 <= k < |s.logs| ==> LogOk(s, k)
  }

  lemma AcceptedGrows(s: State, step: Step)
    requires Enabled(s, step)
    ensures Accepted(Next(s, step)) ==
            Accepted(s) + if step.Notify? && |s.queue| < CAPACITY then [step.event] else []
  {
    if step.Notify? {
      var o := Offer(step.event, |s.queue| < CAPACITY);
      assert (s.offers + [o])[..|s.offers|] == s.offers;
    }
  }

  lemma QueueStep(s: State, step: Step)
    requires Enabled(s, step) && QueueOk(s)
    ensures QueueOk(Next(s, step))
  {
    AcceptedGrows(s, step);
  }

  lemma LogStep(s: State, step: Step, k: nat)
    requires Enabled(s, step) && QueueOk(s) && k < |s.logs| && LogOk(s, k)
    ensures LogOk(Next(s, step), k)
  {
    AcceptedGrows(s, step);
    if step.Deliver? {
      DeliverLog(s, k);
    } else if step.Notify? {
      PrefixKept(Accepted(s), Accepted(Next(s, step)), Seen(s, k));
    }
  }

  lemma DeliverLog(s: State, k: nat)
    requires Enabled(s, Deliver) && QueueOk(s) && k < |s.logs| && LogOk(s, k)
    ensures LogOk(Next(s, Deliver), k)
  {
    if k == s.dispatcher.next {
      LastOfPrefix(Accepted(s), Taken(s));
    }
  }

  lemma LastOfPrefix<T>(a: seq<T>, n: int)
    requires 0 < n <= |a|
    ensures a[..n] == a[..n - 1] + [a[n - 1]]
  {
  }

  lemma PrefixKept<T>(a: seq<T>, b: seq<T>, n: int)
    requires a <= b && 0 <= n <= |a|
    ensures a[..n] == b[..n]
  {
  }

  lemma {:induction false} RunKeepsInv(s: State, steps: seq<Step>)
    requires Inv(s) && ValidRun(s, steps)
    ensures Inv(Run(s, steps))
    ensures |Run(s, steps).logs| == |s.logs|
  {
    if steps == [] {
    } else {
      var before, step := Run(s, steps[..|steps| - 1]), steps[|steps| - 1];
      RunKeepsInv(s, steps[..|steps| - 1]);
      QueueStep(before, step);
      forall k | 0 <= k < |s.logs| ensures LogOk(Next(before, step), k) {
        LogStep(before, step, k);
      }
    }
  }

  /**
   Every observer's log is a prefix of the accepted events, in order; of two observers the
   later one lags by at most one event; nothing sits in the queue that is not the newest.
   */
  lemma LogsArePrefixes(observers: nat, steps: seq<Step>, j: nat, k: nat)
    requires j <= k < observers && ValidRun(Init(observers), steps)
    ensures
      var s := Run(Init(observers), steps);
      && |s.logs| == observers && |s.queue| <= CAPACITY
      && s.logs[k] <= s.logs[j] <= Accepted(s) && |s.logs[j]| <= |s.logs[k]| + 1
      && 0 <= Taken(s) <= |Accepted(s)|
      && s.logs[j] <= Accepted(s)[..Taken(s)] && Accepted(s) == Accepted(s)[..Taken(s)] + s.queue
  {
    RunKeepsInv(Init(observers), steps);
    PrefixesAt(Run(Init(observers), steps), j, k);
  }

  lemma PrefixesAt(s: State, j: nat, k: nat)
    requires Inv(s) && j <= k < |s.logs|
    ensures s.logs[k] <= s.logs[j] <= Accepted(s) && |s.logs[j]| <= |s.logs[k]| + 1
    ensures 0 <= Taken(s) <= |Accepted(s)| && s.logs[j] <= Accepted(s)[..Taken(s)]
    ensures Accepted(s) == Accepted(s)[..Taken(s)] + s.queue
  {
    assert LogOk(s, j) && LogOk(s, k);
    TakesNested(Accepted(s), Seen(s, k), Seen(s, j), Taken(s));
  }

  lemma TakesNested<T>(a: seq<T>, i: int, j: int, k: int)
    requires 0 <= i <= j <= k <= |a|
    ensures a[..i] <= a[..j] <= a[..k] <= a && a == a[..k] + a[k..]
  {
  }

  /** A Notify is refused only when 256 events are waiting: the observers are at least 256 behind. */
  lemma DropsOnlyWhenFull(s: State, e: Event, k: nat)
    requires Inv(s) && s.open && k < |s.logs|
    ensures
      var s' := Next(s, Notify(e));
      && (Accepted(s') == Accepted(s) <==> |s.queue| == 256)
      && (Accepted(s') != Accepted(s) ==> Accepted(s') == Accepted(s) + [e])
      && (Accepted(s') == Accepted(s) ==> |Accepted(s)| - |s.logs[k]| >= 256)
  {
    AcceptedGrows(s, Notify(e));
    assert LogOk(s, k);
  }

  /** Close returns when the dispatcher has gone: every observer has every accepted event, in order. */
  lemma CloseDrains(observers: nat, steps: seq<Step>, k: nat)
    requires k < observers && ValidRun(Init(observers), steps)
    requires Run(Init(observers), steps).dispatcher.Gone?
    ensures
      var s := Run(Init(observers), steps);
      |s.logs| == observers && s.logs[k] == Accepted(s) && s.queue == []
  {
    RunKeepsInv(Init(observers), steps);
    DrainedAt(Run(Init(observers), steps), k);
  }

  lemma DrainedAt(s: State, k: nat)
    requires Inv(s) && s.dispatcher.Gone? && k < |s.logs|
    ensures s.logs[k] == Accepted(s) && s.queue == []
  {
    assert LogOk(s, k);
  }

  /** What is left to deliver. */
  function Work(s: State): nat {
    (|s.logs| + 2) * |s.queue| +
    match s.dispatcher
    case Idle => 1
    case Delivering(_, k) => if k <= |s.logs| then |s.logs| - k + 2 else 0
    case Gone => 0
  }

  /** After close: the dispatcher is never stuck before it has gone, and every step brings that nearer. */
  lemma CloseReturns(s: State) returns (step: Step)
    requires Inv(s) && !s.open && !s.dispatcher.Gone?
    ensures Enabled(s, step)
    ensures forall other :: Enabled(s, other) ==> !Next(s, other).open && Work(Next(s, other)) < Work(s)
  {
    step := if s.dispatcher.Delivering? then Deliver else if s.queue == [] then Exit else Receive;
    var n := |s.logs| + 2;
    assert s.queue != [] ==> n * |s.queue| == n * (|s.queue| - 1) + n;
    assert s.queue != [] ==> |s.queue[1..]| == |s.queue| - 1;
  }

  /** The loop of the class and the interleaved steps agree: receiving and delivering to all observers. */
  lemma {:induction false} DeliverAll(s: State, k: nat) returns (steps: seq<Step>)
    requires s.dispatcher.Delivering? && s.dispatcher.next == k < |s.logs|
    ensures ValidRun(s, steps) && OfDispatcher(steps)
    ensures
      var e := s.dispatcher.event;
      Run(s, steps) ==
      s.(dispatcher := Idle,
         logs := seq(|s.logs|, i requires 0 <= i < |s.logs| => if i < k then s.logs[i] else s.logs[i] + [e]))
    decreases |s.logs| - k
  {
    var s1 := Next(s, Deliver);
    assert [Deliver][..0] == [];
    assert ValidRun(s, []) && ValidRun(s, [Deliver]) && Run(s, [Deliver]) == s1;
    if k + 1 < |s.logs| {
      var rest := DeliverAll(s1, k + 1);
      RunConcat(s, [Deliver], rest);
      steps := [Deliver] + rest;
    } else {
      steps := [Deliver];
    }
  }

  lemma {:induction false} RunConcat(s: State, a: seq<Step>, b: seq<Step>)
    requires ValidRun(s, a) && ValidRun(Run(s, a), b)
    ensures ValidRun(s, a + b) && Run(s, a + b) == Run(Run(s, a), b)
  {
    if b == [] {
      assert a + b == a;
    } else {
      assert (a + b)[..|a + b| - 1] == a + b[..|b| - 1];
      RunConcat(s, a, b[..|b| - 1]);
    }
  }

  // ---- Progress -------------------------------------------------------------------------------------

  predicate OfDispatcher(steps: seq<Step>) {
    forall i :: 0 <= i < |steps| ==> steps[i].Receive? || steps[i].Deliver?
  }

  /** One event through the dispatcher, from the queue into every log. */
  lemma TakeOne(s: State) returns (steps: seq<Step>)
    requires Inv(s) && s.dispatcher.Idle? && s.queue != []
    ensures ValidRun(s, steps) && OfDispatcher(steps)
    ensures
      var r := Run(s, steps);
      r.dispatcher.Idle? && r.queue == s.queue[1..] && r.offers == s.offers && r.open == s.open && |r.logs| == |s.logs|
  {
    var s1 := Next(s, Receive);
    SingleStep(s, Receive);
    if s.logs == [] {
      steps := [Receive];
    } else {
      var rest := DeliverAll(s1, 0);
      RunConcat(s, [Receive], rest);
      steps := [Receive] + rest;
    }
  }

  lemma SingleStep(s: State, step: Step)
    requires Enabled(s, step)
    ensures ValidRun(s, [step]) && Run(s, [step]) == Next(s, step)
  {
    assert [step][..0] == [];
    assert ValidRun(s, []) && Run(s, []) == s;
  }

  /** The queue empties, whether or not it has been closed, by steps of the dispatcher alone. */
  lemma {:induction false} Empties(s: State) returns (steps: seq<Step>)
    requires Inv(s) && s.dispatcher.Idle?
    ensures ValidRun(s, steps) && OfDispatcher(steps)
    ensures
      var r := Run(s, steps);
      r.dispatcher.Idle? && r.queue == [] && r.offers == s.offers && r.open == s.open && |r.logs| == |s.logs|
    decreases |s.queue|
  {
    if s.queue == [] {
      steps := [];
    } else {
      var first := TakeOne(s);
      RunKeepsInv(s, first);
      var rest := Empties(Run(s, first));
      RunConcat(s, first, rest);
      steps := first + rest;
    }
  }

  /**
   As long as the dispatcher has not gone, before and after the close, it can by itself bring
   every accepted event to every observer.
   */
  lemma AllDelivered(s: State) returns (steps: seq<Step>)
    requires Inv(s) && !s.dispatcher.Gone?
    ensures ValidRun(s, steps) && OfDispatcher(steps)
    ensures
      var r := Run(s, steps);
      && r.dispatcher.Idle? && r.queue == [] && r.open == s.open && Accepted(r) == Accepted(s)
      && |r.logs| == |s.logs| && forall k :: 0 <= k < |r.logs| ==> r.logs[k] == Accepted(s)
  {
    var first: seq<Step> := [];
    if s.dispatcher.Delivering? {
      first := DeliverAll(s, s.dispatcher.next);
    }
    RunKeepsInv(s, first);
    var rest := Empties(Run(s, first));
    RunConcat(s, first, rest);
    steps := first + rest;
    RunKeepsInv(s, steps);
    var r := Run(s, steps);
    forall k | 0 <= k < |r.logs| ensures r.logs[k] == Accepted(s) {
      assert LogOk(r, k);
    }
  }
}
