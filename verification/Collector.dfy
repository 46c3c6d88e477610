/**
 The agent's send buffer (internal/agent/collector.go): metrics are appended, and sendBatch
 posts the whole buffer, then retries a copy of what is left of it. Both run under the
 collector's mutex, so each is one step; the server's answers are a parameter.
 */
module Collector {
  import opened Model
  import opened Snapshot

  datatype Answer = NetworkError(timeout: bool) | Status(code: int)

  datatype Request = Request(body: seq<Metric>, answer: Answer, retry: bool) {
    /** The answers on which the code truncates its buffer: 200 at first, below 500 on a retry. */
    predicate Settles() {
      answer.Status? && if retry then answer.code < 500 else answer.code == 200
    }
  }

  const MAX_RETRIES: nat := 3

  /** cleared lists the buffers that were truncated; requests is everything posted. */
  datatype State = State(buffer: seq<Metric>, added: seq<Metric>, cleared: seq<seq<Metric>>, requests: seq<Request>)

  const INIT := State([], [], [], [])

  function Add(s: State, m: Metric): State {
    s.(buffer := s.buffer + [m], added := s.added + [m])
  }

  /** Truncating the buffer. */
  function Clear(s: State): State {
    s.(buffer := [], cleared := s.cleared + [s.buffer])
  }

  function Post(s: State, body: seq<Metric>, answer: Answer, retry: bool): State {
    s.(requests := s.requests + [Request(body, answer, retry)])
  }

  /** backoff.Retry around trySendBatch: try number k of at most 1 + MAX_RETRIES. */
  function Retries(s: State, body: seq<Metric>, answers: nat -> Answer, k: nat): State
    requires 1 <= k <= 1 + MAX_RETRIES
    decreases 1 + MAX_RETRIES - k
  {
    var a := answers(k);
    var posted := Post(s, body, a, true);
    if Request(body, a, true).Settles() then Clear(posted)
    else if (a.NetworkError? && !a.timeout) || k == 1 + MAX_RETRIES then posted
    else Retries(posted, body, answers, k + 1)
  }

  /** sendBatch as a whole; answers(0) is for the first request, the others for the retries. */
  function Send(s: State, answers: nat -> Answer): State {
    if s.buffer == [] || !AllEncodable(s.buffer) then s
    else
      var posted := Post(s, s.buffer, answers(0), false);
      if answers(0).NetworkError? then posted
      else
        var left := if answers(0).code == 200 then Clear(posted) else posted;
        Retries(left, left.buffer, answers, 1)
  }

  class Collector {
    const batchSize: int
    var buffer: seq<Metric>
    ghost var added: seq<Metric>
    ghost var cleared: seq<seq<Metric>>
    ghost var requests: seq<Request>

    ghost function Now(): State
      reads this
    {
      State(buffer, added, cleared, requests)
    }

    constructor (batchSize: int)
      ensures Now() == INIT && this.batchSize == batchSize
    {
      this.batchSize := batchSize;
      buffer, added, cleared, requests := [], [], [], [];
    }

    /** Reports whether a sendBatch goroutine is started. */
    method AddMetric(m: Metric) returns (spawn: bool)
      modifies this
      ensures Now() == Add(old(Now()), m)
      ensures spawn <==> |buffer| >= batchSize
    {
      buffer := buffer + [m];
      added := added + [m];
      return |buffer| >= batchSize;
    }

    method Truncate()
      modifies this
      ensures Now() == Clear(old(Now()))
    {
      cleared := cleared + [buffer];
      buffer := [];
    }

    method SendBatch(answers: nat -> Answer)
      modifies this
      ensures Now() == Send(old(Now()), answers)
    {
      if |buffer| == 0 || !AllEncodable(buffer) {
        return;
      }
      requests := requests + [Request(buffer, answers(0), false)];
      if answers(0).NetworkError? {
        return;
      }
      if answers(0).code == 200 {
        Truncate();
      }
      var sendBuffer := buffer;
      ghost var left := Now();
      var k := 1;
      while true
        invariant 1 <= k <= 1 + MAX_RETRIES
        invariant Retries(left, sendBuffer, answers, 1) == Retries(Now(), sendBuffer, answers, k)
        invariant Send(old(Now()), answers) == Retries(left, sendBuffer, answers, 1)
        decreases 1 + MAX_RETRIES - k
      {
        var answer := answers(k);
        requests := requests + [Request(sendBuffer, answer, true)];
        match answer {
          case NetworkError(timeout) =>
            if !timeout {
              return;
            }
          case Status(code) =>
            if code < 500 {
              Truncate();
              return;
            }
        }
        if k == 1 + MAX_RETRIES {
          return;
        }
        k := k + 1;
      }
    }
  }

  // ---- Whole runs ----------------------------------------------------------------------------

  datatype Op = AddOp(m: Metric) | SendOp(answers: nat -> Answer)

  function Run(ops: seq<Op>): State {
    if ops == [] then INIT
    else
      var before := Run(ops[..|ops| - 1]);
      match ops[|ops| - 1]
      case AddOp(m) => Add(before, m)
      case SendOp(answers) => Send(before, answers)
  }

  function Concat(batches: seq<seq<Metric>>): seq<Metric> {
    if batches == [] then [] else Concat(batches[..|batches| - 1]) + batches[|batches| - 1]
  }

  /** Some request carried exactly this batch and got an answer that settled it. */
  predicate Carried(requests: seq<Request>, batch: seq<Metric>) {
    exists i :: 0 <= i < |requests| && requests[i].body == batch && requests[i].Settles()
  }

  predicate Conserved(s: State) {
    && s.added == Concat(s.cleared) + s.buffer
    && forall i :: 0 <= i < |s.cleared| ==> Carried(s.requests, s.cleared[i])
  }

  lemma CarriedStays(requests: seq<Request>, more: Request, batch: seq<Metric>)
    requires Carried(requests, batch)
    ensures Carried(requests + [more], batch)
  {
    var i :| 0 <= i < |requests| && requests[i].body == batch && requests[i].Settles();
    assert (requests + [more])[i] == requests[i];
  }

  lemma PostKeeps(s: State, body: seq<Metric>, a: Answer, retry: bool)
    requires Conserved(s)
    ensures Conserved(Post(s, body, a, retry))
    ensures Request(body, a, retry).Settles() ==> Carried(Post(s, body, a, retry).requests, body)
  {
    var r := Request(body, a, retry);
    forall i | 0 <= i < |s.cleared| ensures Carried(s.requests + [r], s.cleared[i]) {
      CarriedStays(s.requests, r, s.cleared[i]);
    }
    assert (s.requests + [r])[|s.requests|] == r;
  }

  lemma ClearKeeps(s: State)
    requires Conserved(s) && Carried(s.requests, s.buffer)
    ensures Conserved(Clear(s))
  {
    assert (s.cleared + [s.buffer])[..|s.cleared|] == s.cleared;
  }

  /** The retried copy is the buffer as it stood after the first request, whole. */
  lemma {:induction false} RetriesKeep(s: State, answers: nat -> Answer, k: nat)
    requires 1 <= k <= 1 + MAX_RETRIES && Conserved(s)
    ensures Conserved(Retries(s, s.buffer, answers, k))
    decreases 1 + MAX_RETRIES - k
  {
    var posted := Post(s, s.buffer, answers(k), true);
    PostKeeps(s, s.buffer, answers(k), true);
    if Request(s.buffer, answers(k), true).Settles() {
      ClearKeeps(posted);
    } else if !(answers(k).NetworkError? && !answers(k).timeout) && k < 1 + MAX_RETRIES {
      RetriesKeep(posted, answers, k + 1);
    }
  }

  lemma SendKeeps(s: State, answers: nat -> Answer)
    requires Conserved(s)
    ensures Conserved(Send(s, answers))
  {
    if s.buffer != [] && AllEncodable(s.buffer) {
      var posted := Post(s, s.buffer, answers(0), false);
      PostKeeps(s, s.buffer, answers(0), false);
      if answers(0).Status? {
        if answers(0).code == 200 {
          ClearKeeps(posted);
          RetriesKeep(Clear(posted), answers, 1);
        } else {
          RetriesKeep(posted, answers, 1);
        }
      }
    }
  }

  /**
   Over any run: everything added is the cleared batches in order followed by the buffer, and
   every cleared batch was carried whole by a request whose answer settled it.
   */
  lemma {:induction false} BufferConserves(ops: seq<Op>)
    ensures Conserved(Run(ops))
  {
    if ops == [] {
    } else {
      var before := Run(ops[..|ops| - 1]);
      BufferConserves(ops[..|ops| - 1]);
      match ops[|ops| - 1]
      case AddOp(m) => assert before.added + [m] == Concat(before.cleared) + (before.buffer + [m]);
      case SendOp(answers) => SendKeeps(before, answers);
    }
  }

  lemma {:induction false} RetriesBuffer(s: State, body: seq<Metric>, answers: nat -> Answer, k: nat)
    requires 1 <= k <= 1 + MAX_RETRIES
    ensures Retries(s, body, answers, k).buffer == s.buffer || Retries(s, body, answers, k).buffer == []
    decreases 1 + MAX_RETRIES - k
  {
    var a := answers(k);
    if !Request(body, a, true).Settles() && !(a.NetworkError? && !a.timeout) && k < 1 + MAX_RETRIES {
      RetriesBuffer(Post(s, body, a, true), body, answers, k + 1);
    }
  }

  // ---- When the buffer is cleared, and when a batch is lost ----------------------------------------

  /** An answer after which backoff.Retry goes on: a timeout, or 500 and above. */
  predicate Retried(a: Answer) {
    if a.NetworkError? then a.timeout else a.code >= 500
  }

  predicate Success(a: Answer) {
    a.Status? && 200 <= a.code < 300
  }

  /** Try number j, counted from k, is made and ends the retries with an answer below 500. */
  predicate SettledBy(answers: nat -> Answer, k: nat, j: nat) {
    && k <= j <= 1 + MAX_RETRIES && answers(j).Status? && answers(j).code < 500
    && forall i :: k <= i < j ==> Retried(answers(i))
  }

  ghost predicate SettledFrom(answers: nat -> Answer, k: nat) {
    exists j :: SettledBy(answers, k, j)
  }

  /** After a try that is retried, what settles is what settles later. */
  lemma SettledLater(answers: nat -> Answer, k: nat)
    requires Retried(answers(k))
    ensures forall j :: SettledBy(answers, k, j) <==> SettledBy(answers, k + 1, j)
    ensures SettledFrom(answers, k) <==> SettledFrom(answers, k + 1)
  {
    forall j: nat ensures SettledBy(answers, k, j) <==> SettledBy(answers, k + 1, j) {
      if SettledBy(answers, k + 1, j) {
        assert forall i :: k <= i < j ==> Retried(answers(i));
      }
    }
    if SettledFrom(answers, k + 1) {
      var j :| SettledBy(answers, k + 1, j);
      assert SettledBy(answers, k, j);
    }
  }

  /** A try that is not retried settles, or nothing does. */
  lemma SettledNow(answers: nat -> Answer, k: nat)
    requires !Retried(answers(k)) || k >= 1 + MAX_RETRIES
    ensures forall j :: SettledBy(answers, k, j) ==> j == k
    ensures SettledFrom(answers, k) <==> SettledBy(answers, k, k)
  {
    forall j: nat | SettledBy(answers, k, j) ensures j == k {
      assert k < j ==> Retried(answers(k));
    }
  }

  /** The posts of the retries from try number k on. */
  function Posts(body: seq<Metric>, answers: nat -> Answer, k: nat): seq<Request>
    requires 1 <= k <= 1 + MAX_RETRIES
    decreases 1 + MAX_RETRIES - k
  {
    var a := answers(k);
    [Request(body, a, true)] +
    if Retried(a) && k < 1 + MAX_RETRIES then Posts(body, answers, k + 1) else []
  }

  lemma {:induction false} RetriesPost(s: State, body: seq<Metric>, answers: nat -> Answer, k: nat)
    requires 1 <= k <= 1 + MAX_RETRIES
    ensures Retries(s, body, answers, k).requests == s.requests + Posts(body, answers, k)
    decreases 1 + MAX_RETRIES - k
  {
    var a := answers(k);
    if Retried(a) && k < 1 + MAX_RETRIES {
      RetriesPost(Post(s, body, a, true), body, answers, k + 1);
    }
  }

  /** The retries clear a filled buffer if and only if some try settles. */
  lemma {:induction false} RetriesClear(s: State, body: seq<Metric>, answers: nat -> Answer, k: nat)
    requires 1 <= k <= 1 + MAX_RETRIES && s.buffer != []
    ensures Retries(s, body, answers, k).buffer == [] <==> SettledFrom(answers, k)
    decreases 1 + MAX_RETRIES - k
  {
    if Retried(answers(k)) && k < 1 + MAX_RETRIES {
      RetriesClear(Post(s, body, answers(k), true), body, answers, k + 1);
      SettledLater(answers, k);
    } else {
      SettledNow(answers, k);
    }
  }

  /**
   When sendBatch empties the buffer: if and only if the first answer is 200, or it is another
   status and some try is answered below 500 after nothing but timeouts and answers from 500 on.
   */
  lemma ClearedWhen(s: State, answers: nat -> Answer)
    requires s.buffer != [] && AllEncodable(s.buffer)
    ensures Send(s, answers).buffer == [] <==>
            answers(0) == Status(200) || (answers(0).Status? && SettledFrom(answers, 1))
  {
    var posted := Post(s, s.buffer, answers(0), false);
    if answers(0) == Status(200) {
      RetriesBuffer(Clear(posted), [], answers, 1);
    } else if answers(0).Status? {
      RetriesClear(posted, s.buffer, answers, 1);
    }
  }

  /** Some request carried the batch and was answered with success. */
  predicate Accepted(requests: seq<Request>, batch: seq<Metric>) {
    exists i :: 0 <= i < |requests| && requests[i].body == batch && Success(requests[i].answer)
  }

  lemma AcceptedConcat(a: seq<Request>, b: seq<Request>, batch: seq<Metric>)
    ensures Accepted(a + b, batch) <==> Accepted(a, batch) || Accepted(b, batch)
  {
    if Accepted(a, batch) {
      var i :| 0 <= i < |a| && a[i].body == batch && Success(a[i].answer);
      assert (a + b)[i] == a[i];
    }
    if Accepted(b, batch) {
      var i :| 0 <= i < |b| && b[i].body == batch && Success(b[i].answer);
      assert (a + b)[|a| + i] == b[i];
    }
  }

  lemma AcceptedOne(r: Request, batch: seq<Metric>)
    ensures Accepted([r], batch) <==> r.body == batch && Success(r.answer)
  {
    assert [r][0] == r;
  }

  /** Only the try that settles can be a success. */
  lemma {:induction false} AcceptedByTry(body: seq<Metric>, answers: nat -> Answer, k: nat)
    requires 1 <= k <= 1 + MAX_RETRIES
    ensures Accepted(Posts(body, answers, k), body) <==> exists j :: SettledBy(answers, k, j) && Success(answers(j))
    decreases 1 + MAX_RETRIES - k
  {
    var r := Request(body, answers(k), true);
    AcceptedOne(r, body);
    if Retried(answers(k)) && k < 1 + MAX_RETRIES {
      AcceptedConcat([r], Posts(body, answers, k + 1), body);
      AcceptedByTry(body, answers, k + 1);
      SettledLater(answers, k);
    } else {
      assert Posts(body, answers, k) == [r];
      SettledNow(answers, k);
      assert Success(answers(k)) ==> SettledBy(answers, k, k);
    }
  }

  /** The requests that one sendBatch adds. */
  function Sent(s: State, answers: nat -> Answer): seq<Request> {
    if |s.requests| <= |Send(s, answers).requests| then Send(s, answers).requests[|s.requests|..] else []
  }

  lemma SentWhole(s: State, answers: nat -> Answer)
    requires s.buffer != [] && AllEncodable(s.buffer)
    ensures
      var body := if answers(0) == Status(200) then [] else s.buffer;
      Sent(s, answers) ==
      [Request(s.buffer, answers(0), false)] + if answers(0).Status? then Posts(body, answers, 1) else []
  {
    var posted := Post(s, s.buffer, answers(0), false);
    if answers(0).Status? {
      var left := if answers(0).code == 200 then Clear(posted) else posted;
      RetriesPost(left, left.buffer, answers, 1);
    }
  }

  lemma {:induction false} SettledOnce(answers: nat -> Answer, k: nat, i: nat, j: nat)
    requires SettledBy(answers, k, i) && SettledBy(answers, k, j)
    ensures i == j
  {
    assert i < j ==> Retried(answers(i));
    assert j < i ==> Retried(answers(j));
  }

  /**
   When a batch is lost, that is, cleared although no request that carried it was answered with
   success: if and only if the first answer is a status other than success and the try that
   settles is answered below 500 but not with success.
   */
  lemma LostWhen(s: State, answers: nat -> Answer)
    requires s.buffer != [] && AllEncodable(s.buffer)
    ensures Send(s, answers).buffer == [] && !Accepted(Sent(s, answers), s.buffer) <==>
            answers(0).Status? && !Success(answers(0)) &&
            exists j :: SettledBy(answers, 1, j) && !Success(answers(j))
  {
    var first := Request(s.buffer, answers(0), false);
    ClearedWhen(s, answers);
    SentWhole(s, answers);
    AcceptedOne(first, s.buffer);
    if answers(0).Status? && !Success(answers(0)) {
      AcceptedConcat([first], Posts(s.buffer, answers, 1), s.buffer);
      AcceptedByTry(s.buffer, answers, 1);
      if j :| SettledBy(answers, 1, j) {
        forall i | SettledBy(answers, 1, i) ensures i == j {
          SettledOnce(answers, 1, i, j);
        }
      }
    } else if Success(answers(0)) {
      var body := if answers(0) == Status(200) then [] else s.buffer;
      AcceptedConcat([first], Posts(body, answers, 1), s.buffer);
    }
  }

  /** A server that never settles a batch gets it five times in all, whole each time, and the buffer stays. */
  lemma FivePosts(s: State, answers: nat -> Answer)
    requires s.buffer != [] && AllEncodable(s.buffer)
    requires answers(0).Status? && answers(0).code != 200 && forall k: nat :: k > 0 ==> Retried(answers(k))
    ensures Send(s, answers).buffer == s.buffer
    ensures
      Sent(s, answers) ==
      [Request(s.buffer, answers(0), false), Request(s.buffer, answers(1), true), Request(s.buffer, answers(2), true),
       Request(s.buffer, answers(3), true), Request(s.buffer, answers(4), true)]
  {
    SentWhole(s, answers);
    ClearedWhen(s, answers);
    RetriesBuffer(Post(s, s.buffer, answers(0), false), s.buffer, answers, 1);
    forall j: nat ensures !SettledBy(answers, 1, j) {
      assert j > 0 ==> Retried(answers(j));
    }
    var body := s.buffer;
    assert Posts(body, answers, 4) == [Request(body, answers(4), true)];
    assert Posts(body, answers, 3) == [Request(body, answers(3), true)] + Posts(body, answers, 4);
    assert Posts(body, answers, 2) == [Request(body, answers(2), true)] + Posts(body, answers, 3);
  }

  lemma StuckStep(s: State, op: Op)
    requires !AllEncodable(s.buffer)
    ensures
      var r := if op.AddOp? then Add(s, op.m) else Send(s, op.answers);
      r.requests == s.requests && r.cleared == s.cleared && s.buffer <= r.buffer && !AllEncodable(r.buffer)
  {
    var i :| 0 <= i < |s.buffer| && !s.buffer[i].Encodable();
    assert op.AddOp? ==> !(s.buffer + [op.m])[i].Encodable();
  }

  /** One infinity or NaN in the buffer blocks it for good: nothing is posted or cleared any more. */
  lemma {:induction false} StuckForGood(ops: seq<Op>, more: seq<Op>)
    requires !AllEncodable(Run(ops).buffer)
    ensures
      var s, r := Run(ops), Run(ops + more);
      r.requests == s.requests && r.cleared == s.cleared && s.buffer <= r.buffer && !AllEncodable(r.buffer)
  {
    if more == [] {
      assert ops + more == ops;
    } else {
      var n := |more| - 1;
      assert (ops + more)[..|ops + more| - 1] == ops + more[..n];
      StuckForGood(ops, more[..n]);
      StuckStep(Run(ops + more[..n]), more[n]);
    }
  }

  /** A 4xx answer to a retry settles the batch too: the server refused it twice and it is gone. */
  lemma RefusedBatchIsDropped(m: Metric)
    requires m.Encodable()
    ensures
      var s := Run([AddOp(m), SendOp((k: nat) => Status(400))]);
      s.buffer == [] && s.cleared == [[m]] && forall i :: 0 <= i < |s.requests| ==> s.requests[i].answer == Status(400)
  {
    var refuse := (k: nat) => Status(400);
    var ops := [AddOp(m), SendOp(refuse)];
    assert ops[..1] == [AddOp(m)] && [AddOp(m)][..0] == [];
    var one := Add(INIT, m);
    assert Run([AddOp(m)]) == one && one.buffer == [m] && AllEncodable([m]);
    var posted := Post(one, [m], Status(400), false);
    assert Send(one, refuse) == Retries(posted, [m], refuse, 1);
  }

  /** After a 200 the code still retries, with the emptied buffer: a second request carrying nothing. */
  lemma SuccessPostsEmptyBatch(s: State, answers: nat -> Answer)
    requires s.buffer != [] && AllEncodable(s.buffer) && answers(0) == Status(200)
    ensures
      var r := Send(s, answers);
      && r.buffer == [] && |r.requests| >= |s.requests| + 2
      && r.requests[|s.requests|] == Request(s.buffer, Status(200), false)
      && r.requests[|s.requests| + 1] == Request([], answers(1), true)
  {
    var left := Clear(Post(s, s.buffer, answers(0), false));
    RetriesBuffer(left, [], answers, 1);
    RetriesExtend(left, [], answers, 1);
  }

  lemma {:induction false} RetriesExtend(s: State, body: seq<Metric>, answers: nat -> Answer, k: nat)
    requires 1 <= k <= 1 + MAX_RETRIES
    ensures Post(s, body, answers(k), true).requests <= Retries(s, body, answers, k).requests
    decreases 1 + MAX_RETRIES - k
  {
    var a := answers(k);
    if !Request(body, a, true).Settles() && !(a.NetworkError? && !a.timeout) && k < 1 + MAX_RETRIES {
      RetriesExtend(Post(s, body, a, true), body, answers, k + 1);
    }
  }
}
