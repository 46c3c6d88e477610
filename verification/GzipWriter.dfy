/**
 The compressing response writer (internal/httpmw/gzip.go). The writer underneath records
 what reaches it; a gzip stream is recorded as the data fed to it and its end.
 */
module GzipWriter {
  import opened Model

  datatype Event =
    | Status(code: int, encoding: string)   // the status line, with the Content-Encoding sent along
    | Raw(data: Bytes)
    | Zipped(data: Bytes)
    | ZipEnd

  predicate OccursAt(s: string, sub: string, i: nat) {
    i + |sub| <= |s| && s[i..i + |sub|] == sub
  }

  predicate Contains(s: string, sub: string) {
    exists i: nat :: i <= |s| && OccursAt(s, sub, i)
  }

  predicate Compressible(contentType: string) {
    Contains(contentType, "application/json") || Contains(contentType, "text/html")
  }

  /** A part anywhere in the header, as with parameters after the type. */
  lemma ContainsMeaning(s: string, sub: string)
    ensures Contains(s, sub) <==> exists a, b :: s == a + sub + b
  {
    if Contains(s, sub) {
      var i: nat :| i <= |s| && OccursAt(s, sub, i);
      assert s == s[..i] + sub + s[i + |sub|..];
    }
    if a, b :| s == a + sub + b {
      assert OccursAt(s, sub, |a|);
    }
  }

  /** Responses of two types are compressed, whatever else their header says. */
  lemma CompressibleMeaning(contentType: string)
    ensures Compressible(contentType) <==>
      exists a, b :: contentType == a + "application/json" + b || contentType == a + "text/html" + b
  {
    ContainsMeaning(contentType, "application/json");
    ContainsMeaning(contentType, "text/html");
  }

  class ResponseWriter {
    var contentType: string
    var contentEncoding: string
    var events: seq<Event>

    constructor (contentType: string, contentEncoding: string)
      ensures this.contentType == contentType && this.contentEncoding == contentEncoding && events == []
    {
      this.contentType, this.contentEncoding, events := contentType, contentEncoding, [];
    }

    method WriteHeader(code: int)
      modifies this`events
      ensures events == old(events) + [Status(code, contentEncoding)]
    {
      events := events + [Status(code, contentEncoding)];
    }

    method Emit(e: Event)
      modifies this`events
      ensures events == old(events) + [e]
    {
      events := events + [e];
    }
  }

  /** What a handler does to a response. */
  datatype Op = SetContentType(ct: string) | SetStatus(code: int) | WriteBody(data: Bytes)

  /** The wrapper's fields together with those of the writer underneath. */
  datatype State = State(gz: bool, status: int, wrote: bool, contentType: string, encoding: string, events: seq<Event>)

  function Chunk(zip: bool, data: Bytes): Event {
    if zip then Zipped(data) else Raw(data)
  }

  function Apply(s: State, clientGzip: bool, op: Op): State {
    match op
    case SetContentType(ct) => s.(contentType := ct)
    case SetStatus(code) => s.(status := code)
    case WriteBody(data) =>
      if s.wrote then s.(events := s.events + [Chunk(s.gz, data)])
      else
        var zip := clientGzip && Compressible(s.contentType);
        var encoding := if zip then "gzip" else s.encoding;
        s.(wrote := true, gz := s.gz || zip, encoding := encoding,
           events := s.events + [Status(s.status, encoding)] + [Chunk(s.gz || zip, data)])
  }

  class GzipResponseWriter {
    const w: ResponseWriter
    const clientGzip: bool
    var gz: bool             // a gzip.Writer exists
    var status: int
    var wrote: bool

    ghost function Now(): State
      reads this, w
    {
      State(gz, status, wrote, w.contentType, w.contentEncoding, w.events)
    }

    constructor (w: ResponseWriter, clientGzip: bool)
      ensures this.w == w && this.clientGzip == clientGzip
      ensures Now() == Init(w.contentType, w.contentEncoding).(events := w.events)
    {
      this.w, this.clientGzip, gz, status, wrote := w, clientGzip, false, 200, false;
    }

    method WriteHeader(code: int)
      modifies this
      ensures Now() == Apply(old(Now()), clientGzip, SetStatus(code))
    {
      status := code;
    }

    method Write(data: Bytes)
      modifies this, w
      ensures Now() == Apply(old(Now()), clientGzip, WriteBody(data))
    {
      if !wrote {
        wrote := true;
        if clientGzip && Compressible(w.contentType) {
          w.contentEncoding := "gzip";
          gz := true;
        }
        w.WriteHeader(status);
      }
      w.Emit(Chunk(gz, data));
    }

    method Close()
      modifies w
      ensures w.events == Closed(old(Now()))
    {
      if gz {
        w.Emit(ZipEnd);
      }
      if !wrote {
        w.WriteHeader(status);
      }
    }
  }

  function Init(contentType: string, encoding: string): State {
    State(false, 200, false, contentType, encoding, [])
  }

  function Closed(s: State): seq<Event> {
    s.events + (if s.gz then [ZipEnd] else []) + (if s.wrote then [] else [Status(s.status, s.encoding)])
  }

  function ApplyAll(s: State, clientGzip: bool, ops: seq<Op>): State {
    if ops == [] then s else Apply(ApplyAll(s, clientGzip, ops[..|ops| - 1]), clientGzip, ops[|ops| - 1])
  }

  // ---- What the client must see -----------------------------------------------------------------

  /** The last status set, 200 if none. */
  function LastCode(ops: seq<Op>): int {
    if ops == [] then 200
    else if ops[|ops| - 1].SetStatus? then ops[|ops| - 1].code
    else LastCode(ops[..|ops| - 1])
  }

  function LastType(ops: seq<Op>, initial: string): string {
    if ops == [] then initial
    else if ops[|ops| - 1].SetContentType? then ops[|ops| - 1].ct
    else LastType(ops[..|ops| - 1], initial)
  }

  /** Position of the first write, or the number of operations. */
  function FirstWrite(ops: seq<Op>): (i: nat)
    ensures i <= |ops| && (i < |ops| ==> ops[i].WriteBody?)
    ensures forall j :: 0 <= j < i ==> !ops[j].WriteBody?
  {
    if ops == [] then 0
    else
      var n := |ops| - 1;
      var i := FirstWrite(ops[..n]);
      assert forall j :: 0 <= j < i ==> ops[j] == ops[..n][j];
      if i < n || ops[n].WriteBody? then i else n + 1
  }

  predicate Zips(ops: seq<Op>, clientGzip: bool, initial: string) {
    var i := FirstWrite(ops);
    i < |ops| && clientGzip && Compressible(LastType(ops[..i], initial))
  }

  /** Everything written, each piece marked as raw or as input to the gzip stream. */
  function Body(ops: seq<Op>, zip: bool): seq<Event> {
    if ops == [] then []
    else
      var op := ops[|ops| - 1];
      Body(ops[..|ops| - 1], zip) +
      if op.WriteBody? then [if zip then Zipped(op.data) else Raw(op.data)] else []
  }

  /** One status, decided by the first write, then one homogeneous body. */
  function Response(ops: seq<Op>, clientGzip: bool, initialType: string, initialEncoding: string): seq<Event> {
    var zip := Zips(ops, clientGzip, initialType);
    [Status(LastCode(ops[..FirstWrite(ops)]), if zip then "gzip" else initialEncoding)] +
    Body(ops, zip) + if zip then [ZipEnd] else []
  }

  lemma NoBodyBeforeFirstWrite(ops: seq<Op>, zip: bool)
    requires FirstWrite(ops) == |ops|
    ensures Body(ops, zip) == []
  {
    if ops != [] {
      var n := |ops| - 1;
      assert FirstWrite(ops[..n]) == n;
      NoBodyBeforeFirstWrite(ops[..n], zip);
    }
  }

  /** Between operations the fields reflect exactly what has been done so far. */
  predicate Reflects(s: State, ops: seq<Op>, clientGzip: bool, type0: string, enc0: string) {
    var zip := Zips(ops, clientGzip, type0);
    && s.status == LastCode(ops) && s.contentType == LastType(ops, type0)
    && (s.wrote <==> FirstWrite(ops) < |ops|) && s.gz == zip
    && s.encoding == (if zip then "gzip" else enc0)
    && s.events == if s.wrote then [Status(LastCode(ops[..FirstWrite(ops)]), s.encoding)] + Body(ops, zip) else []
  }

  lemma {:induction false} AllReflects(ops: seq<Op>, clientGzip: bool, type0: string, enc0: string)
    ensures Reflects(ApplyAll(Init(type0, enc0), clientGzip, ops), ops, clientGzip, type0, enc0)
  {
    if ops == [] {
    } else {
      var n := |ops| - 1;
      AllReflects(ops[..n], clientGzip, type0, enc0);
      var before := ApplyAll(Init(type0, enc0), clientGzip, ops[..n]);
      if FirstWrite(ops[..n]) < n {
        LaterOpReflects(before, ops, clientGzip, type0, enc0);
      } else {
        EarlyOpReflects(before, ops, clientGzip, type0, enc0);
      }
    }
  }

  /** An operation after the first write. */
  lemma LaterOpReflects(s: State, ops: seq<Op>, clientGzip: bool, type0: string, enc0: string)
    requires ops != [] && FirstWrite(ops[..|ops| - 1]) < |ops| - 1
    requires Reflects(s, ops[..|ops| - 1], clientGzip, type0, enc0)
    ensures Reflects(Apply(s, clientGzip, ops[|ops| - 1]), ops, clientGzip, type0, enc0)
  {
    var n := |ops| - 1;
    var i := FirstWrite(ops[..n]);
    assert FirstWrite(ops) == i && ops[..n][..i] == ops[..i];
  }

  /** The first write, or an operation before it. */
  lemma EarlyOpReflects(s: State, ops: seq<Op>, clientGzip: bool, type0: string, enc0: string)
    requires ops != [] && FirstWrite(ops[..|ops| - 1]) == |ops| - 1
    requires Reflects(s, ops[..|ops| - 1], clientGzip, type0, enc0)
    ensures Reflects(Apply(s, clientGzip, ops[|ops| - 1]), ops, clientGzip, type0, enc0)
  {
    if ops[|ops| - 1].WriteBody? {
      FirstWriteReflects(s, ops, clientGzip, type0, enc0);
    } else {
      assert FirstWrite(ops) == |ops|;
    }
  }

  lemma FirstWriteReflects(s: State, ops: seq<Op>, clientGzip: bool, type0: string, enc0: string)
    requires ops != [] && FirstWrite(ops[..|ops| - 1]) == |ops| - 1 && ops[|ops| - 1].WriteBody?
    requires Reflects(s, ops[..|ops| - 1], clientGzip, type0, enc0)
    ensures Reflects(Apply(s, clientGzip, ops[|ops| - 1]), ops, clientGzip, type0, enc0)
  {
    var n := |ops| - 1;
    assert FirstWrite(ops) == n;
    var zip := Zips(ops, clientGzip, type0);
    NoBodyBeforeFirstWrite(ops[..n], zip);
    assert Body(ops, zip) == [Chunk(zip, ops[n].data)];
  }

  /**
   GzipMiddleware around a handler: for any sequence of operations the client gets one
   status, the last one set before the first write, then a body that is wholly raw or
   wholly one gzip stream of everything written.
   */
  method Serve(w: ResponseWriter, acceptEncoding: string, ops: seq<Op>)
    requires w.events == []
    modifies w
    ensures w.events ==
      Response(ops, exists a, b :: acceptEncoding == a + "gzip" + b, old(w.contentType), old(w.contentEncoding))
  {
    var clientGzip := Contains(acceptEncoding, "gzip");
    ContainsMeaning(acceptEncoding, "gzip");
    ghost var type0, enc0 := w.contentType, w.contentEncoding;
    var g := new GzipResponseWriter(w, clientGzip);
    for i := 0 to |ops|
      invariant g.Now() == ApplyAll(Init(type0, enc0), clientGzip, ops[..i])
    {
      assert ops[..i + 1][..i] == ops[..i];
      match ops[i]
      case SetContentType(ct) => w.contentType := ct;
      case SetStatus(code) => g.WriteHeader(code);
      case WriteBody(data) => g.Write(data);
    }
    assert ops[..|ops|] == ops;
    ClosedIsResponse(ops, clientGzip, type0, enc0);
    g.Close();
  }

  lemma ClosedIsResponse(ops: seq<Op>, clientGzip: bool, type0: string, enc0: string)
    ensures Closed(ApplyAll(Init(type0, enc0), clientGzip, ops)) == Response(ops, clientGzip, type0, enc0)
  {
    AllReflects(ops, clientGzip, type0, enc0);
    if FirstWrite(ops) == |ops| {
      NoBodyBeforeFirstWrite(ops, false);
      assert ops[..|ops|] == ops;
    }
  }

  function Written(ops: seq<Op>): Bytes {
    if ops == [] then []
    else Written(ops[..|ops| - 1]) + if ops[|ops| - 1].WriteBody? then ops[|ops| - 1].data else []
  }

  /** The bytes a client reassembles from a run of events of one kind. */
  function Joined(events: seq<Event>): Bytes {
    if events == [] then []
    else
      var e := events[|events| - 1];
      Joined(events[..|events| - 1]) + if e.Raw? || e.Zipped? then e.data else []
  }

  predicate LastSetBefore(ops: seq<Op>, i: nat, j: nat) {
    j < i <= |ops| && ops[j].SetStatus? && forall k :: j < k < i ==> !ops[k].SetStatus?
  }

  lemma {:induction false} LastCodeMeaning(ops: seq<Op>, i: nat)
    requires i <= |ops|
    ensures (forall k :: 0 <= k < i ==> !ops[k].SetStatus?) ==> LastCode(ops[..i]) == 200
    ensures forall j: nat :: LastSetBefore(ops, i, j) ==> LastCode(ops[..i]) == ops[j].code
  {
    if i == 0 {
    } else {
      assert ops[..i][..i - 1] == ops[..i - 1];
      LastCodeMeaning(ops, i - 1);
      forall j: nat | LastSetBefore(ops, i, j) ensures LastCode(ops[..i]) == ops[j].code {
        if j < i - 1 {
          assert LastSetBefore(ops, i - 1, j);
        }
      }
    }
  }

  lemma {:induction false} BodyMeaning(ops: seq<Op>, zip: bool)
    ensures Joined(Body(ops, zip)) == Written(ops)
    ensures forall k :: 0 <= k < |Body(ops, zip)| ==> if zip then Body(ops, zip)[k].Zipped? else Body(ops, zip)[k].Raw?
  {
    if ops == [] {
    } else {
      var op, front := ops[|ops| - 1], Body(ops[..|ops| - 1], zip);
      BodyMeaning(ops[..|ops| - 1], zip);
      if op.WriteBody? {
        assert (front + [Chunk(zip, op.data)])[..|front|] == front;
      } else {
        assert front + [] == front;
      }
    }
  }

  /** The response in the protocol's terms: one status, first; one kind of body; the bytes written. */
  lemma ResponseMeaning(ops: seq<Op>, clientGzip: bool, type0: string, enc0: string)
    ensures
      var r, i := Response(ops, clientGzip, type0, enc0), FirstWrite(ops);
      var zip := Zips(ops, clientGzip, type0);
      && |r| > 0 && r[0].Status? && (forall k :: 1 <= k < |r| ==> !r[k].Status?)
      && (forall j: nat :: LastSetBefore(ops, i, j) ==> r[0].code == ops[j].code)
      && ((forall k :: 0 <= k < i ==> !ops[k].SetStatus?) ==> r[0].code == 200)
      && r[0].encoding == (if zip then "gzip" else enc0)
      && (if zip then |r| > 1 && r[|r| - 1].ZipEnd? && forall k :: 1 <= k < |r| - 1 ==> r[k].Zipped?
          else forall k :: 1 <= k < |r| ==> r[k].Raw?)
      && Joined(r[1..if zip then |r| - 1 else |r|]) == Written(ops)
  {
    var zip := Zips(ops, clientGzip, type0);
    var r, body := Response(ops, clientGzip, type0, enc0), Body(ops, zip);
    LastCodeMeaning(ops, FirstWrite(ops));
    BodyMeaning(ops, zip);
    assert r[1..1 + |body|] == body;
  }
}
