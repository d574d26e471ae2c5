/**
 Requests from issue to notification (memcachedClient/MemcachedClient.cpp,
 memcachedClient/MemResult.cpp, network/TcpClient.cpp ReadHeader and ReadBody): the reader of
 each connection alternates between headers and bodies, a finished response posts a completion,
 and running the completion notifies the result and erases the request.

 The connections of all servers share the requests, the ids and the posted handlers.  A server
 added later is a connection on which nothing has happened yet.  One io thread runs one event
 at a time.  mHasMoreResult of a Stat result is never
 initialised, so the event that looks at it brings the value found.
 */
module Requests {
  import opened Collections
  import opened Words
  import opened Framing

  // A result, the size of its value buffer, and the buffers filled: those of the last body,
  // or for Stat those of all bodies.
  datatype Result = Result(kind: Kind, buffer: Option<nat>, pieces: seq<seq<Byte>>)

  datatype Done = Done(id: nat, status: nat)

  datatype Await = Await(header: Header, sizes: seq<nat>)

  // A connection: the bytes not yet read and the reader.
  datatype Conn = Conn(input: seq<Byte>, awaiting: Option<Await>)

  // mNextRequestId, the keys of mRequests, the results (kept by the callers), the handlers
  // posted by FinishRequest, the notifications made, and the connections.
  datatype Client = Client(next: nat, requests: set<nat>, results: map<nat, Result>,
                           posted: seq<Done>, notified: seq<Done>, conns: seq<Conn>)

  datatype Event =
    | Issue(kind: Kind, buffer: Option<nat>)
    | HeaderRead(conn: nat, more: bool)
    | BodyRead(conn: nat, more: bool)
    | RunPosted

  function Start(inputs: seq<seq<Byte>>): Client {
    Client(0, {}, map[], [], [], seq(|inputs|, i requires 0 <= i < |inputs| => Conn(inputs[i], None)))
  }

  predicate HeaderReady(conn: Conn) {
    conn.awaiting == None && |conn.input| >= HEADER_LENGTH
  }

  predicate BodyReady(conn: Conn) {
    conn.awaiting.Some? && |conn.input| >= Total(conn.awaiting.value.sizes)
  }

  predicate Enabled(c: Client, e: Event) {
    match e
    case Issue(_, _) => c.next < UINT32
    case HeaderRead(i, _) => i < |c.conns| && HeaderReady(c.conns[i])
    case BodyRead(i, _) => i < |c.conns| && BodyReady(c.conns[i])
    case RunPosted => c.posted != []
  }

  predicate Live(c: Client, id: nat) {
    id in c.requests && id in c.results
  }

  // HasMoreResult: only a Stat result looks at its flag.
  predicate HasMore(c: Client, id: nat, more: bool) {
    id in c.results && c.results[id].kind == StatKind && more
  }

  function FinishRequest(c: Client, h: Header, more: bool): Client {
    if HasMore(c, h.requestId, more) then c else c.(posted := c.posted + [Done(h.requestId, h.status)])
  }

  // FillReceiveBuffer: a missing value buffer is allocated.
  function Filled(r: Result, h: Header): Result {
    if TakesBuffer(r.kind, h.status) && r.buffer == None then r.(buffer := Some(AsSize(ValueLen(h)))) else r
  }

  // OnHeaderReaded on connection i: the next state, with the buffers for the body if one has to
  // be read.
  function OnHeader(c: Client, i: nat, h: Header, more: bool): Client
    requires i < |c.conns|
  {
    if !Live(c, h.requestId) then c
    else if ValueLen(h) == 0 then FinishRequest(c, h, more)
    else
      var r := c.results[h.requestId];
      var a := Await(h, Prepare(r.kind, r.buffer, h.status, ValueLen(h), h.keylen));
      c.(results := c.results[h.requestId := Filled(r, h)], conns := c.conns[i := c.conns[i].(awaiting := Some(a))])
  }

  // The buffers of a result once a body has been read into them.
  function Stored(r: Result, pieces: seq<seq<Byte>>): Result {
    r.(pieces := if r.kind == StatKind then r.pieces + pieces else pieces)
  }

  // The bytes are in the buffers before OnBodayReaded looks for the request.
  function OnBody(c: Client, a: Await, bytes: seq<Byte>, more: bool): Client
    requires |bytes| == Total(a.sizes)
  {
    var id := a.header.requestId;
    if id !in c.results then c
    else
      var c' := c.(results := c.results[id := Stored(c.results[id], Scatter(a.sizes, bytes))]);
      if Live(c', id) then FinishRequest(c', a.header, more) else c'
  }

  function WithConn(c: Client, i: nat, conn: Conn): Client
    requires i < |c.conns|
  {
    c.(conns := c.conns[i := conn])
  }

  function Step(c: Client, e: Event): Client
    requires Enabled(c, e)
  {
    match e
    case Issue(kind, buffer) =>
      c.(next := c.next + 1, requests := c.requests + {c.next},
         results := c.results[c.next := Result(kind, buffer, [])])
    case HeaderRead(i, more) =>
      var input := c.conns[i].input;
      OnHeader(WithConn(c, i, Conn(input[HEADER_LENGTH..], None)), i, HeaderOf(input[..HEADER_LENGTH]), more)
    case BodyRead(i, more) =>
      var (input, a) := (c.conns[i].input, c.conns[i].awaiting.value);
      var n := Total(a.sizes);
      OnBody(WithConn(c, i, Conn(input[n..], None)), a, input[..n], more)
    case RunPosted =>
      c.(posted := c.posted[1..], notified := c.notified + [c.posted[0]], requests := c.requests - {c.posted[0].id})
  }

  // A run of the io thread on the bytes that the servers send, whatever they are.
  ghost predicate IsRun(inputs: seq<seq<Byte>>, states: seq<Client>, events: seq<Event>) {
    && |states| == |events| + 1 && states[0] == Start(inputs)
    && (forall i :: 0 <= i < |events| ==> Enabled(states[i], events[i]) && states[i + 1] == Step(states[i], events[i]))
  }

  // ----- What was issued -----

  // The Issue events; the position of one is the id of its request.
  function Issues(events: seq<Event>): seq<Event> {
    if events == [] then []
    else
      var (front, e) := (events[..|events| - 1], events[|events| - 1]);
      Issues(front) + if e.Issue? then [e] else []
  }

  // Every result is of the kind that was issued, with the value buffer that was given.
  ghost predicate AsIssued(issues: seq<Event>, c: Client) {
    |issues| == c.next && ResultsOf(issues, c.results)
  }

  ghost predicate ResultsOf(issues: seq<Event>, results: map<nat, Result>) {
    && (forall id :: id in results <==> 0 <= id < |issues|)
    && (forall id :: 0 <= id < |issues| ==> ResultOf(issues[id], results[id]))
  }

  predicate ResultOf(e: Event, r: Result) {
    e.Issue? && r.kind == e.kind && (e.buffer.Some? ==> r.buffer == e.buffer)
  }

  function IssuesNext(issues: seq<Event>, e: Event): seq<Event> {
    if e.Issue? then issues + [e] else issues
  }

  lemma ResultsKept(issues: seq<Event>, results: map<nat, Result>, id: nat, r: Result)
    requires ResultsOf(issues, results) && id in results
    requires r.kind == results[id].kind && (results[id].buffer.Some? ==> r.buffer == results[id].buffer)
    ensures ResultsOf(issues, results[id := r])
  {}

  lemma ResultsGrow(issues: seq<Event>, results: map<nat, Result>, e: Event)
    requires ResultsOf(issues, results) && e.Issue?
    ensures ResultsOf(issues + [e], results[|issues| := Result(e.kind, e.buffer, [])])
  {}

  lemma StepAsIssued(issues: seq<Event>, c: Client, e: Event)
    requires AsIssued(issues, c) && Enabled(c, e)
    ensures AsIssued(IssuesNext(issues, e), Step(c, e))
  {
    hide HeaderOf, ValueLen, Prepare, Total, Scatter, HasMore, ResultsOf;
    match e
    case Issue(_, _) => ResultsGrow(issues, c.results, e);
    case HeaderRead(i, _) =>
      var h := HeaderOf(c.conns[i].input[..HEADER_LENGTH]);
      if h.requestId in c.results {
        ResultsKept(issues, c.results, h.requestId, Filled(c.results[h.requestId], h));
      }
    case BodyRead(i, _) =>
      var (input, a) := (c.conns[i].input, c.conns[i].awaiting.value);
      var id := a.header.requestId;
      if id in c.results {
        ResultsKept(issues, c.results, id, Stored(c.results[id], Scatter(a.sizes, input[..Total(a.sizes)])));
      }
    case RunPosted =>
  }

  lemma IssuesMore(events: seq<Event>, n: nat)
    requires n < |events|
    ensures Issues(events[..n + 1]) == IssuesNext(Issues(events[..n]), events[n])
  {
    assert events[..n + 1][..n] == events[..n];
  }

  // In every state of every run, whatever the servers send, the results are as issued.
  lemma {:induction false} RunAsIssued(inputs: seq<seq<Byte>>, states: seq<Client>, events: seq<Event>, n: nat)
    requires IsRun(inputs, states, events) && n < |states|
    ensures AsIssued(Issues(events[..n]), states[n])
  {
    hide Step, Enabled;
    if n > 0 {
      RunAsIssued(inputs, states, events, n - 1);
      IssuesMore(events, n - 1);
      StepAsIssued(Issues(events[..n - 1]), states[n - 1], events[n - 1]);
    }
  }

  // ----- The objects -----

  // The reader of a TcpClient.
  class Connection {
    var input: seq<Byte>
    var awaiting: Option<Await>
    const header: array<Byte>

    ghost function Value(): Conn
      reads this
    {
      Conn(input, awaiting)
    }

    // While a body is awaited, the header buffer holds its header in host order.
    ghost predicate Valid()
      reads this, header
    {
      && header.Length == HEADER_LENGTH
      && (awaiting.Some? ==> HostFields(header[..]) == awaiting.value.header)
    }

    constructor (bytes: seq<Byte>)
      ensures Valid() && Value() == Conn(bytes, None) && fresh(header)
    {
      input, awaiting := bytes, None;
      header := new Byte[HEADER_LENGTH];
    }

    // Reads the header bytes and brings the fields into host order.
    method TakeHeader() returns (h: Header)
      requires Valid() && HeaderReady(Value())
      modifies this, header
      ensures Valid() && header.Length == HEADER_LENGTH && h == HostFields(header[..])
      ensures h == HeaderOf(old(input[..HEADER_LENGTH])) && Value() == Conn(old(input[HEADER_LENGTH..]), None)
    {
      hide HostFields, HeaderOf;
      var raw := input[..HEADER_LENGTH];
      forall i | 0 <= i < HEADER_LENGTH {
        header[i] := raw[i];
      }
      input := input[HEADER_LENGTH..];
      assert header[..] == raw;
      AdjustEndian(header);
      h := HostFields(header[..]);
    }

    method ExpectBody(h: Header, sizes: seq<nat>)
      requires header.Length == HEADER_LENGTH && h == HostFields(header[..])
      modifies this`awaiting
      ensures Valid() && Value() == old(Value()).(awaiting := Some(Await(h, sizes)))
    {
      awaiting := Some(Await(h, sizes));
    }

    // Fills the buffers of the awaited body.
    method TakeBody() returns (h: Header, pieces: seq<seq<Byte>>)
      requires Valid() && BodyReady(Value())
      modifies this
      ensures Valid() && h == old(awaiting.value.header)
      ensures var n := Total(old(awaiting.value.sizes));
              && pieces == Scatter(old(awaiting.value.sizes), old(input[..n]))
              && Value() == Conn(old(input[n..]), None)
    {
      hide HostFields;
      h := HostFields(header[..]);
      var sizes := awaiting.value.sizes;
      var n := Total(sizes);
      pieces := Scatter(sizes, input[..n]);
      input, awaiting := input[n..], None;
    }
  }

  class MemcachedClient {
    var next: nat
    var requests: set<nat>
    var results: map<nat, Result>
    var posted: seq<Done>
    var notified: seq<Done>
    const conns: seq<Connection>

    ghost function Value(): Client
      reads this, conns
    {
      Client(next, requests, results, posted, notified,
             seq(|conns|, i requires 0 <= i < |conns| reads conns => conns[i].Value()))
    }

    // The connections are different objects with buffers of their own.
    ghost predicate Apart() {
      forall i, j :: 0 <= i < j < |conns| ==> conns[i] != conns[j] && conns[i].header != conns[j].header
    }

    ghost predicate Valid()
      reads this, conns, set i | 0 <= i < |conns| :: conns[i].header
    {
      Apart() && forall i :: 0 <= i < |conns| ==> conns[i].Valid()
    }

    constructor (connections: seq<Connection>)
      requires forall i, j :: 0 <= i < j < |connections| ==>
                 connections[i] != connections[j] && connections[i].header != connections[j].header
      requires forall i :: 0 <= i < |connections| ==> connections[i].Valid() && connections[i].awaiting == None
      ensures conns == connections && Valid()
      ensures Value() == Start(seq(|conns|, i requires 0 <= i < |conns| reads conns => conns[i].input))
    {
      next, requests, results, posted, notified, conns := 0, {}, map[], [], [], connections;
    }

    method IssueRequest(kind: Kind, buffer: Option<nat>) returns (id: nat)
      requires Valid() && Enabled(Value(), Issue(kind, buffer))
      modifies this
      ensures Valid() && Value() == Step(old(Value()), Issue(kind, buffer)) && id == old(next)
    {
      id := next;
      next := next + 1;
      requests := requests + {id};
      results := results[id := Result(kind, buffer, [])];
    }

    // Posts the completion, unless a Stat result says that more responses follow.
    method Finish(id: nat, status: nat, more: bool)
      requires id in results
      modifies this`posted
      ensures posted == old(posted) + if HasMore(Value(), id, more) then [] else [Done(id, status)]
    {
      if results[id].kind != StatKind || !more {
        posted := posted + [Done(id, status)];
      }
    }

    // The buffers that a result prepares for a body.
    method FillReceiveBuffer(id: nat, h: Header) returns (sizes: seq<nat>)
      requires id in results
      modifies this`results
      ensures results == old(results)[id := Filled(old(results)[id], h)]
      ensures var r := old(results)[id]; sizes == Prepare(r.kind, r.buffer, h.status, ValueLen(h), h.keylen)
    {
      var r := results[id];
      sizes := [];
      if r.kind == StatKind {
        sizes := [h.keylen, AsSize(ValueLen(h))];
      } else if r.kind == IncKind && h.status == SUCCESS {
        sizes := [8];
      } else {
        if r.kind == GetKind && h.status == SUCCESS {
          sizes := [4];
        }
        if r.buffer == None {
          r := r.(buffer := Some(AsSize(ValueLen(h))));
        }
        sizes := sizes + [r.buffer.value];
      }
      results := results[id := r];
    }

    // Decides what to do with a header in host order; true asks for a body.
    method OnHeaderReaded(ghost i: nat, h: Header, more: bool) returns (body: bool, sizes: seq<nat>)
      requires i < |conns| && conns[i].awaiting == None
      modifies this`posted, this`results
      ensures var conn := conns[i].Value().(awaiting := if body then Some(Await(h, sizes)) else None);
              WithConn(Value(), i, conn) == OnHeader(old(Value()), i, h, more)
    {
      hide Prepare, Filled;
      body, sizes := false, [];
      if h.requestId in requests && h.requestId in results {
        if ValueLen(h) == 0 {
          Finish(h.requestId, h.status, more);
        } else {
          sizes := FillReceiveBuffer(h.requestId, h);
          body := true;
        }
      }
    }

    method ReadHeader(i: nat, more: bool)
      requires Valid() && Enabled(Value(), HeaderRead(i, more))
      modifies this, conns[i], conns[i].header
      ensures Valid() && Value() == Step(old(Value()), HeaderRead(i, more))
    {
      hide HostFields, HeaderOf, Prepare, Filled;
      var h := conns[i].TakeHeader();
      assert Value() == WithConn(old(Value()), i, conns[i].Value());
      ghost var taken := Value();
      var body, sizes := OnHeaderReaded(i, h, more);
      ghost var decided := Value();
      if body {
        conns[i].ExpectBody(h, sizes);
      }
      assert Value() == WithConn(decided, i, conns[i].Value()) == OnHeader(taken, i, h, more);
    }

    method ReadBody(i: nat, more: bool)
      requires Valid() && Enabled(Value(), BodyRead(i, more))
      modifies this, conns[i]
      ensures Valid() && Value() == Step(old(Value()), BodyRead(i, more))
    {
      hide HostFields, Stored;
      var h, pieces := conns[i].TakeBody();
      var id := h.requestId;
      if id in results {
        results := results[id := Stored(results[id], pieces)];
        if id in requests {
          Finish(id, h.status, more);
        }
      }
    }

    // Runs the oldest posted handler.
    method Notify()
      requires Valid() && Enabled(Value(), RunPosted)
      modifies this
      ensures Valid() && Value() == Step(old(Value()), RunPosted)
    {
      var d := posted[0];
      posted := posted[1..];
      notified := notified + [d];
      requests := requests - {d.id};
    }
  }
}
