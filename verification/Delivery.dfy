/**
 Framing over whole runs (network/TcpClient.cpp, memcachedClient/MemcachedClient.cpp): when
 every header read on a connection starts at a response boundary, and what the results hold.

 Responses may repeat an id, answer no request or come on any connection, and belong to Stat
 requests; requests may be issued, answered and completed in any order.
 */
module Delivery {
  import opened Collections
  import opened Words
  import opened Framing
  import opened Requests

  ghost predicate AllEncodable(all: seq<Response>) {
    forall i :: 0 <= i < |all| ==> all[i].Encodable()
  }

  function EncodeAll(all: seq<Response>): seq<Byte>
    requires AllEncodable(all)
  {
    if all == [] then [] else Encode(all[0]) + EncodeAll(all[1..])
  }

  // The headers read on connection i.
  function HeadersRead(events: seq<Event>, i: nat): nat {
    if events == [] then 0 else After(HeadersRead(events[..|events| - 1], i), events[|events| - 1], i)
  }

  function After(k: nat, e: Event, i: nat): nat {
    if e.HeaderRead? && e.conn == i then k + 1 else k
  }

  // ----- Alignment -----

  // After k headers the unread bytes start at a response boundary, or at the body of the
  // current response and the buffers take exactly that body.
  ghost predicate Aligned(all: seq<Response>, k: nat, conn: Conn)
    requires AllEncodable(all)
  {
    && k <= |all|
    && if conn.awaiting == None then conn.input == EncodeAll(all[k..])
       else
         && k > 0 && conn.input == all[k - 1].Body() + EncodeAll(all[k..])
         && conn.awaiting.value.header == HeaderOf(EncodeHeader(all[k - 1]))
         && Total(conn.awaiting.value.sizes) == |all[k - 1].Body()|
  }

  // The bytes that the client will read as the body of a response.
  function Wanted(c: Client, p: Response): nat {
    if !Live(c, p.id) || p.value == [] then 0
    else
      var r := c.results[p.id];
      Total(Prepare(r.kind, r.buffer, p.status, |p.value|, |p.key|))
  }

  // The client will read exactly the body of the next response.
  ghost predicate FitsNext(all: seq<Response>, k: nat, c: Client) {
    k < |all| && Wanted(c, all[k]) == |all[k].Body()|
  }

  // The value buffer of a request: the one given with it, or one allocated since.
  function BufferOf(issue: Event, r: Result): Option<nat>
    requires issue.Issue?
  {
    if issue.buffer.Some? then issue.buffer else r.buffer
  }

  // The same in terms of the kind and the buffer that were issued.
  ghost predicate FitsIssued(issues: seq<Event>, all: seq<Response>, k: nat, c: Client) {
    k < |all| && |all[k].Body()| == WantedOf(issues, c, all[k])
  }

  function WantedOf(issues: seq<Event>, c: Client, p: Response): nat {
    if !Live(c, p.id) || p.value == [] || p.id >= |issues| || !issues[p.id].Issue? then 0
    else
      var buffer := BufferOf(issues[p.id], c.results[p.id]);
      Total(Prepare(issues[p.id].kind, buffer, p.status, |p.value|, |p.key|))
  }

  lemma FitsAsIssued(issues: seq<Event>, all: seq<Response>, k: nat, c: Client)
    requires AsIssued(issues, c)
    ensures FitsIssued(issues, all, k, c) <==> FitsNext(all, k, c)
  {
    hide Prepare, Total;
    if k < |all| && Live(c, all[k].id) {
      assert ResultOf(issues[all[k].id], c.results[all[k].id]);
    }
  }

  lemma NextHeader(all: seq<Response>, k: nat)
    requires AllEncodable(all) && k < |all|
    ensures var input := EncodeAll(all[k..]);
            && |input| >= HEADER_LENGTH && input[..HEADER_LENGTH] == EncodeHeader(all[k])
            && input[HEADER_LENGTH..] == all[k].Body() + EncodeAll(all[k + 1..])
  {
    hide EncodeHeader;
    var rest := all[k..];
    assert rest[0] == all[k] && rest[1..] == all[k + 1..];
    var (h, b, more) := (EncodeHeader(all[k]), all[k].Body(), EncodeAll(all[k + 1..]));
    assert EncodeAll(rest) == (h + b) + more;
    assert (h + b) + more == h + (b + more);
  }

  lemma ValueLenOf(p: Response)
    requires p.Encodable()
    ensures var h := HeaderOf(EncodeHeader(p));
            h.requestId == p.id && h.status == p.status && h.keylen == |p.key| && ValueLen(h) == |p.value|
  {
    HeaderRoundTrip(p);
    hide EncodeHeader, HeaderOf;
  }

  // Reading a header at a boundary reads the header of the next response.
  lemma HeaderAt(all: seq<Response>, k: nat, conn: Conn)
    requires AllEncodable(all) && Aligned(all, k, conn) && HeaderReady(conn)
    ensures k < |all| && conn.input[..HEADER_LENGTH] == EncodeHeader(all[k])
    ensures conn.input[HEADER_LENGTH..] == all[k].Body() + EncodeAll(all[k + 1..])
  {
    hide EncodeHeader, HeaderOf;
    if k < |all| {
      NextHeader(all, k);
    }
  }

  // The state once the header of response p has been taken from connection i.
  function HeaderTaken(c: Client, i: nat, p: Response, rest: seq<Byte>): Client
    requires i < |c.conns|
  {
    WithConn(c, i, Conn(p.Body() + rest, None))
  }

  lemma HeaderStep(all: seq<Response>, k: nat, c: Client, i: nat, more: bool)
    requires AllEncodable(all) && i < |c.conns| && Aligned(all, k, c.conns[i]) && Enabled(c, HeaderRead(i, more))
    ensures k < |all|
    ensures Step(c, HeaderRead(i, more)) ==
            OnHeader(HeaderTaken(c, i, all[k], EncodeAll(all[k + 1..])), i, HeaderOf(EncodeHeader(all[k])), more)
  {
    hide EncodeHeader, HeaderOf, OnHeader, Aligned;
    HeaderAt(all, k, c.conns[i]);
  }

  // Alignment survives a header exactly when the client will read the body of its response.
  lemma HeaderAligned(all: seq<Response>, k: nat, c: Client, i: nat, more: bool)
    requires AllEncodable(all) && i < |c.conns| && Aligned(all, k, c.conns[i]) && Enabled(c, HeaderRead(i, more))
    ensures |Step(c, HeaderRead(i, more)).conns| == |c.conns|
    ensures Aligned(all, k + 1, Step(c, HeaderRead(i, more)).conns[i]) <==> FitsNext(all, k, c)
  {
    HeaderStep(all, k, c, i, more);
    ValueLenOf(all[k]);
    var (body, rest) := (all[k].Body(), EncodeAll(all[k + 1..]));
    assert body + rest == rest <==> body == [] by {
      assert body + rest == rest ==> |body| == 0;
    }
    hide Step, EncodeAll, EncodeHeader, HeaderOf, ValueLen, Prepare, Filled, Total;
  }

  lemma BodyAligned(all: seq<Response>, k: nat, c: Client, i: nat, more: bool)
    requires AllEncodable(all) && i < |c.conns| && Aligned(all, k, c.conns[i]) && Enabled(c, BodyRead(i, more))
    ensures |Step(c, BodyRead(i, more)).conns| == |c.conns| && Aligned(all, k, Step(c, BodyRead(i, more)).conns[i])
  {
    hide EncodeAll, EncodeHeader, HeaderOf, Scatter, Stored, Total;
    var (n, input) := (|all[k - 1].Body()|, c.conns[i].input);
    assert input[..n] == all[k - 1].Body() && input[n..] == EncodeAll(all[k..]);
  }

  // An event leaves the other connections alone.
  lemma OthersUntouched(c: Client, e: Event, i: nat)
    requires Enabled(c, e) && i < |c.conns|
    ensures |Step(c, e).conns| == |c.conns|
    ensures (e.Issue? || e.RunPosted? || e.conn != i) ==> Step(c, e).conns[i] == c.conns[i]
  {
    hide HeaderOf, ValueLen, Prepare, Filled, Scatter, Stored, Total;
  }

  lemma StepAligned(all: seq<Response>, k: nat, c: Client, e: Event, i: nat)
    requires AllEncodable(all) && i < |c.conns| && Aligned(all, k, c.conns[i]) && Enabled(c, e)
    ensures |Step(c, e).conns| == |c.conns|
    ensures Aligned(all, After(k, e, i), Step(c, e).conns[i]) <==>
            (e.HeaderRead? && e.conn == i ==> FitsNext(all, k, c))
  {
    hide Step, Aligned, FitsNext;
    OthersUntouched(c, e, i);
    if e.HeaderRead? && e.conn == i {
      HeaderAligned(all, k, c, i, e.more);
    } else if e.BodyRead? && e.conn == i {
      BodyAligned(all, k, c, i, e.more);
    }
  }

  lemma HeadersReadNext(events: seq<Event>, n: nat, i: nat)
    requires n < |events|
    ensures HeadersRead(events[..n + 1], i) == After(HeadersRead(events[..n], i), events[n], i)
  {
    assert events[..n + 1][..n] == events[..n];
  }

  lemma StartAligned(all: seq<Response>)
    requires AllEncodable(all)
    ensures Aligned(all, 0, Conn(EncodeAll(all), None))
  {
    assert all[0..] == all;
  }

  // The reader of connection i.
  function Reader(c: Client, i: nat): Conn {
    if i < |c.conns| then c.conns[i] else Conn([], None)
  }

  lemma {:induction false} ConnsKept(inputs: seq<seq<Byte>>, states: seq<Client>, events: seq<Event>, n: nat)
    requires IsRun(inputs, states, events) && n < |states|
    ensures |states[n].conns| == |inputs|
  {
    hide Step, Enabled;
    if n > 0 {
      ConnsKept(inputs, states, events, n - 1);
      if |inputs| > 0 {
        OthersUntouched(states[n - 1], events[n - 1], 0);
      } else {
        NoConns(states[n - 1], events[n - 1]);
      }
    }
  }

  lemma NoConns(c: Client, e: Event)
    requires Enabled(c, e) && c.conns == []
    ensures Step(c, e).conns == []
  {}

  // The first n events leave connection i aligned if its headers fit.
  lemma {:induction false} AlignedUpTo(all: seq<Response>, i: nat, inputs: seq<seq<Byte>>, states: seq<Client>,
                                       events: seq<Event>, n: nat)
    requires AllEncodable(all) && i < |inputs| && inputs[i] == EncodeAll(all)
    requires IsRun(inputs, states, events) && n < |states|
    requires forall m :: 0 <= m < n && events[m].HeaderRead? && events[m].conn == i ==>
               FitsNext(all, HeadersRead(events[..m], i), states[m])
    ensures Aligned(all, HeadersRead(events[..n], i), Reader(states[n], i))
  {
    hide Aligned, Step, FitsNext, Enabled;
    if n == 0 {
      StartAligned(all);
    } else {
      AlignedUpTo(all, i, inputs, states, events, n - 1);
      ConnsKept(inputs, states, events, n - 1);
      HeadersReadNext(events, n - 1, i);
      StepAligned(all, HeadersRead(events[..n - 1], i), states[n - 1], events[n - 1], i);
    }
  }

  // A connection that brings some responses, beside others that may bring anything, is aligned in
  // all states of a run if and only if at every header on it the client goes on to read exactly
  // the body of that response.
  lemma AlignedExactly(all: seq<Response>, i: nat, inputs: seq<seq<Byte>>, states: seq<Client>, events: seq<Event>)
    requires AllEncodable(all) && i < |inputs| && inputs[i] == EncodeAll(all) && IsRun(inputs, states, events)
    ensures (forall n :: 0 <= n < |states| ==> Aligned(all, HeadersRead(events[..n], i), Reader(states[n], i))) <==>
            (forall n :: 0 <= n < |events| && events[n].HeaderRead? && events[n].conn == i ==>
               FitsIssued(Issues(events[..n]), all, HeadersRead(events[..n], i), states[n]))
  {
    hide Aligned, Step, FitsNext, FitsIssued, Enabled, EncodeAll, HeadersRead;
    forall n | 0 <= n < |events|
      ensures FitsIssued(Issues(events[..n]), all, HeadersRead(events[..n], i), states[n]) <==>
              FitsNext(all, HeadersRead(events[..n], i), states[n])
    {
      RunAsIssued(inputs, states, events, n);
      FitsAsIssued(Issues(events[..n]), all, HeadersRead(events[..n], i), states[n]);
    }
    if forall n :: 0 <= n < |states| ==> Aligned(all, HeadersRead(events[..n], i), Reader(states[n], i)) {
      forall n | 0 <= n < |events| && events[n].HeaderRead? && events[n].conn == i
        ensures FitsNext(all, HeadersRead(events[..n], i), states[n])
      {
        HeadersReadNext(events, n, i);
        ConnsKept(inputs, states, events, n);
        StepAligned(all, HeadersRead(events[..n], i), states[n], events[n], i);
        assert Aligned(all, HeadersRead(events[..n + 1], i), Reader(states[n + 1], i));
      }
    }
    if forall n :: 0 <= n < |events| && events[n].HeaderRead? && events[n].conn == i ==>
         FitsNext(all, HeadersRead(events[..n], i), states[n]) {
      forall n | 0 <= n < |states|
        ensures Aligned(all, HeadersRead(events[..n], i), Reader(states[n], i))
      {
        AlignedUpTo(all, i, inputs, states, events, n);
      }
    }
  }

  // ----- What the results hold -----

  // A well-formed response to a request of some kind, with a value buffer of some size or none:
  // the shape of the body fits the kind, and a buffer that is there has the size of the value.
  predicate Answers(kind: Kind, buffer: Option<nat>, p: Response) {
    if p.value == [] then p.extras == [] && p.key == []
    else
      && (TakesBuffer(kind, p.status) && buffer.Some? ==> buffer.value == |p.value|)
      && match kind
         case GetKind => p.key == [] && |p.extras| == if p.status == 0 then 4 else 0
         case IncKind => p.key == [] && p.extras == [] && (p.status == 0 ==> |p.value| == 8)
         case Plain => p.key == [] && p.extras == []
         case StatKind => p.extras == []
  }

  // Where the parts of an answered response belong.
  function PiecesOf(kind: Kind, p: Response): seq<seq<Byte>> {
    if kind == StatKind then [p.key, p.value]
    else if kind == GetKind && p.status == 0 then [p.extras, p.value]
    else [p.value]
  }

  // A response handled completely, and the connection that it came on.
  datatype Entry = Entry(conn: nat, response: Response)

  // What the result of a request should hold after some responses: a Stat result every key
  // and value sent to it, another result the parts of the last body.
  function Held(kind: Kind, id: nat, log: seq<Entry>): seq<seq<Byte>> {
    if log == [] then []
    else
      var (before, p) := (Held(kind, id, log[..|log| - 1]), log[|log| - 1].response);
      if p.id != id || p.value == [] then before
      else if kind == StatKind then before + PiecesOf(kind, p)
      else PiecesOf(kind, p)
  }

  // The responses of connection i in a log.
  function Of(log: seq<Entry>, i: nat): seq<Response> {
    if log == [] then []
    else
      Of(log[..|log| - 1], i) + if log[|log| - 1].conn == i then [log[|log| - 1].response] else []
  }

  // The next response fits its live request; a response to no live request has no body.
  ghost predicate Due(all: seq<Response>, k: nat, c: Client) {
    k < |all| &&
    if Live(c, all[k].id) then Answers(c.results[all[k].id].kind, c.results[all[k].id].buffer, all[k])
    else all[k].Body() == []
  }

  // The same in terms of the kind and the buffer that were issued.
  ghost predicate DueIssued(issues: seq<Event>, all: seq<Response>, k: nat, c: Client) {
    k < |all| &&
    if Live(c, all[k].id)
    then
      && all[k].id < |issues| && issues[all[k].id].Issue?
      && Answers(issues[all[k].id].kind, BufferOf(issues[all[k].id], c.results[all[k].id]), all[k])
    else all[k].Body() == []
  }

  lemma DueAsIssued(issues: seq<Event>, all: seq<Response>, k: nat, c: Client)
    requires AsIssued(issues, c)
    ensures DueIssued(issues, all, k, c) <==> Due(all, k, c)
  {
    hide Answers;
    if k < |all| && Live(c, all[k].id) {
      assert ResultOf(issues[all[k].id], c.results[all[k].id]);
    }
  }

  // The responses handled completely, when k headers have been read.
  function Handled(all: seq<Response>, k: nat, conn: Conn): seq<Response> {
    var n := if conn.awaiting == None then k else k - 1;
    if 0 <= n <= |all| then all[..n] else []
  }

  ghost predicate Issued(next: nat, results: map<nat, Result>) {
    forall id :: id in results <==> 0 <= id < next
  }

  // The reader expects the body of response p; a value buffer that takes it is there.
  ghost predicate Expects(a: Await, results: map<nat, Result>, p: Response) {
    && p.id in results && p.value != []
    && var r := results[p.id];
       && Answers(r.kind, r.buffer, p) && a.sizes == Prepare(r.kind, r.buffer, p.status, |p.value|, |p.key|)
       && (TakesBuffer(r.kind, p.status) ==> r.buffer.Some?)
  }

  // Every result holds the parts of the responses sent to it, and nothing else.
  ghost predicate Delivered(log: seq<Entry>, results: map<nat, Result>) {
    forall id :: id in results ==> results[id].pieces == Held(results[id].kind, id, log)
  }

  // Bodies have been read for issued requests only.
  ghost predicate BodiesIssued(log: seq<Entry>, next: nat) {
    forall j :: 0 <= j < |log| && log[j].response.value != [] ==> log[j].response.id < next
  }

  ghost predicate ConnOk(all: seq<Response>, k: nat, conn: Conn, results: map<nat, Result>)
    requires AllEncodable(all)
  {
    && Aligned(all, k, conn)
    && (conn.awaiting.Some? ==> Expects(conn.awaiting.value, results, all[k - 1]))
  }

  ghost predicate AllStreams(alls: seq<seq<Response>>) {
    forall i :: 0 <= i < |alls| ==> AllEncodable(alls[i])
  }

  // The log merges what has been handled on the connections, each in its own order.
  ghost predicate Merges(alls: seq<seq<Response>>, ks: seq<nat>, conns: seq<Conn>, log: seq<Entry>)
    requires |ks| == |alls| == |conns|
  {
    && (forall i :: 0 <= i < |alls| ==> Of(log, i) == Handled(alls[i], ks[i], conns[i]))
    && (forall j :: 0 <= j < |log| ==> log[j].conn < |alls|)
  }

  ghost predicate Inv(alls: seq<seq<Response>>, ks: seq<nat>, log: seq<Entry>, c: Client)
    requires AllStreams(alls)
  {
    && |ks| == |alls| == |c.conns|
    && (forall i :: 0 <= i < |alls| ==> ConnOk(alls[i], ks[i], c.conns[i], c.results))
    && Issued(c.next, c.results) && BodiesIssued(log, c.next) && Delivered(log, c.results)
    && Merges(alls, ks, c.conns, log)
  }

  // What an event adds to the counts of headers and to the log.
  function CountsNext(ks: seq<nat>, e: Event): seq<nat> {
    if e.HeaderRead? && e.conn < |ks| then ks[e.conn := ks[e.conn] + 1] else ks
  }

  function LogNext(alls: seq<seq<Response>>, ks: seq<nat>, log: seq<Entry>, e: Event): seq<Entry>
    requires |ks| == |alls|
  {
    match e
    case HeaderRead(i, _) =>
      if i < |alls| && ks[i] < |alls[i]| && alls[i][ks[i]].value == [] then log + [Entry(i, alls[i][ks[i]])] else log
    case BodyRead(i, _) =>
      if i < |alls| && 0 < ks[i] <= |alls[i]| then log + [Entry(i, alls[i][ks[i] - 1])] else log
    case _ => log
  }

  // The prepared buffers take the whole body, and each part lands in its own buffer.
  lemma BodyScatters(kind: Kind, buffer: Option<nat>, p: Response)
    requires Answers(kind, buffer, p) && p.value != [] && |p.value| < UINT64
    ensures var sizes := Prepare(kind, buffer, p.status, |p.value|, |p.key|);
            |p.Body()| == Total(sizes) && Scatter(sizes, p.Body()) == PiecesOf(kind, p)
  {
    hide Scatter, Total;
    if kind == StatKind {
      assert p.Body() == p.key + p.value;
      ScatterTwo(p.key, p.value);
    } else if kind == GetKind && p.status == SUCCESS {
      assert p.Body() == p.extras + p.value;
      ScatterTwo(p.extras, p.value);
    } else {
      assert p.Body() == p.value;
      ScatterOne(|p.value|, p.value);
    }
  }

  // A response with a value is well-formed exactly when the prepared buffers take its whole body
  // and each part lands in its own buffer: for Stat the key and the value, for a successful Get the
  // four bytes of flags and the value, otherwise the value, of eight bytes for a successful Inc.
  lemma AnswersExactly(kind: Kind, buffer: Option<nat>, p: Response)
    requires p.value != [] && |p.value| < UINT64
    ensures var sizes := Prepare(kind, buffer, p.status, |p.value|, |p.key|);
            Answers(kind, buffer, p) <==>
            && |p.Body()| == Total(sizes)
            && Scatter(sizes, p.Body()) == if kind == StatKind then [p.key, p.value]
                                           else if kind == GetKind && p.status == 0 then [p.extras, p.value]
                                           else [p.value]
  {
    var sizes := Prepare(kind, buffer, p.status, |p.value|, |p.key|);
    if Answers(kind, buffer, p) {
      BodyScatters(kind, buffer, p);
    }
    if |p.Body()| == Total(sizes) && Scatter(sizes, p.Body()) == PiecesOf(kind, p) {
      if |sizes| == 2 {
        ScatteredTwo(sizes, p.Body());
      } else {
        ScatteredOne(sizes, p.Body());
      }
      PartsOfBody(p);
    }
  }

  lemma ScatteredOne(sizes: seq<nat>, body: seq<Byte>)
    requires |sizes| == 1 && |body| == Total(sizes)
    ensures |body| == sizes[0] && Scatter(sizes, body) == [body]
  {
    assert sizes == [sizes[0]];
    TotalOne(sizes[0]);
    ScatterOne(sizes[0], body);
  }

  lemma ScatteredTwo(sizes: seq<nat>, body: seq<Byte>)
    requires |sizes| == 2 && |body| == Total(sizes)
    ensures |body| == sizes[0] + sizes[1] && Scatter(sizes, body) == [body[..sizes[0]], body[sizes[0]..]]
  {
    assert sizes == [sizes[0], sizes[1]];
    TotalTwo(sizes[0], sizes[1]);
    assert body == body[..sizes[0]] + body[sizes[0]..];
    ScatterTwo(body[..sizes[0]], body[sizes[0]..]);
  }

  lemma PartsOfBody(p: Response)
    ensures |p.Body()| == |p.extras| + |p.key| + |p.value|
    ensures p.Body() == p.value ==> p.extras == [] && p.key == []
  {}

  lemma DueFits(all: seq<Response>, k: nat, c: Client)
    requires AllEncodable(all) && Due(all, k, c)
    ensures FitsNext(all, k, c)
  {
    var p := all[k];
    if Live(c, p.id) && p.value != [] {
      BodyScatters(c.results[p.id].kind, c.results[p.id].buffer, p);
    }
  }

  lemma HeldMore(kind: Kind, id: nat, log: seq<Entry>, e: Entry)
    ensures Held(kind, id, log + [e]) ==
            var before := Held(kind, id, log);
            if e.response.id != id || e.response.value == [] then before
            else if kind == StatKind then before + PiecesOf(kind, e.response)
            else PiecesOf(kind, e.response)
  {
    assert (log + [e])[..|log|] == log;
  }

  lemma OfMore(log: seq<Entry>, e: Entry, i: nat)
    ensures Of(log + [e], i) == Of(log, i) + if e.conn == i then [e.response] else []
  {
    assert (log + [e])[..|log|] == log;
  }

  lemma {:induction false} HeldNothing(kind: Kind, id: nat, log: seq<Entry>)
    requires forall j :: 0 <= j < |log| && log[j].response.value != [] ==> log[j].response.id != id
    ensures Held(kind, id, log) == []
  {
    if log != [] {
      HeldNothing(kind, id, log[..|log| - 1]);
    }
  }

  // ----- Results that change under the readers -----

  // A result keeps its kind, and a value buffer that is there.
  predicate SameShape(r: Result, r': Result) {
    r'.kind == r.kind && (r.buffer == None || r'.buffer == r.buffer)
  }

  ghost predicate Same(results: map<nat, Result>, results': map<nat, Result>) {
    forall id :: id in results ==> id in results' && SameShape(results[id], results'[id])
  }

  lemma ExpectsStable(a: Await, results: map<nat, Result>, results': map<nat, Result>, p: Response)
    requires Expects(a, results, p) && Same(results, results')
    ensures Expects(a, results', p)
  {}

  lemma ConnOkStable(all: seq<Response>, k: nat, conn: Conn, results: map<nat, Result>, results': map<nat, Result>)
    requires AllEncodable(all) && ConnOk(all, k, conn, results) && Same(results, results')
    ensures ConnOk(all, k, conn, results')
  {
    hide EncodeAll, EncodeHeader, HeaderOf, Expects, Same, Total;
    if conn.awaiting.Some? {
      ExpectsStable(conn.awaiting.value, results, results', all[k - 1]);
    }
  }

  lemma SameOne(results: map<nat, Result>, id: nat, r: Result)
    requires id in results ==> SameShape(results[id], r)
    ensures Same(results, results[id := r])
  {}

  lemma Parts(all: seq<Response>, k: nat)
    requires AllEncodable(all) && k <= |all|
    ensures AllEncodable(all[k..]) && (k < |all| ==> all[k].Encodable() && AllEncodable(all[k + 1..]))
  {}

  lemma Bounds(all: seq<Response>, k: nat, conn: Conn)
    requires AllEncodable(all) && Aligned(all, k, conn)
    ensures k <= |all| && (conn.awaiting.Some? ==> k > 0)
    ensures Handled(all, k, conn) == all[..if conn.awaiting == None then k else k - 1]
  {
    hide EncodeAll, EncodeHeader, HeaderOf, Total;
  }

  // One connection and the results have changed; what is known of the others stays.
  ghost predicate Moved(alls: seq<seq<Response>>, ks: seq<nat>, log: seq<Entry>, c: Client,
                        ks': seq<nat>, log': seq<Entry>, c': Client, i: nat)
    requires AllStreams(alls)
  {
    && i < |alls| == |ks| == |ks'| == |c.conns| == |c'.conns|
    && (forall j :: 0 <= j < |alls| && j != i ==>
          ks'[j] == ks[j] && c'.conns[j] == c.conns[j] && Of(log', j) == Of(log, j))
    && (forall j :: 0 <= j < |log'| ==> log'[j].conn < |alls|)
    && Same(c.results, c'.results)
    && ConnOk(alls[i], ks'[i], c'.conns[i], c'.results)
    && Of(log', i) == Handled(alls[i], ks'[i], c'.conns[i])
    && Issued(c'.next, c'.results) && BodiesIssued(log', c'.next) && Delivered(log', c'.results)
  }

  lemma MovedInv(alls: seq<seq<Response>>, ks: seq<nat>, log: seq<Entry>, c: Client,
                 ks': seq<nat>, log': seq<Entry>, c': Client, i: nat)
    requires AllStreams(alls) && Inv(alls, ks, log, c) && Moved(alls, ks, log, c, ks', log', c', i)
    ensures Inv(alls, ks', log', c')
  {
    hide ConnOk, Same, Issued, BodiesIssued, Delivered, Of, Handled, AllEncodable;
    forall j | 0 <= j < |alls|
      ensures ConnOk(alls[j], ks'[j], c'.conns[j], c'.results)
    {
      if j != i {
        assert c'.conns[j] == c.conns[j] && ks'[j] == ks[j];
        ConnOkStable(alls[j], ks[j], c.conns[j], c.results, c'.results);
      }
    }
  }

  // ----- The steps -----

  lemma NewResultDelivered(log: seq<Entry>, results: map<nat, Result>, id: nat, r: Result)
    requires Delivered(log, results) && r.pieces == []
    requires forall j :: 0 <= j < |log| && log[j].response.value != [] ==> log[j].response.id != id
    ensures Delivered(log, results[id := r])
  {
    HeldNothing(r.kind, id, log);
    hide Held;
  }

  lemma NewResultIssued(next: nat, results: map<nat, Result>, r: Result)
    requires Issued(next, results)
    ensures next !in results && Issued(next + 1, results[next := r])
  {}

  lemma IssueInv(alls: seq<seq<Response>>, ks: seq<nat>, log: seq<Entry>, c: Client, e: Event)
    requires AllStreams(alls) && Inv(alls, ks, log, c) && e.Issue? && Enabled(c, e)
    ensures Inv(alls, ks, log, Step(c, e))
  {
    hide ConnOk, Same, Issued, Delivered, Merges, AllEncodable;
    var r := Result(e.kind, e.buffer, []);
    NewResultIssued(c.next, c.results, r);
    NewResultDelivered(log, c.results, c.next, r);
    SameOne(c.results, c.next, r);
    forall i | 0 <= i < |alls|
      ensures ConnOk(alls[i], ks[i], c.conns[i], c.results[c.next := r])
    {
      ConnOkStable(alls[i], ks[i], c.conns[i], c.results, c.results[c.next := r]);
    }
  }

  lemma RunInv(alls: seq<seq<Response>>, ks: seq<nat>, log: seq<Entry>, c: Client)
    requires AllStreams(alls) && Inv(alls, ks, log, c) && Enabled(c, RunPosted)
    ensures Inv(alls, ks, log, Step(c, RunPosted))
  {
    hide ConnOk, Issued, BodiesIssued, Delivered, Merges, AllEncodable;
  }

  // Reading an empty response or one that nobody waits for changes no result.
  lemma NothingDelivered(log: seq<Entry>, results: map<nat, Result>, e: Entry)
    requires Delivered(log, results) && e.response.value == []
    ensures Delivered(log + [e], results)
  {
    hide Held;
    forall id | id in results
      ensures results[id].pieces == Held(results[id].kind, id, log + [e])
    {
      HeldMore(results[id].kind, id, log, e);
    }
  }

  // A header without a body completes its response.
  lemma EmptyHeaderStep(all: seq<Response>, k: nat, c: Client, i: nat, more: bool)
    requires AllEncodable(all) && i < |c.conns| && Aligned(all, k, c.conns[i]) && Enabled(c, HeaderRead(i, more))
    requires Due(all, k, c) && all[k].value == []
    ensures var c1 := WithConn(c, i, Conn(EncodeAll(all[k + 1..]), None));
            Step(c, HeaderRead(i, more)) ==
            if Live(c, all[k].id) then FinishRequest(c1, HeaderOf(EncodeHeader(all[k])), more) else c1
  {
    HeaderStep(all, k, c, i, more);
    ValueLenOf(all[k]);
    assert all[k].Body() == [];
    hide Step, Aligned, EncodeAll, EncodeHeader, HeaderOf, ValueLen, Prepare, Filled, AllEncodable;
    assert all[k].Body() + EncodeAll(all[k + 1..]) == EncodeAll(all[k + 1..]);
  }

  lemma EmptyHeaderInv(alls: seq<seq<Response>>, ks: seq<nat>, log: seq<Entry>, c: Client, i: nat, more: bool)
    requires AllStreams(alls) && Inv(alls, ks, log, c) && Enabled(c, HeaderRead(i, more))
    requires Due(alls[i], ks[i], c) && alls[i][ks[i]].value == []
    ensures Inv(alls, CountsNext(ks, HeaderRead(i, more)), LogNext(alls, ks, log, HeaderRead(i, more)),
                Step(c, HeaderRead(i, more)))
  {
    hide EncodeAll, EncodeHeader, HeaderOf, Delivered, Answers, Prepare, Issued, Step, FinishRequest, Of, Expects, Same,
         AllEncodable, Total;
    var (all, k, p) := (alls[i], ks[i], alls[i][ks[i]]);
    var (c', entry) := (Step(c, HeaderRead(i, more)), Entry(i, p));
    Parts(all, k);
    EmptyHeaderStep(all, k, c, i, more);
    FinishKeeps(WithConn(c, i, Conn(EncodeAll(all[k + 1..]), None)), HeaderOf(EncodeHeader(p)), more);
    NothingDelivered(log, c.results, entry);
    SameItself(c.results);
    forall j: nat
      ensures Of(log + [entry], j) == Of(log, j) + if j == i then [p] else []
    {
      OfMore(log, entry, j);
    }
    assert all[..k + 1] == all[..k] + [p];
    MovedInv(alls, ks, log, c, ks[i := k + 1], log + [entry], c', i);
  }

  lemma FinishKeeps(c: Client, h: Header, more: bool)
    ensures var c' := FinishRequest(c, h, more);
            c'.next == c.next && c'.results == c.results && c'.conns == c.conns
  {}

  lemma SameItself(results: map<nat, Result>)
    ensures Same(results, results)
  {}

  lemma FilledAnswers(r: Result, p: Response)
    requires p.Encodable() && Answers(r.kind, r.buffer, p) && p.value != []
    ensures var r' := Filled(r, HeaderOf(EncodeHeader(p)));
            && Answers(r'.kind, r'.buffer, p) && SameShape(r, r') && r'.pieces == r.pieces
            && (TakesBuffer(r'.kind, p.status) ==> r'.buffer.Some?)
            && Prepare(r'.kind, r'.buffer, p.status, |p.value|, |p.key|) ==
               Prepare(r.kind, r.buffer, p.status, |p.value|, |p.key|)
  {
    ValueLenOf(p);
    hide EncodeHeader, HeaderOf, ValueLen;
  }

  // A header with a body makes the reader wait for it.
  lemma FullHeaderStep(all: seq<Response>, k: nat, c: Client, i: nat, more: bool)
    requires AllEncodable(all) && i < |c.conns| && Aligned(all, k, c.conns[i]) && Enabled(c, HeaderRead(i, more))
    requires Due(all, k, c) && all[k].value != []
    ensures Live(c, all[k].id)
    ensures var (p, r, h) := (all[k], c.results[all[k].id], HeaderOf(EncodeHeader(all[k])));
            var a := Await(h, Prepare(r.kind, r.buffer, p.status, |p.value|, |p.key|));
            Step(c, HeaderRead(i, more)) ==
            WithConn(c, i, Conn(p.Body() + EncodeAll(all[k + 1..]), Some(a)))
              .(results := c.results[p.id := Filled(r, h)])
  {
    HeaderStep(all, k, c, i, more);
    ValueLenOf(all[k]);
    hide Step, Aligned, EncodeAll, EncodeHeader, HeaderOf, ValueLen, Prepare, Filled, Answers, AllEncodable;
  }

  lemma FilledDelivered(log: seq<Entry>, results: map<nat, Result>, id: nat, r: Result)
    requires Delivered(log, results) && id in results && r.pieces == results[id].pieces && r.kind == results[id].kind
    ensures Delivered(log, results[id := r])
  {
    hide Held;
  }

  lemma SameIssued(next: nat, results: map<nat, Result>, id: nat, r: Result)
    requires Issued(next, results) && id in results
    ensures Issued(next, results[id := r]) && id < next
  {}

  // A response with a value that goes into the value buffer of a request without one allocates a
  // buffer of just that size; any other buffer stays as it is.
  function BufferAfter(r: Result, p: Response): Option<nat> {
    if r.buffer == None && (r.kind == Plain || r.kind == GetKind || (r.kind == IncKind && p.status != 0))
    then Some(|p.value|)
    else r.buffer
  }

  lemma FilledIs(r: Result, p: Response)
    requires p.Encodable() && p.value != []
    ensures Filled(r, HeaderOf(EncodeHeader(p))).buffer == BufferAfter(r, p)
  {
    ValueLenOf(p);
    hide EncodeHeader, HeaderOf, ValueLen;
  }

  lemma HeaderAllocates(all: seq<Response>, k: nat, c: Client, i: nat, more: bool)
    requires AllEncodable(all) && i < |c.conns| && Aligned(all, k, c.conns[i]) && Enabled(c, HeaderRead(i, more))
    requires Due(all, k, c) && all[k].value != []
    ensures var (id, c') := (all[k].id, Step(c, HeaderRead(i, more)));
            id in c.results && id in c'.results && c'.results[id].buffer == BufferAfter(c.results[id], all[k])
  {
    FullHeaderStep(all, k, c, i, more);
    Parts(all, k);
    FilledIs(c.results[all[k].id], all[k]);
    hide Aligned, Step, Answers, Prepare, EncodeAll, EncodeHeader, HeaderOf, Filled, BufferAfter, AllEncodable;
  }

  // After the header of a response with a body the reader is aligned and expects the body.
  lemma FullHeaderOk(all: seq<Response>, k: nat, c: Client, i: nat, more: bool)
    requires AllEncodable(all) && i < |c.conns| && Aligned(all, k, c.conns[i]) && Enabled(c, HeaderRead(i, more))
    requires Due(all, k, c) && all[k].value != []
    ensures var c' := Step(c, HeaderRead(i, more));
            |c'.conns| == |c.conns| && c'.conns[i].awaiting.Some? && ConnOk(all, k + 1, c'.conns[i], c'.results)
  {
    DueFits(all, k, c);
    HeaderAligned(all, k, c, i, more);
    FullHeaderStep(all, k, c, i, more);
    FilledAnswers(c.results[all[k].id], all[k]);
    hide Aligned, Step, Answers, Prepare, EncodeAll, EncodeHeader, HeaderOf, Filled, FitsNext, AllEncodable;
  }

  lemma FullHeaderInv(alls: seq<seq<Response>>, ks: seq<nat>, log: seq<Entry>, c: Client, i: nat, more: bool)
    requires AllStreams(alls) && Inv(alls, ks, log, c) && Enabled(c, HeaderRead(i, more))
    requires Due(alls[i], ks[i], c) && alls[i][ks[i]].value != []
    ensures Inv(alls, CountsNext(ks, HeaderRead(i, more)), LogNext(alls, ks, log, HeaderRead(i, more)),
                Step(c, HeaderRead(i, more)))
  {
    hide EncodeAll, EncodeHeader, HeaderOf, Delivered, Answers, Prepare, Issued, Step, Of, Expects, Same, Filled, Total,
         AllEncodable, BodiesIssued, ConnOk;
    var (all, k, p) := (alls[i], ks[i], alls[i][ks[i]]);
    assert ConnOk(all, k, c.conns[i], c.results);
    ConnAligned(all, k, c.conns[i], c.results);
    Parts(all, k);
    FullHeaderStep(all, k, c, i, more);
    FullHeaderOk(all, k, c, i, more);
    var (r, c') := (Filled(c.results[p.id], HeaderOf(EncodeHeader(p))), Step(c, HeaderRead(i, more)));
    FilledAnswers(c.results[p.id], p);
    SameOne(c.results, p.id, r);
    SameIssued(c.next, c.results, p.id, r);
    FilledDelivered(log, c.results, p.id, r);
    MovedInv(alls, ks, log, c, ks[i := k + 1], log, c', i);
  }

  lemma ConnAligned(all: seq<Response>, k: nat, conn: Conn, results: map<nat, Result>)
    requires AllEncodable(all) && ConnOk(all, k, conn, results)
    ensures Aligned(all, k, conn)
  {}

  lemma HeaderInv(alls: seq<seq<Response>>, ks: seq<nat>, log: seq<Entry>, c: Client, i: nat, more: bool)
    requires AllStreams(alls) && Inv(alls, ks, log, c) && Enabled(c, HeaderRead(i, more)) && Due(alls[i], ks[i], c)
    ensures Inv(alls, CountsNext(ks, HeaderRead(i, more)), LogNext(alls, ks, log, HeaderRead(i, more)),
                Step(c, HeaderRead(i, more)))
  {
    hide Step, Answers, ConnOk, Delivered, Merges, Issued, BodiesIssued, AllEncodable;
    if alls[i][ks[i]].value == [] {
      EmptyHeaderInv(alls, ks, log, c, i, more);
    } else {
      FullHeaderInv(alls, ks, log, c, i, more);
    }
  }

  lemma OneDelivered(log: seq<Entry>, results: map<nat, Result>, e: Entry)
    requires Delivered(log, results) && e.response.value != [] && e.response.id in results
    ensures var (id, r) := (e.response.id, results[e.response.id]);
            Delivered(log + [e], results[id := Stored(r, PiecesOf(r.kind, e.response))])
  {
    hide Held, PiecesOf;
    var (i, r) := (e.response.id, results[e.response.id]);
    var results' := results[i := Stored(r, PiecesOf(r.kind, e.response))];
    forall id | id in results'
      ensures results'[id].pieces == Held(results'[id].kind, id, log + [e])
    {
      HeldMore(results'[id].kind, id, log, e);
    }
  }

  // The state once the body of a response is in its result, before the request is looked up.
  function WithBody(c: Client, i: nat, p: Response, rest: seq<Byte>): Client
    requires i < |c.conns| && p.id in c.results
  {
    var r := c.results[p.id];
    WithConn(c, i, Conn(rest, None)).(results := c.results[p.id := Stored(r, PiecesOf(r.kind, p))])
  }

  // An awaited body can be read as soon as it has arrived, and it has.
  lemma BodyArrived(all: seq<Response>, k: nat, conn: Conn, results: map<nat, Result>)
    requires AllEncodable(all) && ConnOk(all, k, conn, results) && conn.awaiting.Some?
    ensures 0 < k <= |all| && all[k - 1].id in results && all[k - 1].value != [] && BodyReady(conn)
    ensures conn.awaiting.value.header == HeaderOf(EncodeHeader(all[k - 1]))
    ensures conn.awaiting.value.header.requestId == all[k - 1].id
    ensures conn.input[..Total(conn.awaiting.value.sizes)] == all[k - 1].Body()
    ensures conn.input[Total(conn.awaiting.value.sizes)..] == EncodeAll(all[k..])
    ensures Scatter(conn.awaiting.value.sizes, all[k - 1].Body()) == PiecesOf(results[all[k - 1].id].kind, all[k - 1])
  {
    var p := all[k - 1];
    BodyScatters(results[p.id].kind, results[p.id].buffer, p);
    ValueLenOf(p);
    hide EncodeAll, EncodeHeader, HeaderOf, Answers, Prepare, Scatter, PiecesOf, Total, AllEncodable, ValueLen;
    assert conn.input[..|p.Body()|] == p.Body() && conn.input[|p.Body()|..] == EncodeAll(all[k..]);
  }

  // Reading an awaited body stores its parts in its own result.
  lemma BodyStep(all: seq<Response>, k: nat, c: Client, i: nat, more: bool, p: Response)
    requires AllEncodable(all) && i < |c.conns| && ConnOk(all, k, c.conns[i], c.results)
    requires c.conns[i].awaiting.Some? && 0 < k <= |all| && p == all[k - 1] && p.id in c.results
    requires Enabled(c, BodyRead(i, more))
    ensures var c' := WithBody(c, i, p, EncodeAll(all[k..]));
            Step(c, BodyRead(i, more)) ==
            if Live(c', p.id) then FinishRequest(c', c.conns[i].awaiting.value.header, more) else c'
  {
    BodyArrived(all, k, c.conns[i], c.results);
    hide EncodeAll, EncodeHeader, HeaderOf, ConnOk, Scatter, PiecesOf, Stored, Total, AllEncodable;
  }

  lemma BodyInv(alls: seq<seq<Response>>, ks: seq<nat>, log: seq<Entry>, c: Client, i: nat, more: bool)
    requires AllStreams(alls) && Inv(alls, ks, log, c) && i < |c.conns| && c.conns[i].awaiting.Some?
    ensures Enabled(c, BodyRead(i, more))
    ensures Inv(alls, ks, LogNext(alls, ks, log, BodyRead(i, more)), Step(c, BodyRead(i, more)))
  {
    hide EncodeAll, EncodeHeader, HeaderOf, Delivered, Issued, Step, FinishRequest, Of, Same, Stored, PiecesOf, Scatter,
         Total, AllEncodable, ConnOk;
    var (all, k) := (alls[i], ks[i]);
    assert ConnOk(all, k, c.conns[i], c.results);
    BodyArrived(all, k, c.conns[i], c.results);
    var p := all[k - 1];
    BodyStep(all, k, c, i, more, p);
    Parts(all, k);
    var (c1, entry) := (WithBody(c, i, p, EncodeAll(all[k..])), Entry(i, p));
    FinishKeeps(c1, c.conns[i].awaiting.value.header, more);
    StoredShape(c.results[p.id], PiecesOf(c.results[p.id].kind, p));
    SameOne(c.results, p.id, c1.results[p.id]);
    SameIssued(c.next, c.results, p.id, c1.results[p.id]);
    OneDelivered(log, c.results, entry);
    forall j: nat
      ensures Of(log + [entry], j) == Of(log, j) + if j == i then [p] else []
    {
      OfMore(log, entry, j);
    }
    assert all[..k] == all[..k - 1] + [p];
    BoundaryOk(all, k, c1.results);
    MovedInv(alls, ks, log, c, ks, log + [entry], Step(c, BodyRead(i, more)), i);
  }

  lemma StoredShape(r: Result, pieces: seq<seq<Byte>>)
    ensures SameShape(r, Stored(r, pieces)) && Stored(r, pieces).kind == r.kind
  {}

  lemma BoundaryOk(all: seq<Response>, k: nat, results: map<nat, Result>)
    requires AllEncodable(all) && k <= |all|
    ensures ConnOk(all, k, Conn(EncodeAll(all[k..]), None), results)
  {}

  lemma StepInv(alls: seq<seq<Response>>, ks: seq<nat>, log: seq<Entry>, c: Client, e: Event)
    requires AllStreams(alls) && Inv(alls, ks, log, c) && Enabled(c, e)
    requires e.HeaderRead? ==> Due(alls[e.conn], ks[e.conn], c)
    ensures Inv(alls, CountsNext(ks, e), LogNext(alls, ks, log, e), Step(c, e))
  {
    hide Step, Due, ConnOk, Delivered, Merges, Issued, BodiesIssued, AllEncodable;
    match e
    case Issue(_, _) => IssueInv(alls, ks, log, c, e);
    case HeaderRead(i, more) => HeaderInv(alls, ks, log, c, i, more);
    case BodyRead(i, more) => BodyInv(alls, ks, log, c, i, more);
    case RunPosted => RunInv(alls, ks, log, c);
  }

  // ----- Whole runs -----

  function Inputs(alls: seq<seq<Response>>): seq<seq<Byte>>
    requires AllStreams(alls)
  {
    seq(|alls|, i requires 0 <= i < |alls| => EncodeAll(alls[i]))
  }

  // The headers read on every connection, and the responses handled on all of them.
  function Counts(events: seq<Event>, m: nat): seq<nat> {
    seq(m, i requires 0 <= i < m => HeadersRead(events, i))
  }

  function Log(alls: seq<seq<Response>>, events: seq<Event>): seq<Entry> {
    if events == [] then []
    else
      var (front, e) := (events[..|events| - 1], events[|events| - 1]);
      LogNext(alls, Counts(front, |alls|), Log(alls, front), e)
  }

  lemma RunNext(alls: seq<seq<Response>>, events: seq<Event>, n: nat)
    requires n < |events|
    ensures Counts(events[..n + 1], |alls|) == CountsNext(Counts(events[..n], |alls|), events[n])
    ensures Log(alls, events[..n + 1]) ==
            LogNext(alls, Counts(events[..n], |alls|), Log(alls, events[..n]), events[n])
  {
    hide LogNext, HeadersRead;
    var (ks, ks') := (Counts(events[..n], |alls|), Counts(events[..n + 1], |alls|));
    forall i | 0 <= i < |alls|
      ensures ks'[i] == CountsNext(ks, events[n])[i]
    {
      HeadersReadNext(events, n, i);
    }
    assert events[..n + 1][..n] == events[..n];
  }

  lemma StartInv(alls: seq<seq<Response>>)
    requires AllStreams(alls)
    ensures Inv(alls, Counts([], |alls|), [], Start(Inputs(alls)))
  {
    hide EncodeAll, AllEncodable;
    forall i | 0 <= i < |alls|
      ensures ConnOk(alls[i], 0, Conn(EncodeAll(alls[i]), None), map[])
    {
      assert alls[i][0..] == alls[i];
      BoundaryOk(alls[i], 0, map[]);
    }
    hide ConnOk;
  }

  // A run in which every response is due when its header is read: it fits the request that was
  // issued under its id, if that is live.
  ghost predicate IsDueRun(alls: seq<seq<Response>>, states: seq<Client>, events: seq<Event>) {
    && AllStreams(alls) && IsRun(Inputs(alls), states, events)
    && (forall n :: 0 <= n < |events| && events[n].HeaderRead? && events[n].conn < |alls| ==>
          var i := events[n].conn;
          DueIssued(Issues(events[..n]), alls[i], HeadersRead(events[..n], i), states[n]))
  }

  lemma DueInRun(alls: seq<seq<Response>>, states: seq<Client>, events: seq<Event>, n: nat)
    requires IsDueRun(alls, states, events) && n < |events| && events[n].HeaderRead? && events[n].conn < |alls|
    ensures Due(alls[events[n].conn], HeadersRead(events[..n], events[n].conn), states[n])
  {
    hide Due, DueIssued, Step, Enabled, AllEncodable;
    RunAsIssued(Inputs(alls), states, events, n);
    DueAsIssued(Issues(events[..n]), alls[events[n].conn], HeadersRead(events[..n], events[n].conn), states[n]);
  }

  lemma {:induction false} RunInv'(alls: seq<seq<Response>>, states: seq<Client>, events: seq<Event>, n: nat)
    requires IsDueRun(alls, states, events) && n < |states|
    ensures Inv(alls, Counts(events[..n], |alls|), Log(alls, events[..n]), states[n])
  {
    hide ConnOk, Delivered, Merges, Issued, BodiesIssued, AllEncodable, Step, Due, DueIssued, HeaderReady, BodyReady;
    if n == 0 {
      StartInv(alls);
      assert events[..0] == [];
    } else {
      RunInv'(alls, states, events, n - 1);
      RunNext(alls, events, n - 1);
      if events[n - 1].HeaderRead? {
        DueInRun(alls, states, events, n - 1);
      }
      StepInv(alls, Counts(events[..n - 1], |alls|), Log(alls, events[..n - 1]), states[n - 1], events[n - 1]);
    }
  }

  // In every state of every such run, on any number of connections and whatever the kinds of the
  // requests: each header read starts at a response boundary, what has been handled merges the
  // connections in their own orders, and the result of each issued request holds exactly the
  // values sent to it, taken apart as its kind says.
  lemma RunInvariant(alls: seq<seq<Response>>, states: seq<Client>, events: seq<Event>, n: nat)
    requires IsDueRun(alls, states, events) && n < |states|
    ensures var (c, log, issues) := (states[n], Log(alls, events[..n]), Issues(events[..n]));
            && Inv(alls, Counts(events[..n], |alls|), log, c) && AsIssued(issues, c)
            && forall id :: 0 <= id < |issues| ==>
                 issues[id].Issue? && id in c.results && c.results[id].pieces == Held(issues[id].kind, id, log)
  {
    RunInv'(alls, states, events, n);
    RunAsIssued(Inputs(alls), states, events, n);
    hide IsDueRun, ConnOk, Merges, Issued, BodiesIssued, AllEncodable, Step, Held;
    var (c, issues) := (states[n], Issues(events[..n]));
    forall id | 0 <= id < |issues|
      ensures issues[id].Issue? && id in c.results
      ensures c.results[id].pieces == Held(issues[id].kind, id, Log(alls, events[..n]))
    {
      assert ResultOf(issues[id], c.results[id]);
    }
  }

  // ----- Completions -----

  // The completions that the events of a run post: one for each response handled for a live
  // request, except for a Stat request whose flag was found set.
  ghost function Posts(alls: seq<seq<Response>>, states: seq<Client>, events: seq<Event>, n: nat): seq<Done>
    requires n <= |events| && n <= |states|
  {
    if n == 0 then []
    else
      Posts(alls, states, events, n - 1) +
      PostsOf(alls, Counts(events[..n - 1], |alls|), Issues(events[..n - 1]), states[n - 1], events[n - 1])
  }

  ghost function PostsOf(alls: seq<seq<Response>>, ks: seq<nat>, issues: seq<Event>, c: Client, e: Event): seq<Done>
    requires |ks| == |alls|
  {
    match e
    case HeaderRead(i, more) =>
      if i < |alls| && ks[i] < |alls[i]| && alls[i][ks[i]].value == [] then PostOf(issues, c, alls[i][ks[i]], more)
      else []
    case BodyRead(i, more) =>
      if i < |alls| && 0 < ks[i] <= |alls[i]| then PostOf(issues, c, alls[i][ks[i] - 1], more) else []
    case _ => []
  }

  ghost function PostOf(issues: seq<Event>, c: Client, p: Response, more: bool): seq<Done> {
    if p.id !in c.requests || p.id >= |issues| || !issues[p.id].Issue? || (issues[p.id].kind == StatKind && more)
    then []
    else [Done(p.id, p.status)]
  }

  lemma FinishPosts(issues: seq<Event>, c: Client, h: Header, p: Response, more: bool)
    requires ResultsOf(issues, c.results) && h.requestId == p.id && h.status == p.status && p.id in c.results
    requires Live(c, p.id)
    ensures FinishRequest(c, h, more).posted == c.posted + PostOf(issues, c, p, more)
    ensures FinishRequest(c, h, more).notified == c.notified
  {
    assert ResultOf(issues[p.id], c.results[p.id]);
  }

  ghost predicate Ledger(c: Client, c': Client, posts: seq<Done>) {
    c'.notified + c'.posted == c.notified + c.posted + posts
  }

  lemma HeaderPosts(alls: seq<seq<Response>>, ks: seq<nat>, log: seq<Entry>, issues: seq<Event>, c: Client, i: nat,
                    more: bool)
    requires AllStreams(alls) && Inv(alls, ks, log, c) && AsIssued(issues, c) && Enabled(c, HeaderRead(i, more))
    requires Due(alls[i], ks[i], c)
    ensures Ledger(c, Step(c, HeaderRead(i, more)), PostsOf(alls, ks, issues, c, HeaderRead(i, more)))
  {
    hide Step, Aligned, Answers, EncodeAll, EncodeHeader, HeaderOf, Prepare, Filled, Delivered, Merges, Expects,
         BodiesIssued, ValueLen, FinishRequest, PostOf, ResultsOf, AllEncodable;
    var (all, k) := (alls[i], ks[i]);
    assert ConnOk(all, k, c.conns[i], c.results);
    var p := all[k];
    Parts(all, k);
    ValueLenOf(p);
    if p.value == [] {
      EmptyHeaderStep(all, k, c, i, more);
      var c1 := WithConn(c, i, Conn(EncodeAll(all[k + 1..]), None));
      if Live(c, p.id) {
        FinishPosts(issues, c1, HeaderOf(EncodeHeader(p)), p, more);
        PostOfSame(issues, c1, c, p, more);
      } else {
        NotLivePosts(issues, c, p, more);
      }
    } else {
      FullHeaderStep(all, k, c, i, more);
    }
  }

  lemma PostOfSame(issues: seq<Event>, c: Client, c': Client, p: Response, more: bool)
    requires c.requests == c'.requests
    ensures PostOf(issues, c, p, more) == PostOf(issues, c', p, more)
  {}

  lemma NotLivePosts(issues: seq<Event>, c: Client, p: Response, more: bool)
    requires AsIssued(issues, c) && !Live(c, p.id)
    ensures PostOf(issues, c, p, more) == []
  {}

  lemma BodyPosts(alls: seq<seq<Response>>, ks: seq<nat>, log: seq<Entry>, issues: seq<Event>, c: Client, i: nat,
                  more: bool)
    requires AllStreams(alls) && Inv(alls, ks, log, c) && AsIssued(issues, c) && Enabled(c, BodyRead(i, more))
    ensures Ledger(c, Step(c, BodyRead(i, more)), PostsOf(alls, ks, issues, c, BodyRead(i, more)))
  {
    hide Step, EncodeAll, EncodeHeader, HeaderOf, Delivered, Merges, BodiesIssued, ValueLen, FinishRequest, PostOf,
         ResultsOf, AllEncodable, ConnOk, Stored, PiecesOf, Scatter, Total;
    var (all, k) := (alls[i], ks[i]);
    assert ConnOk(all, k, c.conns[i], c.results);
    BodyArrived(all, k, c.conns[i], c.results);
    var p := all[k - 1];
    Parts(all, k - 1);
    ValueLenOf(p);
    BodyStep(all, k, c, i, more, p);
    var c1 := WithBody(c, i, p, EncodeAll(all[k..]));
    StoredKeeps(c.results[p.id], PiecesOf(c.results[p.id].kind, p));
    ResultsKept(issues, c.results, p.id, c1.results[p.id]);
    if Live(c1, p.id) {
      FinishPosts(issues, c1, c.conns[i].awaiting.value.header, p, more);
      PostOfSame(issues, c1, c, p, more);
    } else {
      NotLivePosts(issues, c, p, more);
    }
  }

  lemma StoredKeeps(r: Result, pieces: seq<seq<Byte>>)
    ensures Stored(r, pieces).kind == r.kind && Stored(r, pieces).buffer == r.buffer
  {}

  lemma RunLedger(c: Client)
    requires Enabled(c, RunPosted)
    ensures Ledger(c, Step(c, RunPosted), [])
  {
    var c' := Step(c, RunPosted);
    assert c.notified + c.posted == c'.notified + c'.posted;
  }

  // In every state of every run with due responses, Stat and repeated ids included, exactly these
  // completions have been posted, in this order, and those run so far are in front.
  lemma {:induction false} CompletionLedger(alls: seq<seq<Response>>, states: seq<Client>, events: seq<Event>, n: nat)
    requires IsDueRun(alls, states, events) && n < |states|
    ensures states[n].notified + states[n].posted == Posts(alls, states, events, n)
  {
    hide Inv, AllEncodable, Step, Due, DueIssued, HeaderReady, BodyReady, PostsOf, ResultsOf;
    if n > 0 {
      CompletionLedger(alls, states, events, n - 1);
      RunInvariant(alls, states, events, n - 1);
      var (c, e) := (states[n - 1], events[n - 1]);
      var (ks, log, issues) := (Counts(events[..n - 1], |alls|), Log(alls, events[..n - 1]), Issues(events[..n - 1]));
      StepLedger(alls, states, events, ks, log, issues, n - 1);
    }
  }

  lemma StepLedger(alls: seq<seq<Response>>, states: seq<Client>, events: seq<Event>, ks: seq<nat>, log: seq<Entry>,
                   issues: seq<Event>, n: nat)
    requires IsDueRun(alls, states, events) && n < |events| && ks == Counts(events[..n], |alls|)
    requires Inv(alls, ks, log, states[n]) && AsIssued(issues, states[n])
    ensures Ledger(states[n], states[n + 1], PostsOf(alls, ks, issues, states[n], events[n]))
  {
    hide ConnOk, Delivered, Merges, Issued, BodiesIssued, AllEncodable, Due, DueIssued, HeaderReady, BodyReady, PostOf,
         ResultsOf, Ledger, OnHeader, OnBody;
    match events[n]
    case Issue(_, _) => IssueLedger(states[n], events[n]);
    case HeaderRead(i, more) =>
      DueInRun(alls, states, events, n);
      HeaderPosts(alls, ks, log, issues, states[n], i, more);
    case BodyRead(i, more) => BodyPosts(alls, ks, log, issues, states[n], i, more);
    case RunPosted => RunLedger(states[n]);
  }

  lemma IssueLedger(c: Client, e: Event)
    requires e.Issue? && Enabled(c, e)
    ensures Ledger(c, Step(c, e), [])
  {}
}
