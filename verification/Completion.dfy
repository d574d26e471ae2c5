/**
 Completion of requests (memcachedClient/MemcachedClient.cpp FinishRequest): a posted handler
 keeps an iterator into mRequests, so it must run before anything else erases that entry.
 When every handler finds its entry is decided exactly, on arbitrary input; then what is
 completed is given for responses with distinct ids.
 */
module Completion {
  import opened Collections
  import opened Words
  import opened Framing
  import opened Requests
  import opened Delivery

  // ----- When every posted handler finds its request -----

  ghost predicate IsPosted(posted: seq<Done>, id: nat) {
    exists a :: 0 <= a < |posted| && posted[a].id == id
  }

  // The posted handlers are for different requests, all of them live.
  ghost predicate PostedOk(c: Client) {
    && (forall a :: 0 <= a < |c.posted| ==> c.posted[a].id in c.requests)
    && (forall a, b :: 0 <= a < b < |c.posted| ==> c.posted[a].id != c.posted[b].id)
  }

  // Each posted handler finds its request when the handlers are run one after the other.
  ghost predicate DrainSafe(c: Client)
    decreases |c.posted|
  {
    c.posted == [] || (c.posted[0].id in c.requests && DrainSafe(Step(c, RunPosted)))
  }

  lemma {:induction false} DrainExactly(c: Client)
    ensures DrainSafe(c) <==> PostedOk(c)
    decreases |c.posted|
  {
    if c.posted != [] {
      var c' := Step(c, RunPosted);
      DrainExactly(c');
      if PostedOk(c) {
        assert forall a :: 0 <= a < |c'.posted| ==> c'.posted[a] == c.posted[a + 1];
      }
      if DrainSafe(c) {
        forall a | 0 <= a < |c.posted|
          ensures c.posted[a].id in c.requests && (a > 0 ==> c.posted[a].id != c.posted[0].id)
        {
          assert a > 0 ==> c.posted[a] == c'.posted[a - 1];
        }
        forall a, b | 0 <= a < b < |c.posted|
          ensures c.posted[a].id != c.posted[b].id
        {
          assert a > 0 ==> c.posted[a] == c'.posted[a - 1] && c.posted[b] == c'.posted[b - 1];
        }
      }
    }
  }

  // The header or body being read finishes a live request whose handler is already posted.
  ghost predicate FinishesAgain(c: Client, e: Event)
    requires Enabled(c, e)
  {
    match e
    case HeaderRead(i, more) =>
      var h := HeaderOf(c.conns[i].input[..HEADER_LENGTH]);
      ValueLen(h) == 0 && Live(c, h.requestId) && !HasMore(c, h.requestId, more) && IsPosted(c.posted, h.requestId)
    case BodyRead(i, more) =>
      var id := c.conns[i].awaiting.value.header.requestId;
      Live(c, id) && !HasMore(c, id, more) && IsPosted(c.posted, id)
    case _ => false
  }

  lemma FinishSafe(c: Client, h: Header, more: bool)
    requires PostedOk(c) && Live(c, h.requestId)
    ensures PostedOk(FinishRequest(c, h, more)) <==> HasMore(c, h.requestId, more) || !IsPosted(c.posted, h.requestId)
  {
    var c' := FinishRequest(c, h, more);
    if !HasMore(c, h.requestId, more) {
      assert c'.posted[|c.posted|].id == h.requestId;
      assert forall a :: 0 <= a < |c.posted| ==> c'.posted[a] == c.posted[a];
    }
  }

  lemma RunSafe(c: Client)
    requires PostedOk(c) && c.posted != []
    ensures PostedOk(Step(c, RunPosted))
  {
    var c' := Step(c, RunPosted);
    assert forall a :: 0 <= a < |c'.posted| ==> c'.posted[a] == c.posted[a + 1];
  }

  lemma StepSafe(c: Client, e: Event)
    requires PostedOk(c) && Enabled(c, e)
    ensures PostedOk(Step(c, e)) <==> !FinishesAgain(c, e)
  {
    hide HeaderOf, ValueLen, Prepare, Filled, Stored, Scatter, Total, FinishRequest;
    match e
    case Issue(_, _) =>
    case HeaderRead(i, more) =>
      var input := c.conns[i].input;
      var (c1, h) := (WithConn(c, i, Conn(input[HEADER_LENGTH..], None)), HeaderOf(input[..HEADER_LENGTH]));
      if Live(c1, h.requestId) {
        FinishSafe(c1, h, more);
      }
    case BodyRead(i, more) =>
      var (input, a) := (c.conns[i].input, c.conns[i].awaiting.value);
      var (n, h) := (Total(a.sizes), a.header);
      if h.requestId in c.results {
        var pieces := Scatter(a.sizes, input[..n]);
        var r := Stored(c.results[h.requestId], pieces);
        var c1 := WithConn(c, i, Conn(input[n..], None)).(results := c.results[h.requestId := r]);
        StoredShape(c.results[h.requestId], pieces);
        if Live(c1, h.requestId) {
          FinishSafe(c1, h, more);
        }
      }
    case RunPosted => RunSafe(c);
  }

  lemma {:induction false} SafeUpTo(inputs: seq<seq<Byte>>, states: seq<Client>, events: seq<Event>, i: nat)
    requires IsRun(inputs, states, events) && i < |states|
    requires forall j :: 0 <= j < i ==> !FinishesAgain(states[j], events[j])
    ensures PostedOk(states[i])
  {
    hide Step, FinishesAgain, Enabled;
    if i > 0 {
      SafeUpTo(inputs, states, events, i - 1);
      StepSafe(states[i - 1], events[i - 1]);
    }
  }

  // On any number of connections and any input: in all states of a run every posted handler will
  // find its request if and only if no response, on whatever connection, finishes a request whose
  // handler is waiting to run.
  lemma SafeExactly(inputs: seq<seq<Byte>>, states: seq<Client>, events: seq<Event>)
    requires IsRun(inputs, states, events)
    ensures (forall i :: 0 <= i < |states| ==> DrainSafe(states[i])) <==>
            (forall i :: 0 <= i < |events| ==> !FinishesAgain(states[i], events[i]))
  {
    hide Step, FinishesAgain, Enabled, DrainSafe, PostedOk;
    forall i | 0 <= i < |states|
      ensures DrainSafe(states[i]) <==> PostedOk(states[i])
    {
      DrainExactly(states[i]);
    }
    if forall i :: 0 <= i < |events| ==> !FinishesAgain(states[i], events[i]) {
      forall i | 0 <= i < |states|
        ensures PostedOk(states[i])
      {
        SafeUpTo(inputs, states, events, i);
      }
    }
    if forall i :: 0 <= i < |states| ==> PostedOk(states[i]) {
      forall i | 0 <= i < |events|
        ensures !FinishesAgain(states[i], events[i])
      {
        StepSafe(states[i], events[i]);
        assert PostedOk(states[i + 1]);
      }
    }
  }

  // Two responses with one id, on one connection or on two, the second read before the first
  // handler has run: the second handler finds its request erased.
  lemma DuplicateResponse(c: Client, i: nat, j: nat, h: Header, h': Header)
    requires i < |c.conns| && j < |c.conns|
    requires c.posted == [] && h.requestId == h'.requestId && Live(c, h.requestId)
    requires ValueLen(h) == 0 && ValueLen(h') == 0
    ensures |OnHeader(c, i, h, false).conns| == |c.conns|
    ensures var c' := Step(OnHeader(OnHeader(c, i, h, false), j, h', false), RunPosted);
            c'.posted != [] && c'.posted[0].id !in c'.requests
  {
    var c2 := OnHeader(OnHeader(c, i, h, false), j, h', false);
    assert c2.posted == [Done(h.requestId, h.status), Done(h'.requestId, h'.status)];
  }

  // ----- What is completed -----

  function Completions(log: seq<Entry>): seq<Done> {
    seq(|log|, j requires 0 <= j < |log| => Done(log[j].response.id, log[j].response.status))
  }

  ghost predicate Notified(notified: seq<Done>, id: int) {
    exists i :: 0 <= i < |notified| && notified[i].id == id
  }

  // The live requests are the issued ones that have not been notified.
  ghost predicate Pending(next: nat, requests: set<nat>, notified: seq<Done>) {
    forall id :: id in requests <==> 0 <= id < next && !Notified(notified, id)
  }

  // At most one response for each id, on all connections together.
  ghost predicate Distinct(alls: seq<seq<Response>>) {
    forall i, a, j, b :: 0 <= i < |alls| && 0 <= a < |alls[i]| && 0 <= j < |alls| && 0 <= b < |alls[j]| ==>
      alls[i][a].id == alls[j][b].id ==> i == j && a == b
  }

  ghost predicate NoStat(results: map<nat, Result>) {
    forall id :: id in results ==> results[id].kind != StatKind
  }

  // The responses handled so far were for issued requests.
  ghost predicate AllIssued(log: seq<Entry>, next: nat) {
    forall j :: 0 <= j < |log| ==> log[j].response.id < next
  }

  ghost predicate NoTwice(done: seq<Done>) {
    forall a, b :: 0 <= a < b < |done| ==> done[a].id != done[b].id
  }

  // Completions are one for each handled response, in the order of handling and with its status.
  ghost predicate Completed(alls: seq<seq<Response>>, ks: seq<nat>, log: seq<Entry>, c: Client)
    requires AllStreams(alls)
  {
    && Inv(alls, ks, log, c) && Distinct(alls) && NoStat(c.results) && Pending(c.next, c.requests, c.notified)
    && AllIssued(log, c.next)
    && c.notified + c.posted == Completions(log) && NoTwice(c.notified + c.posted)
  }

  // A due response to an issued request.
  ghost predicate DueToIssued(all: seq<Response>, k: nat, c: Client) {
    Due(all, k, c) && all[k].id in c.results
  }

  lemma NotifiedMore(notified: seq<Done>, d: Done, id: int)
    ensures Notified(notified + [d], id) <==> Notified(notified, id) || id == d.id
  {
    if Notified(notified, id) {
      var i :| 0 <= i < |notified| && notified[i].id == id;
      assert (notified + [d])[i].id == id;
    }
    assert (notified + [d])[|notified|] == d;
  }

  // Every entry of a log is among the responses of its connection.
  lemma {:induction false} OfMember(log: seq<Entry>, j: nat) returns (b: nat)
    requires j < |log|
    ensures b < |Of(log, log[j].conn)| && Of(log, log[j].conn)[b] == log[j].response
  {
    var n := |log| - 1;
    if j == n {
      b := |Of(log[..n], log[j].conn)|;
    } else {
      b := OfMember(log[..n], j);
    }
  }

  // A response not handled yet is not in the log.
  lemma NotLogged(alls: seq<seq<Response>>, ks: seq<nat>, log: seq<Entry>, conns: seq<Conn>, i: nat, k: nat)
    requires |ks| == |alls| == |conns| && Merges(alls, ks, conns, log) && Distinct(alls) && i < |alls|
    requires |Handled(alls[i], ks[i], conns[i])| <= k < |alls[i]|
    ensures forall j :: 0 <= j < |log| ==> log[j].response.id != alls[i][k].id
  {
    hide Of;
    forall j | 0 <= j < |log|
      ensures log[j].response.id != alls[i][k].id
    {
      var b := OfMember(log, j);
      var m := log[j].conn;
      assert Of(log, m) == Handled(alls[m], ks[m], conns[m]);
      assert alls[m][b] == log[j].response;
    }
  }

  // A response not handled yet has no completion.
  lemma NotYet(log: seq<Entry>, id: nat, notified: seq<Done>, posted: seq<Done>)
    requires notified + posted == Completions(log) && forall j :: 0 <= j < |log| ==> log[j].response.id != id
    ensures !Notified(notified, id) && !IsPosted(posted, id)
  {
    var done := notified + posted;
    assert forall j :: 0 <= j < |done| ==> done[j].id == log[j].response.id;
    assert forall j :: 0 <= j < |notified| ==> done[j] == notified[j];
    assert forall j :: 0 <= j < |posted| ==> done[|notified| + j] == posted[j];
  }

  // One more completion in order.
  lemma DoneGrows(log: seq<Entry>, e: Entry, notified: seq<Done>, posted: seq<Done>)
    requires notified + posted == Completions(log) && NoTwice(notified + posted)
    requires forall j :: 0 <= j < |log| ==> log[j].response.id != e.response.id
    ensures var done := notified + (posted + [Done(e.response.id, e.response.status)]);
            done == Completions(log + [e]) && NoTwice(done)
  {
    var d := Done(e.response.id, e.response.status);
    assert Completions(log + [e]) == Completions(log) + [d];
    assert notified + (posted + [d]) == (notified + posted) + [d];
  }

  lemma SameDone(c: Client, h: Header, p: Response, more: bool)
    requires NoStat(c.results) && h.requestId == p.id && h.status == p.status && p.id in c.results
    ensures FinishRequest(c, h, more) == c.(posted := c.posted + [Done(p.id, p.status)])
  {}

  lemma PendingLive(c: Client, id: nat)
    requires Issued(c.next, c.results) && Pending(c.next, c.requests, c.notified)
    requires id in c.results && !Notified(c.notified, id)
    ensures Live(c, id)
  {
    hide Notified;
  }

  lemma NoStatAfter(results: map<nat, Result>, id: nat, r: Result)
    requires NoStat(results) && r.kind != StatKind
    ensures NoStat(results[id := r])
  {}

  // A header without a body completes its request, if it is the response awaited.
  lemma EmptyHeaderCompleted(alls: seq<seq<Response>>, ks: seq<nat>, log: seq<Entry>, c: Client, i: nat, more: bool)
    requires AllStreams(alls) && Completed(alls, ks, log, c) && Enabled(c, HeaderRead(i, more))
    requires DueToIssued(alls[i], ks[i], c) && alls[i][ks[i]].value == []
    ensures Completed(alls, CountsNext(ks, HeaderRead(i, more)), LogNext(alls, ks, log, HeaderRead(i, more)),
                      Step(c, HeaderRead(i, more)))
    ensures !FinishesAgain(c, HeaderRead(i, more))
  {
    hide EncodeAll, EncodeHeader, HeaderOf, ValueLen, Delivered, Answers, Issued, BodiesIssued, Step, Pending, Notified,
         IsPosted, Completions, NoTwice, Distinct, AllEncodable, FinishRequest, NoStat, Merges, Expects, Total;
    var (all, k, p) := (alls[i], ks[i], alls[i][ks[i]]);
    HeaderInv(alls, ks, log, c, i, more);
    HeaderAt(all, k, c.conns[i]);
    Parts(all, k);
    ValueLenOf(p);
    EmptyHeaderStep(all, k, c, i, more);
    Bounds(all, k, c.conns[i]);
    NotLogged(alls, ks, log, c.conns, i, k);
    NotYet(log, p.id, c.notified, c.posted);
    PendingLive(c, p.id);
    DoneGrows(log, Entry(i, p), c.notified, c.posted);
    SameDone(WithConn(c, i, Conn(EncodeAll(all[k + 1..]), None)), HeaderOf(EncodeHeader(p)), p, more);
    IssuedIn(c.next, c.results, p.id);
  }

  lemma IssuedIn(next: nat, results: map<nat, Result>, id: nat)
    requires Issued(next, results) && id in results
    ensures id < next
  {}

  // A header with a body completes nothing yet.
  lemma FullHeaderCompleted(alls: seq<seq<Response>>, ks: seq<nat>, log: seq<Entry>, c: Client, i: nat, more: bool)
    requires AllStreams(alls) && Completed(alls, ks, log, c) && Enabled(c, HeaderRead(i, more))
    requires DueToIssued(alls[i], ks[i], c) && alls[i][ks[i]].value != []
    ensures Completed(alls, CountsNext(ks, HeaderRead(i, more)), LogNext(alls, ks, log, HeaderRead(i, more)),
                      Step(c, HeaderRead(i, more)))
    ensures !FinishesAgain(c, HeaderRead(i, more))
  {
    hide EncodeAll, EncodeHeader, HeaderOf, ValueLen, Delivered, Answers, Issued, BodiesIssued, Step, Pending, Notified,
         IsPosted, Completions, NoTwice, Distinct, AllEncodable, Filled, NoStat, Merges, Expects, Total, Prepare;
    var (all, k, p) := (alls[i], ks[i], alls[i][ks[i]]);
    HeaderInv(alls, ks, log, c, i, more);
    HeaderAt(all, k, c.conns[i]);
    Parts(all, k);
    ValueLenOf(p);
    FullHeaderStep(all, k, c, i, more);
    FilledAnswers(c.results[p.id], p);
    KindOf(c.results, p.id);
    NoStatAfter(c.results, p.id, Filled(c.results[p.id], HeaderOf(EncodeHeader(p))));
  }

  lemma KindOf(results: map<nat, Result>, id: nat)
    requires NoStat(results) && id in results
    ensures results[id].kind != StatKind
  {}

  lemma BodyCompleted(alls: seq<seq<Response>>, ks: seq<nat>, log: seq<Entry>, c: Client, i: nat, more: bool)
    requires AllStreams(alls) && Completed(alls, ks, log, c) && Enabled(c, BodyRead(i, more))
    ensures Completed(alls, ks, LogNext(alls, ks, log, BodyRead(i, more)), Step(c, BodyRead(i, more)))
    ensures !FinishesAgain(c, BodyRead(i, more))
  {
    hide EncodeAll, EncodeHeader, HeaderOf, ValueLen, Delivered, Answers, Issued, BodiesIssued, Step, Pending, Notified,
         IsPosted, Completions, NoTwice, Distinct, AllEncodable, FinishRequest, Stored, PiecesOf, Scatter, NoStat,
         Merges, ConnOk, Total;
    var (all, k) := (alls[i], ks[i]);
    assert ConnOk(all, k, c.conns[i], c.results);
    BodyInv(alls, ks, log, c, i, more);
    BodyArrived(all, k, c.conns[i], c.results);
    var p := all[k - 1];
    Parts(all, k);
    Parts(all, k - 1);
    ValueLenOf(p);
    BodyStep(all, k, c, i, more, p);
    ConnAligned(all, k, c.conns[i], c.results);
    Bounds(all, k, c.conns[i]);
    NotLogged(alls, ks, log, c.conns, i, k - 1);
    NotYet(log, p.id, c.notified, c.posted);
    PendingLive(c, p.id);
    DoneGrows(log, Entry(i, p), c.notified, c.posted);
    KindOf(c.results, p.id);
    StoredShape(c.results[p.id], PiecesOf(c.results[p.id].kind, p));
    var c1 := WithBody(c, i, p, EncodeAll(all[k..]));
    NoStatAfter(c.results, p.id, c1.results[p.id]);
    SameDone(c1, c.conns[i].awaiting.value.header, p, more);
    IssuedIn(c.next, c.results, p.id);
  }

  lemma RunCompleted(alls: seq<seq<Response>>, ks: seq<nat>, log: seq<Entry>, c: Client)
    requires AllStreams(alls) && Completed(alls, ks, log, c) && Enabled(c, RunPosted)
    ensures Completed(alls, ks, log, Step(c, RunPosted))
  {
    hide Inv, Completions, Distinct, AllEncodable, Pending, NoStat, AllIssued, NoTwice;
    RunInv(alls, ks, log, c);
    PendingLess(c.next, c.requests, c.notified, c.posted[0]);
    var c' := Step(c, RunPosted);
    assert c'.notified + c'.posted == c.notified + c.posted;
  }

  lemma PendingMore(next: nat, requests: set<nat>, notified: seq<Done>)
    requires Pending(next, requests, notified) && !Notified(notified, next)
    ensures Pending(next + 1, requests + {next}, notified)
  {
    hide Notified;
  }

  lemma PendingLess(next: nat, requests: set<nat>, notified: seq<Done>, d: Done)
    requires Pending(next, requests, notified)
    ensures Pending(next, requests - {d.id}, notified + [d])
  {
    hide Notified;
    forall id: int
      ensures Notified(notified + [d], id) <==> Notified(notified, id) || id == d.id
    {
      NotifiedMore(notified, d, id);
    }
  }

  lemma NotifiedIssued(log: seq<Entry>, notified: seq<Done>, posted: seq<Done>, next: nat)
    requires AllIssued(log, next) && notified + posted == Completions(log)
    ensures !Notified(notified, next)
  {
    var done := notified + posted;
    assert forall j :: 0 <= j < |notified| ==> done[j] == notified[j] && done[j].id == log[j].response.id;
  }

  lemma IssueCompleted(alls: seq<seq<Response>>, ks: seq<nat>, log: seq<Entry>, c: Client, e: Event)
    requires AllStreams(alls) && Completed(alls, ks, log, c) && e.Issue? && e.kind != StatKind && Enabled(c, e)
    ensures Completed(alls, ks, log, Step(c, e))
  {
    hide Inv, Completions, Distinct, AllEncodable, Pending, NoTwice, NoStat;
    IssueInv(alls, ks, log, c, e);
    NotifiedIssued(log, c.notified, c.posted, c.next);
    PendingMore(c.next, c.requests, c.notified);
    NoStatAfter(c.results, c.next, Result(e.kind, e.buffer, []));
  }

  lemma StepCompleted(alls: seq<seq<Response>>, ks: seq<nat>, log: seq<Entry>, c: Client, e: Event)
    requires AllStreams(alls) && Completed(alls, ks, log, c) && Enabled(c, e)
    requires e.Issue? ==> e.kind != StatKind
    requires e.HeaderRead? ==> DueToIssued(alls[e.conn], ks[e.conn], c)
    ensures Completed(alls, CountsNext(ks, e), LogNext(alls, ks, log, e), Step(c, e)) && !FinishesAgain(c, e)
  {
    hide ConnOk, Delivered, Merges, Issued, BodiesIssued, AllEncodable, Distinct, NoStat, Pending, AllIssued,
         Completions, NoTwice, Step, Answers;
    match e
    case Issue(_, _) => IssueCompleted(alls, ks, log, c, e);
    case HeaderRead(i, more) =>
      if alls[i][ks[i]].value == [] {
        EmptyHeaderCompleted(alls, ks, log, c, i, more);
      } else {
        FullHeaderCompleted(alls, ks, log, c, i, more);
      }
    case BodyRead(i, more) => BodyCompleted(alls, ks, log, c, i, more);
    case RunPosted => RunCompleted(alls, ks, log, c);
  }

  // A run without Stat requests, on any number of connections, in which each response is for a
  // request issued before its header is read, fits it, and is the only one with its id on all
  // connections.
  ghost predicate IsScript(alls: seq<seq<Response>>, states: seq<Client>, events: seq<Event>) {
    && Distinct(alls) && AllStreams(alls) && IsRun(Inputs(alls), states, events)
    && (forall n :: 0 <= n < |events| && events[n].Issue? ==> events[n].kind != StatKind)
    && (forall n :: 0 <= n < |events| && events[n].HeaderRead? && events[n].conn < |alls| ==>
          var i := events[n].conn;
          DueAndIssued(Issues(events[..n]), alls[i], HeadersRead(events[..n], i), states[n]))
  }

  // The response is due, for a request that the events have issued.
  ghost predicate DueAndIssued(issues: seq<Event>, all: seq<Response>, k: nat, c: Client) {
    DueIssued(issues, all, k, c) && all[k].id < |issues|
  }

  lemma ScriptDue(alls: seq<seq<Response>>, states: seq<Client>, events: seq<Event>, n: nat)
    requires IsScript(alls, states, events) && n < |events| && events[n].HeaderRead? && events[n].conn < |alls|
    ensures DueToIssued(alls[events[n].conn], HeadersRead(events[..n], events[n].conn), states[n])
  {
    hide Answers, Step, Enabled, AllEncodable, Distinct, HeadersRead;
    var i := events[n].conn;
    RunAsIssued(Inputs(alls), states, events, n);
    DueAsIssued(Issues(events[..n]), alls[i], HeadersRead(events[..n], i), states[n]);
    assert DueAndIssued(Issues(events[..n]), alls[i], HeadersRead(events[..n], i), states[n]);
  }

  lemma StartCompleted(alls: seq<seq<Response>>)
    requires AllStreams(alls) && Distinct(alls)
    ensures Completed(alls, Counts([], |alls|), [], Start(Inputs(alls)))
  {
    hide Inv, Distinct, AllEncodable;
    StartInv(alls);
  }

  // One step of a run, with the counts and the log of the events before it.
  lemma ScriptStep(alls: seq<seq<Response>>, states: seq<Client>, events: seq<Event>, n: nat)
    requires IsScript(alls, states, events) && n < |events|
    requires Completed(alls, Counts(events[..n], |alls|), Log(alls, events[..n]), states[n])
    ensures !FinishesAgain(states[n], events[n])
    ensures Completed(alls, Counts(events[..n + 1], |alls|), Log(alls, events[..n + 1]), states[n + 1])
  {
    hide ConnOk, Delivered, Merges, Issued, BodiesIssued, AllEncodable, Distinct, NoStat, Pending, AllIssued,
         Completions, NoTwice, Step, DueToIssued, DueAndIssued, HeaderReady, BodyReady, FinishesAgain, HeadersRead;
    RunNext(alls, events, n);
    if events[n].HeaderRead? {
      ScriptDue(alls, states, events, n);
    }
    StepCompleted(alls, Counts(events[..n], |alls|), Log(alls, events[..n]), states[n], events[n]);
  }

  lemma {:induction false} ScriptCompleted(alls: seq<seq<Response>>, states: seq<Client>, events: seq<Event>, n: nat)
    requires IsScript(alls, states, events) && n < |states|
    ensures Completed(alls, Counts(events[..n], |alls|), Log(alls, events[..n]), states[n])
    ensures n < |events| ==> !FinishesAgain(states[n], events[n])
  {
    hide Completed, Step, DueAndIssued, Enabled, FinishesAgain, Distinct;
    if n == 0 {
      StartCompleted(alls);
      assert events[..0] == [];
    } else {
      ScriptCompleted(alls, states, events, n - 1);
      ScriptStep(alls, states, events, n - 1);
    }
    if n < |events| {
      ScriptStep(alls, states, events, n);
    }
  }

  // In every state of such a run every posted handler will find its request; the completions are
  // those of the handled responses, each with its status, merged from the connections in the order
  // of each connection; and the live requests are those issued and not yet notified.
  lemma CompletionSafety(alls: seq<seq<Response>>, states: seq<Client>, events: seq<Event>, n: nat)
    requires IsScript(alls, states, events) && n < |states|
    ensures var (c, log) := (states[n], Log(alls, events[..n]));
            && DrainSafe(c) && PostedOk(c)
            && c.notified + c.posted == Completions(log)
            && (forall j :: 0 <= j < |log| ==> log[j].conn < |alls|)
            && (forall i :: 0 <= i < |alls| ==>
                  Of(log, i) == Handled(alls[i], HeadersRead(events[..n], i), Reader(c, i)))
            && Pending(c.next, c.requests, c.notified)
  {
    ScriptCompleted(alls, states, events, n);
    hide Step, Due, DueAndIssued, Enabled, FinishesAgain, DrainSafe, PostedOk, Completions, Pending, ConnOk, Delivered,
         Issued, BodiesIssued, NoStat, AllIssued, NoTwice, Distinct, AllEncodable, Of, Handled;
    forall m | 0 <= m < |events|
      ensures !FinishesAgain(states[m], events[m])
    {
      ScriptCompleted(alls, states, events, m);
    }
    SafeExactly(Inputs(alls), states, events);
    DrainExactly(states[n]);
  }

  // In no state of such a run has a request been notified or posted twice.
  lemma NoSecondCompletion(alls: seq<seq<Response>>, states: seq<Client>, events: seq<Event>, n: nat)
    requires IsScript(alls, states, events) && n < |states|
    ensures NoTwice(states[n].notified + states[n].posted)
  {
    ScriptCompleted(alls, states, events, n);
  }
}
