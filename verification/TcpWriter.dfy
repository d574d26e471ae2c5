/**
 The double-buffered writer of a connection (network/TcpClient.cpp, the three Send functions).

 One io thread runs the posted handlers in the order of posting and the completions of
 writes; a run is a sequence of such events.  The socket is the list of writes handed to
 asio and the bytes that have gone out.
 */
module TcpWriter {
  import opened Collections

  type Buffer = seq<int>

  // What one call of Send submits: one buffer, or the parts of a vectored request.
  type Submission = seq<Buffer>

  datatype Writer = Writer(pending: seq<Buffer>, writing: seq<Buffer>, inFlight: seq<seq<Buffer>>,
                           sent: seq<int>, open: bool)

  const FRESH: Writer := Writer([], [], [], [], true)

  datatype Event = Submit(submission: Submission) | Written | WriteFailed(bytes: nat)

  function Join<T>(parts: seq<seq<T>>): seq<T> {
    if parts == [] then [] else parts[0] + Join(parts[1..])
  }

  function Bytes(buffers: seq<Buffer>): seq<int> {
    Join(buffers)
  }

  // Send(): the vectors are swapped and the new write buffers are handed to asio.
  function StartWrite(w: Writer): Writer {
    w.(writing := w.pending, pending := w.writing, inFlight := w.inFlight + [w.pending])
  }

  // A closed socket writes nothing more.
  predicate Enabled(w: Writer, e: Event) {
    match e
    case Submit(_) => true
    case Written => w.inFlight != [] && w.open
    case WriteFailed(k) => w.inFlight != [] && k <= |Bytes(w.inFlight[0])| && (w.open || k == 0)
  }

  function Step(w: Writer, e: Event): Writer
    requires Enabled(w, e)
  {
    match e
    case Submit(s) =>
      var w' := w.(pending := w.pending + s);
      if w'.writing == [] then StartWrite(w') else w'
    case Written =>
      var w' := w.(sent := w.sent + Bytes(w.inFlight[0]), inFlight := w.inFlight[1..], writing := []);
      if w'.pending != [] then StartWrite(w') else w'
    case WriteFailed(k) =>
      w.(sent := w.sent + Bytes(w.inFlight[0])[..k], inFlight := w.inFlight[1..], writing := [], open := false)
  }

  // ----- Runs -----

  // The state after a sequence of events, if each of them can happen in turn.
  function Exec(events: seq<Event>): Option<Writer> {
    if events == [] then Some(FRESH)
    else
      var n := |events| - 1;
      var r := Exec(events[..n]);
      if r.Some? && Enabled(r.value, events[n]) then Some(Step(r.value, events[n])) else None
  }

  predicate Legal(events: seq<Event>) {
    Exec(events).Some?
  }

  function After(events: seq<Event>): Writer
    requires Legal(events)
  {
    Exec(events).value
  }

  function Submissions(events: seq<Event>): seq<Submission> {
    if events == [] then []
    else
      var n := |events| - 1;
      Submissions(events[..n]) + if events[n].Submit? then [events[n].submission] else []
  }

  predicate ErrorFree(events: seq<Event>) {
    forall i :: 0 <= i < |events| ==> !events[i].WriteFailed?
  }

  // An empty vectored request that reaches a writer without any buffers.
  predicate IdleEmpty(w: Writer, e: Event) {
    e == Submit([]) && w.writing == [] && w.pending == []
  }

  ghost predicate IdleEmptyAt(events: seq<Event>, i: nat) {
    i < |events| && Legal(events[..i]) && IdleEmpty(After(events[..i]), events[i])
  }

  ghost predicate NoIdleEmpty(events: seq<Event>) {
    forall i :: 0 <= i < |events| ==> !IdleEmptyAt(events, i)
  }

  lemma {:induction false} LegalPrefix(events: seq<Event>, i: nat)
    requires Legal(events) && i <= |events|
    ensures Legal(events[..i])
  {
    var n := |events| - 1;
    if i == |events| {
      assert events[..i] == events;
    } else {
      LegalPrefix(events[..n], i);
      assert events[..n][..i] == events[..i];
    }
  }

  lemma NoIdleEmptyPrefix(events: seq<Event>, m: nat)
    requires NoIdleEmpty(events) && m <= |events|
    ensures NoIdleEmpty(events[..m])
    ensures m < |events| && Legal(events[..m]) ==> !IdleEmpty(After(events[..m]), events[m])
  {
    forall i | 0 <= i < m
      ensures !IdleEmptyAt(events[..m], i)
    {
      assert events[..m][..i] == events[..i];
      assert !IdleEmptyAt(events, i);
    }
    if m < |events| {
      assert !IdleEmptyAt(events, m);
    }
  }

  // ----- At most one write is outstanding -----

  // One write is outstanding, for exactly the write buffers, when there are any.
  ghost predicate Tidy(w: Writer) {
    w.inFlight == if w.writing == [] then [] else [w.writing]
  }

  lemma StepTidy(w: Writer, e: Event)
    requires Enabled(w, e) && Tidy(w)
    ensures Tidy(Step(w, e)) <==> !IdleEmpty(w, e)
  {}

  lemma {:induction false} RunTidy(events: seq<Event>)
    requires Legal(events) && NoIdleEmpty(events)
    ensures Tidy(After(events))
  {
    if events != [] {
      var n := |events| - 1;
      NoIdleEmptyPrefix(events, n);
      RunTidy(events[..n]);
      StepTidy(After(events[..n]), events[n]);
    }
  }

  // In every state of a run at most one write is outstanding, and it is for the write
  // buffers, if and only if no empty vectored request reaches an idle writer.
  lemma TidyExactly(events: seq<Event>)
    requires Legal(events)
    ensures (forall i :: 0 <= i <= |events| ==> Legal(events[..i]) && Tidy(After(events[..i]))) <==> NoIdleEmpty(events)
  {
    if NoIdleEmpty(events) {
      forall i | 0 <= i <= |events|
        ensures Legal(events[..i]) && Tidy(After(events[..i]))
      {
        LegalPrefix(events, i);
        NoIdleEmptyPrefix(events, i);
        RunTidy(events[..i]);
      }
    } else {
      var i :| 0 <= i < |events| && IdleEmptyAt(events, i);
      LegalPrefix(events, i + 1);
      assert events[..i + 1][..i] == events[..i];
      var w := After(events[..i]);
      assert After(events[..i + 1]) == Step(w, events[i]);
      if Tidy(w) {
        StepTidy(w, events[i]);
      }
    }
  }

  // Two submissions, the first one empty, put two writes in flight at once.
  lemma TwoWritesInFlight(b: Buffer)
    ensures var events := [Submit([]), Submit([b])];
            Legal(events) && |After(events).inFlight| == 2
  {
    var events := [Submit([]), Submit([b])];
    assert events[..1] == [Submit([])];
    assert events[..1][..0] == [];
    assert After(events[..1]) == StartWrite(FRESH);
    assert After(events) == Step(After(events[..1]), Submit([b]));
  }

  // ----- Nothing is lost, duplicated or reordered -----

  lemma {:induction false} JoinAppend<T>(a: seq<seq<T>>, b: seq<seq<T>>)
    ensures Join(a + b) == Join(a) + Join(b)
  {
    if a == [] {
      assert a + b == b;
    } else {
      assert (a + b)[1..] == a[1..] + b;
      JoinAppend(a[1..], b);
    }
  }

  lemma JoinOne<T>(a: seq<T>)
    ensures Join([a]) == a
  {
    assert Join([a][1..]) == [];
  }

  // The submissions up to a have gone out, those up to b are being written as one batch, and
  // the rest wait.  Data waits only while a write is outstanding.
  ghost predicate Accounted(w: Writer, subs: seq<Submission>, a: nat, b: nat) {
    && a <= b <= |subs|
    && w.open
    && w.sent == Bytes(Join(subs[..a]))
    && w.writing == Join(subs[a..b])
    && w.pending == Join(subs[b..])
    && (w.pending != [] ==> w.writing != [])
  }

  lemma SubmitAccounted(w: Writer, subs: seq<Submission>, a: nat, b: nat, s: Submission) returns (b': nat)
    requires Accounted(w, subs, a, b)
    ensures Accounted(Step(w, Submit(s)), subs + [s], a, b')
  {
    hide Join;
    var subs' := subs + [s];
    SliceLonger(subs, s, a, b);
    JoinAppend(subs[b..], [s]);
    JoinOne(s);
    if w.writing == [] {
      b' := |subs'|;
      assert subs'[a..b'] == subs[a..b] + subs'[b..];
      JoinAppend(subs[a..b], subs'[b..]);
      assert subs'[b'..] == [];
      JoinNone<Buffer>();
    } else {
      b' := b;
    }
  }

  lemma SliceLonger<T>(s: seq<T>, x: T, a: nat, b: nat)
    requires a <= b <= |s|
    ensures (s + [x])[..a] == s[..a] && (s + [x])[a..b] == s[a..b] && (s + [x])[b..] == s[b..] + [x]
  {}

  lemma JoinNone<T>()
    ensures Join<T>([]) == []
  {}

  lemma WrittenAccounted(w: Writer, subs: seq<Submission>, a: nat, b: nat) returns (b': nat)
    requires Accounted(w, subs, a, b) && Tidy(w) && Enabled(w, Written)
    ensures b' >= b && Accounted(Step(w, Written), subs, b, b')
  {
    assert subs[..b] == subs[..a] + subs[a..b];
    JoinAppend(subs[..a], subs[a..b]);
    JoinAppend(Join(subs[..a]), Join(subs[a..b]));
    if w.pending != [] {
      b' := |subs|;
      assert subs[b..b'] == subs[b..] && subs[b'..] == [];
    } else {
      b' := b;
      assert subs[b..b] == [];
    }
  }

  // In every error-free run the bytes on the wire, the write buffers and the pending buffers
  // are together all submissions in order, cut only between submissions.
  lemma {:induction false} RunAccounted(events: seq<Event>) returns (a: nat, b: nat)
    requires Legal(events) && NoIdleEmpty(events) && ErrorFree(events)
    ensures Accounted(After(events), Submissions(events), a, b)
  {
    if events == [] {
      a, b := 0, 0;
      assert Submissions(events) == [];
    } else {
      hide Accounted, Step, Enabled, Tidy;
      var n := |events| - 1;
      NoIdleEmptyPrefix(events, n);
      a, b := RunAccounted(events[..n]);
      RunTidy(events[..n]);
      var (w, subs) := (After(events[..n]), Submissions(events[..n]));
      match events[n]
      case Submit(s) =>
        b := SubmitAccounted(w, subs, a, b, s);
      case Written =>
        var b' := WrittenAccounted(w, subs, a, b);
        a, b := b, b';
        assert Submissions(events) == subs;
    }
  }

  lemma AccountedTotal(w: Writer, subs: seq<Submission>, a: nat, b: nat)
    requires Accounted(w, subs, a, b)
    ensures w.sent + Bytes(w.writing) + Bytes(w.pending) == Bytes(Join(subs))
    ensures w.writing == [] ==> w.sent == Bytes(Join(subs))
  {
    assert subs == subs[..a] + subs[a..b] + subs[b..];
    JoinAppend(subs[..a], subs[a..b]);
    JoinAppend(subs[..a] + subs[a..b], subs[b..]);
    JoinAppend(Join(subs[..a]), Join(subs[a..b]));
    JoinAppend(Join(subs[..a] + subs[a..b]), Join(subs[b..]));
  }

  // Conservation over whole runs; when no write is outstanding everything has gone out.
  lemma Conservation(events: seq<Event>)
    requires Legal(events) && NoIdleEmpty(events) && ErrorFree(events)
    ensures var w := After(events);
            && w.sent + Bytes(w.writing) + Bytes(w.pending) == Bytes(Join(Submissions(events)))
            && (w.inFlight == [] ==> w.pending == [] && w.sent == Bytes(Join(Submissions(events))))
  {
    var a, b := RunAccounted(events);
    RunTidy(events);
    AccountedTotal(After(events), Submissions(events), a, b);
  }

  lemma MoreSubmissions(events: seq<Event>)
    requires events != []
    ensures Bytes(Join(Submissions(events[..|events| - 1]))) <= Bytes(Join(Submissions(events)))
  {
    var n := |events| - 1;
    var subs := Submissions(events[..n]);
    if events[n].Submit? {
      var s := events[n].submission;
      JoinAppend(subs, [s]);
      JoinOne(s);
      JoinAppend(Join(subs), s);
    } else {
      assert Submissions(events) == subs;
    }
  }

  // Even when a write fails, what has gone out is a prefix of what was submitted.
  lemma {:induction false} SentIsPrefix(events: seq<Event>)
    requires Legal(events) && NoIdleEmpty(events)
    ensures After(events).sent <= Bytes(Join(Submissions(events)))
    ensures After(events).open <==> ErrorFree(events)
  {
    hide Join, Submissions, NoIdleEmpty;
    if events == [] {
      EmptyPrefix(Bytes(Join(Submissions(events))));
    } else {
      var n := |events| - 1;
      var (before, e) := (events[..n], events[n]);
      NoIdleEmptyPrefix(events, n);
      SentIsPrefix(before);
      MoreSubmissions(events);
      assert ErrorFree(events) <==> ErrorFree(before) && !e.WriteFailed?;
      if !e.Submit? {
        RunTidy(before);
        if ErrorFree(before) {
          Conservation(before);
        }
      }
    }
  }

  // A write that fails after some bytes puts out exactly the first of those that it would have put
  // out, starts no other write, and closes the connection.
  lemma FailedWrite(w: Writer, k: nat)
    requires Enabled(w, WriteFailed(k)) && w.open
    ensures var (failed, written) := (Step(w, WriteFailed(k)), Step(w, Written));
            && failed.sent == written.sent[..|w.sent| + k] && |failed.sent| == |w.sent| + k
            && failed.inFlight == w.inFlight[1..] && failed.writing == [] && failed.pending == w.pending && !failed.open
  {
    hide Join;
    var bytes := Bytes(w.inFlight[0]);
    assert (w.sent + bytes)[..|w.sent| + k] == w.sent + bytes[..k];
  }

  lemma EmptyPrefix(s: seq<int>)
    ensures [] <= s
  {}

  // ----- The object -----

  class TcpClient {
    var pendingBuffers: seq<Buffer>
    var writeBuffers: seq<Buffer>
    var inFlight: seq<seq<Buffer>>
    var sent: seq<int>
    var open: bool

    ghost function Value(): Writer
      reads this
    {
      Writer(pendingBuffers, writeBuffers, inFlight, sent, open)
    }

    constructor ()
      ensures Value() == FRESH
    {
      pendingBuffers, writeBuffers, inFlight, sent, open := [], [], [], [], true;
    }

    method Send()
      modifies this
      ensures Value() == StartWrite(old(Value()))
    {
      pendingBuffers, writeBuffers := writeBuffers, pendingBuffers;
      inFlight := inFlight + [writeBuffers];
    }

    // The handler posted by Send(buf) and Send(vbuf).
    method OnSend(submission: Submission)
      modifies this
      ensures Value() == Step(old(Value()), Submit(submission))
    {
      pendingBuffers := pendingBuffers + submission;
      if writeBuffers == [] {
        Send();
      }
    }

    // The completion handler of async_write.
    method OnWriteCompleted(failed: bool, len: nat)
      requires Enabled(Value(), if failed then WriteFailed(len) else Written)
      modifies this
      ensures Value() == Step(old(Value()), if failed then WriteFailed(len) else Written)
    {
      var batch := inFlight[0];
      inFlight := inFlight[1..];
      sent := sent + if failed then Bytes(batch)[..len] else Bytes(batch);
      writeBuffers := [];
      if !failed {
        if pendingBuffers != [] {
          Send();
        }
      } else {
        open := false;
      }
    }
  }
}
