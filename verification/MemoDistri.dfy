/**
 The memoising distribution (serverManager/MemoDistri.cpp, serverManager/MemoDistri.h): a
 vector kept as a heap on the ratio of keys to weight, and a memo from key hashes to servers.

 std::push_heap and std::pop_heap are known by their contracts (section 25.4.6 of ISO C++11):
 the step relation allows every result that the contracts allow, and the class implements it
 with sift loops.
 */
module MemoDistri {
  import opened Collections
  import opened Words
  import opened Servers

  const MAX_KEYS: nat := 0x2_0000_0000

  datatype Balance = Balance(server: Server, keyCount: nat)

  // The cross-multiplied order, in 64-bit arithmetic as written and in unbounded integers.
  predicate LessWord(a: Balance, b: Balance) {
    a.keyCount * b.server.weight % UINT64 < b.keyCount * a.server.weight % UINT64
  }

  predicate Less(a: Balance, b: Balance) {
    a.keyCount * b.server.weight < b.keyCount * a.server.weight
  }

  // An entry is less exactly when it has fewer keys per unit of weight.
  lemma LessIsRatio(a: Balance, b: Balance)
    ensures Less(a, b) <==>
            a.keyCount as real / a.server.weight as real < b.keyCount as real / b.server.weight as real
  {
    var (x, y) := (a.keyCount as real / a.server.weight as real, b.keyCount as real / b.server.weight as real);
    var (v, w) := (a.server.weight as real, b.server.weight as real);
    assert x * v == a.keyCount as real && y * w == b.keyCount as real;
    assert (a.keyCount * b.server.weight) as real == x * (v * w);
    assert (b.keyCount * a.server.weight) as real == y * (v * w);
    ScaleLess(x, y, v * w);
  }

  lemma ScaleLess(x: real, y: real, c: real)
    requires c > 0.0
    ensures x < y <==> x * c < y * c
  {}

  // No comparison wraps while every count is below 2^33.
  predicate Small(v: seq<Balance>) {
    forall i :: 0 <= i < |v| ==> v[i].keyCount <= MAX_KEYS
  }

  lemma NoWrap(a: Balance, b: Balance)
    requires a.keyCount <= MAX_KEYS && b.keyCount <= MAX_KEYS
    ensures LessWord(a, b) <==> Less(a, b)
  {
    ProductBound(a.keyCount, b.server.weight);
    ProductBound(b.keyCount, a.server.weight);
  }

  lemma ProductBound(k: nat, w: Weight)
    requires k <= MAX_KEYS
    ensures 0 <= k * w < UINT64
  {
    assert k * w <= MAX_KEYS * w;
  }

  // Being at least as loaded is transitive, because weights are positive.
  lemma AtLeastTransitive(a: Balance, b: Balance, c: Balance)
    requires !Less(a, b) && !Less(b, c)
    ensures !Less(a, c)
  {
    var (ka, kb, kc) := (a.keyCount, b.keyCount, c.keyCount);
    var (wa, wb, wc) := (a.server.weight, b.server.weight, c.server.weight);
    MulAtLeast(ka * wb, kb * wa, wc);
    MulAtLeast(kb * wc, kc * wb, wa);
    assert (ka * wc) * wb == (ka * wb) * wc >= (kb * wa) * wc;
    assert (kb * wc) * wa >= (kc * wb) * wa == (kc * wa) * wb;
    MulCancel(ka * wc, kc * wa, wb);
  }

  lemma MulCancel(x: int, y: int, w: Weight)
    requires x * w >= y * w
    ensures x >= y
  {}

  lemma MulAtLeast(x: int, y: int, w: Weight)
    requires x >= y
    ensures x * w >= y * w
  {}

  // ----- Heaps -----

  function Up(i: nat): (p: nat)
    requires i > 0
    ensures p < i
  {
    (i - 1) / 2
  }

  ghost predicate Heap(v: seq<Balance>) {
    forall i :: 0 < i < |v| ==> !Less(v[Up(i)], v[i])
  }

  lemma {:induction false} FrontIsGreatest(v: seq<Balance>, i: nat)
    requires Heap(v) && i < |v|
    ensures !Less(v[0], v[i])
  {
    if i > 0 {
      FrontIsGreatest(v, Up(i));
      AtLeastTransitive(v[0], v[Up(i)], v[i]);
    }
  }

  ghost predicate Pushed(v: seq<Balance>, r: seq<Balance>) {
    multiset(r) == multiset(v) && Heap(r)
  }

  ghost predicate Popped(v: seq<Balance>, r: seq<Balance>)
    requires |v| > 0
  {
    && multiset(r) == multiset(v) && |r| == |v|
    && r[|r| - 1] == v[0] && Heap(r[..|r| - 1])
  }

  function Swap(v: seq<Balance>, i: nat, j: nat): (r: seq<Balance>)
    requires i < |v| && j < |v|
    ensures |r| == |v| && multiset(r) == multiset(v)
  {
    v[i := v[j]][j := v[i]]
  }

  // Every element but the one at i is at most its parent.
  ghost predicate HeapExceptAt(v: seq<Balance>, i: nat) {
    && (forall j :: 0 < j < |v| && j != i ==> !Less(v[Up(j)], v[j]))
    && (forall j :: 0 < j < |v| && 0 < i && Up(j) == i ==> !Less(v[Up(i)], v[j]))
  }

  lemma SiftUpStep(v: seq<Balance>, i: nat)
    requires 0 < i < |v| && HeapExceptAt(v, i) && Less(v[Up(i)], v[i])
    ensures HeapExceptAt(Swap(v, i, Up(i)), Up(i))
  {
    hide Less;
    var (p, r) := (Up(i), Swap(v, i, Up(i)));
    NotBoth(v[p], v[i]);
    forall j | 0 < j < |r| && j != p
      ensures !Less(r[Up(j)], r[j])
    {
      if Up(j) == p && j != i {
        AtLeastTransitive(v[i], v[p], v[j]);
      }
    }
    forall j | 0 < j < |r| && 0 < p && Up(j) == p
      ensures !Less(r[Up(p)], r[j])
    {
      if j != i {
        AtLeastTransitive(v[Up(p)], v[p], v[j]);
      }
    }
  }

  lemma NotBoth(a: Balance, b: Balance)
    requires Less(a, b)
    ensures !Less(b, a)
  {}

  method PushHeap(v: seq<Balance>) returns (r: seq<Balance>)
    requires |v| > 0 && Small(v) && Heap(v[..|v| - 1])
    ensures Pushed(v, r)
  {
    hide Less, LessWord, HeapExceptAt, Heap, Up;
    r := v;
    var i := |v| - 1;
    NewAtEnd(v);
    while i > 0 && LessWord(r[Up(i)], r[i])
      invariant 0 <= i < |r| && |r| == |v| && multiset(r) == multiset(v) && Small(r)
      invariant HeapExceptAt(r, i)
    {
      NoWrap(r[Up(i)], r[i]);
      SiftUpStep(r, i);
      r := Swap(r, i, Up(i));
      i := Up(i);
    }
    if i > 0 {
      NoWrap(r[Up(i)], r[i]);
    }
    SiftUpDone(r, i);
  }

  lemma NewAtEnd(v: seq<Balance>)
    requires |v| > 0 && Heap(v[..|v| - 1])
    ensures HeapExceptAt(v, |v| - 1)
  {
    hide Less;
    forall j | 0 < j < |v| - 1
      ensures !Less(v[Up(j)], v[j])
    {
      assert v[..|v| - 1][Up(j)] == v[Up(j)] && v[..|v| - 1][j] == v[j];
    }
  }

  lemma SiftUpDone(v: seq<Balance>, i: nat)
    requires i < |v| && HeapExceptAt(v, i) && (i == 0 || !Less(v[Up(i)], v[i]))
    ensures Heap(v)
  {
    hide Less;
  }

  // Every element whose parent is not at i is at most its parent.
  ghost predicate HeapExceptBelow(v: seq<Balance>, i: nat) {
    && (forall j :: 0 < j < |v| && Up(j) != i ==> !Less(v[Up(j)], v[j]))
    && (forall j :: 0 < j < |v| && 0 < i && Up(j) == i ==> !Less(v[Up(i)], v[j]))
  }

  ghost predicate GreatestChild(v: seq<Balance>, i: nat, c: nat) {
    && 0 < c < |v| && Up(c) == i
    && forall j :: 0 < j < |v| && Up(j) == i ==> !Less(v[c], v[j])
  }

  lemma SiftDownStep(v: seq<Balance>, i: nat, c: nat)
    requires i < |v| && HeapExceptBelow(v, i) && GreatestChild(v, i, c) && Less(v[i], v[c])
    ensures HeapExceptBelow(Swap(v, c, i), c)
  {
    hide Less;
    var r := Swap(v, c, i);
    NotBoth(v[i], v[c]);
    assert i < c;
  }

  lemma SiftDownDone(v: seq<Balance>, i: nat, c: nat)
    requires i < |v| && HeapExceptBelow(v, i) && GreatestChild(v, i, c) && !Less(v[i], v[c])
    ensures Heap(v)
  {
    hide Less;
    forall j | 0 < j < |v| && Up(j) == i
      ensures !Less(v[i], v[j])
    {
      AtLeastTransitive(v[i], v[c], v[j]);
    }
  }

  lemma SiftDownLeaf(v: seq<Balance>, i: nat)
    requires HeapExceptBelow(v, i) && 2 * i + 1 >= |v|
    ensures Heap(v)
  {
    hide Less;
  }

  method GreaterChild(v: seq<Balance>, i: nat) returns (c: nat)
    requires Small(v) && 2 * i + 1 < |v|
    ensures GreatestChild(v, i, c) && c < |v|
  {
    hide Less, LessWord;
    c := 2 * i + 1;
    if c + 1 < |v| {
      NoWrap(v[c], v[c + 1]);
      NotBothWays(v[c + 1], v[c]);
      if LessWord(v[c], v[c + 1]) {
        c := c + 1;
      }
    }
    NotBothWays(v[c], v[c]);
  }

  method SiftDown(v: seq<Balance>) returns (r: seq<Balance>)
    requires Small(v) && HeapExceptBelow(v, 0)
    ensures Pushed(v, r)
  {
    hide Less, LessWord, HeapExceptBelow, GreatestChild, Heap;
    r := v;
    var i := 0;
    while 2 * i + 1 < |r|
      invariant |r| == |v| && multiset(r) == multiset(v) && Small(r)
      invariant 0 <= i && HeapExceptBelow(r, i)
      decreases |r| - i
    {
      var c := GreaterChild(r, i);
      ChildBelow(r, i, c);
      NoWrap(r[i], r[c]);
      if !LessWord(r[i], r[c]) {
        SiftDownDone(r, i, c);
        return;
      }
      SiftDownStep(r, i, c);
      r := Swap(r, c, i);
      i := c;
    }
    SiftDownLeaf(r, i);
  }

  lemma ChildBelow(v: seq<Balance>, i: nat, c: nat)
    requires GreatestChild(v, i, c)
    ensures i < c < |v|
  {}

  lemma NotBothWays(a: Balance, b: Balance)
    ensures !Less(a, b) || !Less(b, a)
  {}

  method PopHeap(v: seq<Balance>) returns (r: seq<Balance>)
    requires |v| > 0 && Small(v) && Heap(v)
    ensures Popped(v, r)
  {
    hide Less;
    var n := |v| - 1;
    var swapped := Swap(v, 0, n);
    var rest := SiftDown(swapped[..n]);
    r := rest + [swapped[n]];
    assert swapped == swapped[..n] + [swapped[n]];
    assert r[..n] == rest by { assert |rest| == |multiset(rest)| == |multiset(swapped[..n])| == n; }
  }

  // ----- The state machine -----

  datatype State = State(infos: seq<Balance>, memo: map<int, Server>)

  const EMPTY: State := State([], map[])

  datatype Op = AddServer(server: Server) | RemoveServer(server: Server) | GetServer(hash: int) | Clear

  // The position of the first entry of a server, or the length.
  function FirstOf(v: seq<Balance>, server: Server): (k: nat)
    ensures k <= |v| && (k < |v| ==> v[k].server == server)
    ensures forall i :: 0 <= i < k ==> v[i].server != server
  {
    if v == [] || v[0].server == server then 0 else 1 + FirstOf(v[1..], server)
  }

  function EraseFirst(v: seq<Balance>, server: Server): seq<Balance> {
    var k := FirstOf(v, server);
    if k < |v| then v[..k] + v[k + 1..] else v
  }

  function Forget(memo: map<int, Server>, server: Server): map<int, Server> {
    map h | h in memo && memo[h] != server :: memo[h]
  }

  function Bumped(v: seq<Balance>): seq<Balance>
    requires |v| > 0
  {
    v[0 := v[0].(keyCount := v[0].keyCount + 1)]
  }

  // A miss: the returned reference names the front slot, so it is read after the heap was
  // rearranged.
  ghost predicate Missed(s: State, hash: int, s': State, answer: Option<Server>)
    requires |s.infos| > 0
  {
    && (exists mid :: Popped(Bumped(s.infos), mid) && Pushed(mid, s'.infos))
    && |s'.infos| > 0
    && s'.memo == s.memo[hash := s'.infos[0].server]
    && answer == Some(s'.infos[0].server)
  }

  ghost predicate Step(s: State, op: Op, s': State, answer: Option<Server>) {
    match op
    case AddServer(server) =>
      Pushed(s.infos + [Balance(server, 0)], s'.infos) && s'.memo == s.memo && answer == None
    case RemoveServer(server) =>
      s' == State(EraseFirst(s.infos, server), Forget(s.memo, server)) && answer == None
    case GetServer(hash) =>
      if s.infos == [] then s' == s && answer == None
      else if hash in s.memo then s' == s && answer == Some(s.memo[hash])
      else Missed(s, hash, s', answer)
    case Clear =>
      s' == EMPTY && answer == None
  }

  // All the load is at the front: only the front server has keys, it has all of them, and
  // the vector is a heap.
  ghost predicate Concentrated(s: State) {
    && Heap(s.infos)
    && (forall i :: 0 < i < |s.infos| ==> s.infos[i].keyCount == 0)
    && (s.infos == [] ==> s.memo == map[])
    && (s.infos != [] ==> s.infos[0].keyCount == |s.memo|)
    && (forall h :: h in s.memo ==> s.infos != [] && s.memo[h] == s.infos[0].server)
  }

  // Entries without keys are below everything, so they form a heap in any order.
  lemma IdleHeap(v: seq<Balance>)
    requires forall i :: 0 < i < |v| ==> v[i].keyCount == 0
    ensures Heap(v)
  {}

  // In a heap an entry with keys cannot sit behind an entry without.
  lemma BusyIsFront(v: seq<Balance>, r: seq<Balance>, front: Balance)
    requires v != [] && v[0] == front && (forall i :: 0 < i < |v| ==> v[i].keyCount == 0)
    requires multiset(r) == multiset(v) && Heap(r)
    ensures |r| == |v| && (forall i :: 0 < i < |r| ==> r[i].keyCount == 0)
    ensures front.keyCount > 0 ==> r[0] == front
    ensures front.keyCount == 0 ==> r[0].keyCount == 0
  {
    assert |r| == |multiset(r)| == |v|;
    forall i | 0 <= i < |r|
      ensures r[i] in v
    {
      assert r[i] in multiset(r);
    }
    if front.keyCount > 0 {
      assert front in multiset(v) && front in multiset(r) && front in r;
      var k :| 0 <= k < |r| && r[k] == front;
      FrontIsGreatest(r, k);
      assert r[0].keyCount > 0 by {
        if r[0].keyCount == 0 { PositiveProduct(front.keyCount, r[0].server.weight); }
      }
      OnlyOnce(v, r, front);
    }
  }

  lemma PositiveProduct(k: nat, w: Weight)
    requires k > 0
    ensures k * w > 0
  {}

  // The busy entry occurs once, so no other position of a rearrangement holds it.
  lemma OnlyOnce(v: seq<Balance>, r: seq<Balance>, front: Balance)
    requires v != [] && v[0] == front && front.keyCount > 0
    requires forall i :: 0 < i < |v| ==> v[i].keyCount == 0
    requires multiset(r) == multiset(v) && |r| > 0 && r[0] == front
    ensures forall i :: 0 < i < |r| ==> r[i].keyCount == 0
  {
    assert v == [front] + v[1..] && r == [front] + r[1..];
    assert multiset(v) == multiset{front} + multiset(v[1..]);
    assert multiset(r) == multiset{front} + multiset(r[1..]);
    assert multiset(v[1..]) == multiset(v) - multiset{front} == multiset(r[1..]);
    forall i | 0 < i < |r|
      ensures r[i].keyCount == 0
    {
      assert r[i] in multiset(r[1..]) && r[i] in v[1..];
    }
  }

  lemma AddConcentrated(s: State, server: Server, s': State, answer: Option<Server>)
    requires Concentrated(s) && Step(s, AddServer(server), s', answer)
    ensures Concentrated(s')
  {
    var v := s.infos + [Balance(server, 0)];
    BusyIsFront(v, s'.infos, v[0]);
    assert s.memo != map[] ==> |s.memo| > 0;
  }

  lemma RemoveConcentrated(s: State, server: Server)
    requires Concentrated(s)
    ensures Concentrated(State(EraseFirst(s.infos, server), Forget(s.memo, server)))
    ensures s.infos != [] && s.infos[0].server != server ==> Forget(s.memo, server) == s.memo
  {
    if s.infos != [] {
      hide FirstOf;
      var (front, r) := (s.infos[0], EraseFirst(s.infos, server));
      assert forall i :: 0 < i < |r| ==> r[i].keyCount == 0;
      IdleHeap(r);
      assert forall h :: h in s.memo ==> s.memo[h] == front.server;
      if front.server == server {
        assert Forget(s.memo, server) == map[];
      } else {
        assert r[0] == front;
        assert Forget(s.memo, server) == s.memo;
      }
    }
  }

  lemma MissConcentrated(s: State, hash: int, s': State, answer: Option<Server>)
    requires Concentrated(s) && s.infos != [] && hash !in s.memo && Missed(s, hash, s', answer)
    ensures Concentrated(s') && s'.infos[0].server == s.infos[0].server
  {
    var v := Bumped(s.infos);
    var mid :| Popped(v, mid) && Pushed(mid, s'.infos);
    BusyIsFront(v, s'.infos, v[0]);
    assert s'.memo.Keys == s.memo.Keys + {hash};
    assert |s'.memo| == |s.memo| + 1;
  }

  // Every step keeps the load concentrated; an answer is always the front server.
  lemma StepConcentrated(s: State, op: Op, s': State, answer: Option<Server>)
    requires Concentrated(s) && Step(s, op, s', answer)
    ensures Concentrated(s')
    ensures op.GetServer? && s.infos != [] ==>
              answer == Some(s.infos[0].server) && s'.infos[0].server == s.infos[0].server
    ensures op.GetServer? ==> (answer == None <==> s.infos == [])
  {
    match op
    case AddServer(server) => AddConcentrated(s, server, s', answer);
    case RemoveServer(server) => RemoveConcentrated(s, server);
    case GetServer(hash) =>
      if s.infos != [] && hash !in s.memo {
        MissConcentrated(s, hash, s', answer);
      }
    case Clear =>
  }

  // What a lookup answers and memoises: the server memoised for the hash, which is the front one,
  // before and after.
  lemma LookupIs(s: State, hash: int, s': State, answer: Option<Server>)
    requires Concentrated(s) && Step(s, GetServer(hash), s', answer)
    ensures s.infos == [] ==> answer == None && s' == s
    ensures s.infos != [] ==>
              && s'.infos != [] && answer == Some(s.infos[0].server) && s'.infos[0].server == s.infos[0].server
              && s'.memo == s.memo[hash := s.infos[0].server]
              && (hash in s.memo ==> answer == Some(s.memo[hash]))
  {
    StepConcentrated(s, GetServer(hash), s', answer);
    if s.infos != [] && hash in s.memo {
      assert s.memo[hash := s.infos[0].server] == s.memo;
    }
  }

  // ----- Whole runs -----

  ghost predicate IsRun(states: seq<State>, ops: seq<Op>, answers: seq<Option<Server>>) {
    && |states| == |ops| + 1 == |answers| + 1
    && forall i :: 0 <= i < |ops| ==> Step(states[i], ops[i], states[i + 1], answers[i])
  }

  // In every state that can be reached from the empty one the load is concentrated.
  lemma {:induction false} ReachableConcentrated(states: seq<State>, ops: seq<Op>, answers: seq<Option<Server>>, i: nat)
    requires IsRun(states, ops, answers) && states[0] == EMPTY && i < |states|
    ensures Concentrated(states[i])
  {
    if i > 0 {
      ReachableConcentrated(states, ops, answers, i - 1);
      StepConcentrated(states[i - 1], ops[i - 1], states[i], answers[i - 1]);
    }
  }

  ghost predicate Keeps(op: Op, server: Server) {
    op != RemoveServer(server) && op != Clear
  }

  // A memoised key keeps its server until that server is removed or everything is cleared.
  lemma {:induction false} MemoIsSticky(states: seq<State>, ops: seq<Op>, answers: seq<Option<Server>>, i: nat,
                                        j: nat, hash: int)
    requires IsRun(states, ops, answers) && states[0] == EMPTY && i <= j < |states|
    requires hash in states[i].memo
    requires forall k :: i <= k < j ==> Keeps(ops[k], states[i].memo[hash])
    ensures hash in states[j].memo && states[j].memo[hash] == states[i].memo[hash]
    ensures j < |ops| && ops[j] == GetServer(hash) ==> answers[j] == Some(states[i].memo[hash])
    decreases j
  {
    hide Step, Concentrated, Keeps;
    if i < j {
      MemoIsSticky(states, ops, answers, i, j - 1, hash);
      assert Step(states[j - 1], ops[j - 1], states[j], answers[j - 1]);
      assert Keeps(ops[j - 1], states[i].memo[hash]);
      StepKeeps(states[j - 1], ops[j - 1], states[j], answers[j - 1], hash);
    }
    if j < |ops| && ops[j] == GetServer(hash) {
      assert Step(states[j], ops[j], states[j + 1], answers[j]);
      ReachableConcentrated(states, ops, answers, j);
      MemoAnswers(states[j], hash, states[j + 1], answers[j]);
    }
  }

  lemma StepKeeps(s: State, op: Op, s': State, answer: Option<Server>, hash: int)
    requires Step(s, op, s', answer) && hash in s.memo && Keeps(op, s.memo[hash])
    ensures hash in s'.memo && s'.memo[hash] == s.memo[hash]
  {}

  lemma MemoAnswers(s: State, hash: int, s': State, answer: Option<Server>)
    requires Concentrated(s) && Step(s, GetServer(hash), s', answer) && hash in s.memo
    ensures answer == Some(s.memo[hash])
  {}

  // ----- The servers in the vector -----

  // No server has two entries; stated on the multiset, so that order does not matter.
  ghost predicate Distinct(m: multiset<Balance>) {
    && (forall b :: m[b] <= 1)
    && (forall b, c :: b in m && c in m && b.server == c.server ==> b == c)
  }

  ghost predicate Listed(m: multiset<Balance>, server: Server) {
    exists b :: b in m && b.server == server
  }

  lemma AddMembers(m: multiset<Balance>, server: Server, t: Server)
    requires Distinct(m) && !Listed(m, server)
    ensures var m' := m + multiset{Balance(server, 0)};
            Distinct(m') && (Listed(m', t) <==> Listed(m, t) || t == server)
  {
    var x := Balance(server, 0);
    var m' := m + multiset{x};
    assert forall b :: b in m' <==> b in m || b == x;
    if Listed(m, t) {
      var b :| b in m && b.server == t;
      assert b in m';
    } else if t == server {
      assert x in m';
    }
  }

  lemma RemoveMembers(m: multiset<Balance>, x: Balance, t: Server)
    requires Distinct(m) && x in m
    ensures var m' := m - multiset{x};
            Distinct(m') && (Listed(m', t) <==> Listed(m, t) && t != x.server)
  {
    var m' := m - multiset{x};
    assert forall b :: b in m' <==> b in m && b != x;
    if Listed(m, t) && t != x.server {
      var b :| b in m && b.server == t;
      assert b in m';
    }
  }

  lemma BumpMembers(m: multiset<Balance>, x: Balance, y: Balance, t: Server)
    requires Distinct(m) && x in m && y.server == x.server
    ensures var m' := m - multiset{x} + multiset{y};
            Distinct(m') && (Listed(m', t) <==> Listed(m, t))
  {
    var m1 := m - multiset{x};
    RemoveMembers(m, x, t);
    var m' := m1 + multiset{y};
    assert forall b :: b in m' <==> (b in m && b != x) || b == y;
    if Listed(m, t) {
      if t == x.server {
        assert y in m';
      } else {
        var b :| b in m && b.server == t;
        assert b in m';
      }
    }
  }

  lemma EraseMembers(v: seq<Balance>, server: Server, t: Server)
    requires Distinct(multiset(v))
    ensures var r := EraseFirst(v, server);
            Distinct(multiset(r)) && (Listed(multiset(r), t) <==> Listed(multiset(v), t) && t != server)
  {
    hide Distinct, Listed, FirstOf;
    var k := FirstOf(v, server);
    if k < |v| {
      DropAt(v, k);
      RemoveMembers(multiset(v), v[k], t);
    } else {
      NotListed(v, server);
    }
  }

  lemma NotListed(v: seq<Balance>, server: Server)
    requires forall i :: 0 <= i < |v| ==> v[i].server != server
    ensures !Listed(multiset(v), server)
  {
    assert forall b :: b in multiset(v) ==> b in v;
  }

  lemma DropAt(v: seq<Balance>, k: nat)
    requires k < |v|
    ensures multiset(v[..k] + v[k + 1..]) == multiset(v) - multiset{v[k]} && v[k] in multiset(v)
  {
    assert v == v[..k] + [v[k]] + v[k + 1..];
  }

  // How each step changes the set of listed servers.
  lemma StepMembers(s: State, op: Op, s': State, answer: Option<Server>, t: Server)
    requires Step(s, op, s', answer) && Distinct(multiset(s.infos))
    requires op.AddServer? ==> !Listed(multiset(s.infos), op.server)
    ensures Distinct(multiset(s'.infos))
    ensures Listed(multiset(s'.infos), t) <==>
            match op
            case AddServer(x) => Listed(multiset(s.infos), t) || t == x
            case RemoveServer(x) => Listed(multiset(s.infos), t) && t != x
            case GetServer(_) => Listed(multiset(s.infos), t)
            case Clear => false
  {
    match op
    case AddServer(x) =>
      AddMembers(multiset(s.infos), x, t);
    case RemoveServer(x) =>
      EraseMembers(s.infos, x, t);
    case GetServer(h) =>
      if s.infos != [] && h !in s.memo {
        var (v, x) := (s.infos, s.infos[0]);
        assert v == [x] + v[1..];
        assert Bumped(v) == [Bumped(v)[0]] + v[1..];
        assert multiset(Bumped(v)) == multiset(v) - multiset{x} + multiset{Bumped(v)[0]};
        BumpMembers(multiset(v), x, Bumped(v)[0], t);
      }
    case Clear =>
  }

  lemma ForgetSmaller(memo: map<int, Server>, server: Server)
    ensures |Forget(memo, server)| <= |memo|
  {
    SubsetSize(Forget(memo, server).Keys, memo.Keys);
  }

  lemma GetGrowsByOne(s: State, hash: int, s': State, answer: Option<Server>)
    requires Step(s, GetServer(hash), s', answer)
    ensures |s'.memo| <= |s.memo| + 1
  {
    if s.infos != [] && hash !in s.memo {
      assert s'.memo.Keys == s.memo.Keys + {hash};
    }
  }

  // ----- The object -----

  method KeysOf(memo: map<int, Server>, server: Server) returns (keys: set<int>)
    ensures forall h :: h in keys <==> h in memo && memo[h] == server
  {
    keys := {};
    var todo := memo.Keys;
    while exists h :: h in todo
      invariant todo <= memo.Keys
      invariant forall h :: h in keys <==> h in memo && h !in todo && memo[h] == server
      decreases todo
    {
      var h :| h in todo;
      if memo[h] == server {
        keys := keys + {h};
      }
      todo := todo - {h};
    }
  }

  class MemoDistri {
    var infos: seq<Balance>
    var memo: map<int, Server>

    ghost function Value(): State
      reads this
    {
      State(infos, memo)
    }

    constructor ()
      ensures Value() == EMPTY && Concentrated(Value())
    {
      infos, memo := [], map[];
    }

    method Add(server: Server)
      requires Concentrated(Value()) && |memo| <= MAX_KEYS
      modifies this
      ensures Step(old(Value()), AddServer(server), Value(), None) && Concentrated(Value())
    {
      hide Less, LessWord;
      ghost var s := Value();
      infos := infos + [Balance(server, 0)];
      assert infos[..|infos| - 1] == s.infos;
      infos := PushHeap(infos);
      StepConcentrated(s, AddServer(server), Value(), None);
    }

    method FindInfo(server: Server) returns (k: nat)
      ensures k == FirstOf(infos, server)
    {
      k := 0;
      while k < |infos| && infos[k].server != server
        invariant k <= |infos| && forall i :: 0 <= i < k ==> infos[i].server != server
      {
        k := k + 1;
      }
    }

    // Collects the keys of a server, then erases them.
    method ForgetKeys(server: Server)
      modifies this`memo
      ensures memo == Forget(old(memo), server)
    {
      var needRemove := KeysOf(memo, server);
      memo := memo - needRemove;
      ghost var kept := Forget(old(memo), server);
      assert forall h :: h in memo <==> h in kept;
      assert forall h :: h in kept ==> memo[h] == kept[h];
    }

    method Remove(server: Server)
      requires Concentrated(Value())
      modifies this
      ensures Step(old(Value()), RemoveServer(server), Value(), None) && Concentrated(Value())
    {
      ghost var s := Value();
      var k := FindInfo(server);
      if k < |infos| {
        infos := infos[..k] + infos[k + 1..];
      }
      ForgetKeys(server);
      StepConcentrated(s, RemoveServer(server), Value(), None);
    }

    method Get(hash: int) returns (answer: Option<Server>)
      requires Concentrated(Value()) && |memo| < MAX_KEYS
      modifies this
      ensures Step(old(Value()), GetServer(hash), Value(), answer) && Concentrated(Value())
    {
      hide Less, LessWord;
      if |infos| == 0 {
        return None;
      }
      ghost var s := Value();
      if hash in memo {
        answer := Some(memo[hash]);
      } else {
        infos := infos[0 := infos[0].(keyCount := infos[0].keyCount + 1)];
        assert infos == Bumped(s.infos);
        IdleHeap(infos);
        var mid := PopHeap(infos);
        assert Small(mid) by { SmallAgain(infos, mid); }
        infos := PushHeap(mid);
        assert |multiset(infos)| == |multiset(mid)| == |mid| > 0;
        memo := memo[hash := infos[0].server];
        answer := Some(infos[0].server);
        assert Missed(s, hash, Value(), answer);
      }
      StepConcentrated(s, GetServer(hash), Value(), answer);
    }

    method Clear()
      modifies this
      ensures Step(old(Value()), Op.Clear, Value(), None) && Concentrated(Value())
    {
      infos, memo := [], map[];
    }
  }

  lemma SmallAgain(v: seq<Balance>, r: seq<Balance>)
    requires Small(v) && multiset(r) == multiset(v)
    ensures Small(r)
  {
    forall i | 0 <= i < |r|
      ensures r[i].keyCount <= MAX_KEYS
    {
      assert r[i] in multiset(r) && r[i] in v;
    }
  }
}
