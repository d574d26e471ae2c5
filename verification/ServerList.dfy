/**
 The server list (serverManager/ServerList.cpp): the servers by name, kept in agreement with
 the installed distribution algorithm.

 The virtual dispatch of DistributeAlgorithm is a match over the three implementations.
 Locking, sockets and the signals of the source are not part of the list's state.
 */
module ServerList {
  import opened Collections
  import opened Servers
  import Memo = MemoDistri
  import Modulo = ModuloDistri
  import Consistent = ConsistentHashDistri
  import HashRing

  datatype Algorithm =
    | NoAlgorithm
    | UseModulo(modulo: Modulo.ModuloDistri)
    | UseMemo(memo: Memo.MemoDistri)
    | UseRing(ring: Consistent.ConsistentHashDistri)
  {
    ghost function Repr(): set<object> {
      match this
      case NoAlgorithm => {}
      case UseModulo(m) => {m}
      case UseMemo(m) => {m}
      case UseRing(r) => {r}
    }

    ghost predicate Valid()
      reads Repr()
    {
      match this
      case NoAlgorithm => true
      case UseModulo(m) => NoDuplicates(m.servers)
      case UseMemo(m) =>
        Memo.Concentrated(m.Value()) && Memo.Distinct(multiset(m.infos)) && |m.memo| <= Memo.MAX_KEYS
      case UseRing(r) => r.Valid()
    }

    // The servers that an answer can be.
    ghost predicate Contains(s: Server)
      reads Repr()
    {
      match this
      case NoAlgorithm => false
      case UseModulo(m) => s in m.servers
      case UseMemo(m) => Memo.Listed(multiset(m.infos), s)
      case UseRing(r) => exists p :: p in r.circle && r.circle[p] == s
    }

    ghost predicate Empty()
      reads Repr()
    {
      match this
      case NoAlgorithm => true
      case UseModulo(m) => m.servers == []
      case UseMemo(m) => m.infos == [] && m.memo == map[]
      case UseRing(r) => r.circle == map[]
    }

    // The points that the ring gives to each server; the other algorithms have none.
    ghost function RingPoints(): Server -> set<int> {
      if UseRing? then Consistent.PointsFor(ring.replications) else _ => {}
    }

    // The circle of a ring.
    ghost function Circle(): HashRing.Ring
      reads Repr()
    {
      if UseRing? then ring.circle else map[]
    }

    // A ring can lose servers to colliding points; the other two list every server added.
    predicate Exact() {
      !UseRing?
    }
  }

  const MAX_NAME: nat := 0x8000_0000

  ghost predicate Acceptable(s: Server) {
    |s.Name()| < MAX_NAME && s.weight == 1
  }

  method AddTo(a: Algorithm, server: Server)
    requires a.Valid() && Acceptable(server) && !a.Contains(server)
    modifies a.Repr()
    ensures a.Valid()
    ensures forall t :: a.Contains(t) ==> old(a.Contains(t)) || t == server
    ensures a.Exact() && a != NoAlgorithm ==> forall t :: old(a.Contains(t)) || t == server ==> a.Contains(t)
    ensures a.UseRing? ==> a.Circle() == HashRing.AddPoints(old(a.Circle()), a.RingPoints()(server), server)
    ensures a.UseModulo? ==> a.modulo.servers == old(a.modulo.servers) + [server]
    ensures a.UseMemo? ==> a.memo.memo == old(a.memo.memo)
  {
    match a
    case NoAlgorithm =>
    case UseModulo(m) =>
      m.Add(server);
    case UseMemo(m) =>
      ghost var s := m.Value();
      m.Add(server);
      forall t
        ensures Memo.Listed(multiset(m.infos), t) <==> Memo.Listed(multiset(s.infos), t) || t == server
      {
        Memo.StepMembers(s, Memo.AddServer(server), m.Value(), None, t);
      }
      Memo.StepMembers(s, Memo.AddServer(server), m.Value(), None, server);
    case UseRing(r) =>
      r.Add(server);
  }

  // The server is taken out of its place, and the others stay in order.
  ghost predicate Erased(before: seq<Server>, server: Server, after: seq<Server>) {
    if server in before then
      exists k :: 0 <= k < |before| && before[k] == server && after == before[..k] + before[k + 1..]
    else after == before
  }

  // The memo entries of the other servers stay, and those of the server are gone.
  ghost predicate KeptFor(before: map<int, Server>, server: Server, after: map<int, Server>) {
    && (forall h :: h in after <==> h in before && before[h] != server)
    && (forall h :: h in after ==> after[h] == before[h])
  }

  method RemoveFrom(a: Algorithm, server: Server)
    requires a.Valid()
    modifies a.Repr()
    ensures a.Valid()
    ensures forall t :: a.Contains(t) <==> old(a.Contains(t)) && t != server
    ensures a.UseRing? ==> a.Circle() == HashRing.DropServer(old(a.Circle()), server)
    ensures a.UseModulo? ==> Erased(old(a.modulo.servers), server, a.modulo.servers)
    ensures a.UseMemo? ==> KeptFor(old(a.memo.memo), server, a.memo.memo)
  {
    match a
    case NoAlgorithm =>
    case UseModulo(m) =>
      ghost var before := m.servers;
      m.Remove(server);
      if server in before {
        ghost var k :| 0 <= k < |before| && before[k] == server && m.servers == before[..k] + before[k + 1..];
        Modulo.RemovedMembers(before, k);
      }
    case UseMemo(m) =>
      ghost var s := m.Value();
      m.Remove(server);
      forall t
        ensures Memo.Listed(multiset(m.infos), t) <==> Memo.Listed(multiset(s.infos), t) && t != server
      {
        Memo.StepMembers(s, Memo.RemoveServer(server), m.Value(), None, t);
      }
      Memo.StepMembers(s, Memo.RemoveServer(server), m.Value(), None, server);
      Memo.ForgetSmaller(s.memo, server);
    case UseRing(r) =>
      ghost var before := r.circle;
      r.Remove(server);
      forall t
        ensures a.Contains(t) <==> (exists p :: p in before && before[p] == t) && t != server
      {
        if p :| p in before && before[p] == t && t != server {
          assert p in r.circle && r.circle[p] == t;
        }
      }
  }

  // The server at the hash modulo the length.
  ghost predicate ModuloAnswer(servers: seq<Server>, hash: nat, answer: Option<Server>) {
    if servers == [] then answer == None else answer == Some(servers[hash % |servers|])
  }

  // The front server of the memo's vector; it is memoised for the hash afterwards, and was before
  // if any server was.  Nothing else is memoised or forgotten.
  ghost predicate MemoAnswer(s: Memo.State, hash: nat, s': Memo.State, answer: Option<Server>) {
    if s.infos == [] then answer == None && s'.memo == s.memo && s'.infos == []
    else
      && answer == Some(s.infos[0].server) && s'.infos != [] && s'.infos[0].server == s.infos[0].server
      && s'.memo == s.memo[hash := s.infos[0].server]
      && (hash in s.memo ==> s.memo[hash] == s.infos[0].server)
  }

  method GetFrom(a: Algorithm, hash: nat) returns (answer: Option<Server>)
    requires a.Valid() && a != NoAlgorithm && hash < HashRing.SPACE
    requires a.UseMemo? ==> |a.memo.memo| < Memo.MAX_KEYS
    modifies a.Repr()
    ensures a.Valid()
    ensures forall t :: a.Contains(t) <==> old(a.Contains(t))
    ensures answer.Some? ==> a.Contains(answer.value)
    ensures answer == None ==> forall t :: !a.Contains(t)
    ensures a.Circle() == old(a.Circle())
    ensures a.UseModulo? ==> a.modulo.servers == old(a.modulo.servers) && ModuloAnswer(a.modulo.servers, hash, answer)
    ensures a.UseMemo? ==> MemoAnswer(old(a.memo.Value()), hash, a.memo.Value(), answer)
    ensures a.UseRing? ==> if answer.Some? then HashRing.Owns(a.Circle(), hash, answer.value) else a.Circle() == map[]
  {
    match a
    case UseModulo(m) =>
      answer := m.Get(hash);
    case UseMemo(m) =>
      ghost var s := m.Value();
      answer := m.Get(hash);
      forall t
        ensures Memo.Listed(multiset(m.infos), t) <==> Memo.Listed(multiset(s.infos), t)
      {
        Memo.StepMembers(s, Memo.GetServer(hash), m.Value(), answer, t);
      }
      Memo.StepMembers(s, Memo.GetServer(hash), m.Value(), answer, Server(0, "", 0, 1));
      Memo.StepConcentrated(s, Memo.GetServer(hash), m.Value(), answer);
      Memo.LookupIs(s, hash, m.Value(), answer);
      Memo.GetGrowsByOne(s, hash, m.Value(), answer);
      if s.infos != [] {
        assert s.infos[0] in multiset(s.infos);
      }
    case UseRing(r) =>
      answer := r.Get(hash);
  }

  method ClearAll(a: Algorithm)
    requires a.Valid()
    modifies a.Repr()
    ensures a.Valid()
    ensures a.UseModulo? ==> a.modulo.servers == old(a.modulo.servers)
    ensures !a.UseModulo? ==> a.Empty()
  {
    match a
    case NoAlgorithm =>
    case UseModulo(m) => m.Clear();
    case UseMemo(m) => m.Clear();
    case UseRing(r) => r.Clear();
  }

  lemma NothingInside(a: Algorithm)
    requires a.Empty()
    ensures (forall t :: !a.Contains(t)) && a.Circle() == map[]
  {}

  // ----- The list -----

  // The operations on a list while one algorithm is installed.
  datatype ListOp = AddOp(host: string, port: nat) | RemoveOp(host: string, port: nat) | LookUp(key: string)

  ghost predicate Holds(servers: map<string, Server>, s: Server) {
    exists k :: k in servers && servers[k] == s
  }

  lemma Fewer(memo: map<int, Server>, memo': map<int, Server>)
    requires forall h :: h in memo' ==> h in memo
    ensures |memo'| <= |memo|
  {
    forall h | h in memo'.Keys
      ensures h in memo.Keys
    {
      assert h in memo';
    }
    SubsetSize(memo'.Keys, memo.Keys);
  }

  lemma OneMore(memo: map<int, Server>, hash: int, memo': map<int, Server>)
    requires forall h :: h in memo' ==> h in memo || h == hash
    ensures |memo'| <= |memo| + 1
  {
    forall h | h in memo'.Keys
      ensures h in memo.Keys + {hash}
    {
      assert h in memo';
    }
    SubsetSize(memo'.Keys, memo.Keys + {hash});
  }

  lemma HoldsMore(servers: map<string, Server>, key: string, item: Server, s: Server)
    requires key !in servers
    ensures Holds(servers[key := item], s) <==> Holds(servers, s) || s == item
  {
    var servers' := servers[key := item];
    if k :| k in servers && servers[k] == s {
      assert k in servers' && servers'[k] == s;
    }
    assert servers'[key] == item;
  }

  lemma HoldsLess(servers: map<string, Server>, key: string, s: Server)
    requires key in servers && forall k :: k in servers ==> servers[k].Name() == k
    ensures Holds(servers - {key}, s) <==> Holds(servers, s) && s != servers[key]
  {
    if k :| k in servers && servers[k] == s && s != servers[key] {
      assert k in servers - {key} && (servers - {key})[k] == s;
    }
  }

  class ServerList {
    var servers: map<string, Server>
    var algorithm: Algorithm
    var hashFunc: string -> nat
    var nextHandle: nat

    // What has happened to the servers since the algorithm was installed, as a ring sees it.
    ghost var history: seq<HashRing.Op>

    // Each server stands under its own name and has a handle already given out.
    ghost predicate ListOk()
      reads this
    {
      forall k :: k in servers ==> servers[k].Name() == k && servers[k].handle < nextHandle && Acceptable(servers[k])
    }

    ghost predicate Live(s: Server)
      reads this
    {
      Holds(servers, s)
    }

    // The installed algorithm answers only live servers, and an exact one lists all of them.
    ghost predicate Agrees()
      reads this, algorithm.Repr()
    {
      && algorithm.Valid()
      && (forall t :: algorithm.Contains(t) ==> Live(t))
      && (algorithm.Exact() && algorithm != NoAlgorithm ==> forall t :: Live(t) ==> algorithm.Contains(t))
      && (algorithm.UseRing? ==> algorithm.Circle() == HashRing.Replay(algorithm.RingPoints(), history))
      && (forall t :: t in HashRing.Live(history) <==> Live(t))
    }

    ghost predicate Valid()
      reads this, algorithm.Repr()
    {
      ListOk() && this !in algorithm.Repr() && Agrees()
    }

    constructor (hash: string -> nat)
      ensures Valid() && servers == map[] && algorithm == NoAlgorithm && hashFunc == hash
    {
      servers, algorithm, hashFunc, nextHandle, history := map[], NoAlgorithm, hash, 0, [];
    }

    method Add(host: string, port: nat) returns (added: bool)
      requires Valid() && algorithm != NoAlgorithm && |ServerName(host, port)| < MAX_NAME
      modifies this`servers, this`nextHandle, this`history, algorithm.Repr()
      ensures Valid()
      ensures added <==> ServerName(host, port) !in old(servers)
      ensures !added ==> servers == old(servers)
      ensures added ==> servers == old(servers)[ServerName(host, port) := Server(old(nextHandle), host, port, 1)]
      ensures history ==
              if added then old(history) + [HashRing.AddServer(servers[ServerName(host, port)])] else old(history)
      ensures added && algorithm.UseModulo? ==>
                algorithm.modulo.servers == old(algorithm.modulo.servers) + [servers[ServerName(host, port)]]
      ensures algorithm.UseMemo? ==> algorithm.memo.memo == old(algorithm.memo.memo)
      ensures added && algorithm.UseRing? ==>
                var item := Server(old(nextHandle), host, port, 1);
                algorithm.Circle() == HashRing.AddPoints(old(algorithm.Circle()), algorithm.RingPoints()(item), item)
    {
      hide Algorithm.Contains, Algorithm.Valid, Algorithm.Circle, Algorithm.RingPoints, Holds;
      hide HashRing.Live, HashRing.Replay, HashRing.AddPoints;
      var key := ServerName(host, port);
      added := key !in servers;
      if added {
        var item := Server(nextHandle, host, port, 1);
        ghost var before := servers;
        assert !Live(item) by { NewHandle(item); }
        AddTo(algorithm, item);
        HashRing.ReplayNext(algorithm.RingPoints(), history, HashRing.AddServer(item));
        history := history + [HashRing.AddServer(item)];
        servers, nextHandle := servers[key := item], nextHandle + 1;
        forall t
          ensures Live(t) <==> Holds(before, t) || t == item
        {
          HoldsMore(before, key, item, t);
        }
      }
    }

    method Remove(host: string, port: nat) returns (removed: bool)
      requires Valid() && algorithm != NoAlgorithm
      modifies this`servers, this`history, algorithm.Repr()
      ensures Valid()
      ensures removed <==> ServerName(host, port) in old(servers)
      ensures servers == old(servers) - {ServerName(host, port)}
      ensures history ==
              if removed then old(history) + [HashRing.RemoveServer(old(servers)[ServerName(host, port)])]
              else old(history)
      ensures removed && algorithm.UseModulo? ==>
                Erased(old(algorithm.modulo.servers), old(servers)[ServerName(host, port)], algorithm.modulo.servers)
      ensures algorithm.UseMemo? ==>
                if removed
                then KeptFor(old(algorithm.memo.memo), old(servers)[ServerName(host, port)], algorithm.memo.memo)
                else algorithm.memo.memo == old(algorithm.memo.memo)
      ensures removed && algorithm.UseRing? ==>
                algorithm.Circle() == HashRing.DropServer(old(algorithm.Circle()), old(servers)[ServerName(host, port)])
    {
      hide Algorithm.Contains, Algorithm.Valid, Algorithm.Circle, Algorithm.RingPoints, Holds;
      hide HashRing.Live, HashRing.Replay, HashRing.DropServer;
      var key := ServerName(host, port);
      removed := key in servers;
      if removed {
        ghost var before := servers;
        RemoveFrom(algorithm, servers[key]);
        HashRing.ReplayNext(algorithm.RingPoints(), history, HashRing.RemoveServer(servers[key]));
        history := history + [HashRing.RemoveServer(servers[key])];
        servers := servers - {key};
        forall t
          ensures Live(t) <==> Holds(before, t) && t != before[key]
        {
          HoldsLess(before, key, t);
        }
      }
    }

    lemma NewHandle(item: Server)
      requires ListOk() && item.handle == nextHandle
      ensures !Live(item)
    {}

    // A lookup never answers a server that is not in the list; with the modulo and the memo
    // algorithm it answers exactly when the list is not empty.
    method Get(key: string) returns (answer: Option<Server>)
      requires Valid() && algorithm != NoAlgorithm && hashFunc(key) < HashRing.SPACE
      requires algorithm.UseMemo? ==> |algorithm.memo.memo| < Memo.MAX_KEYS
      modifies algorithm.Repr()
      ensures Valid()
      ensures answer.Some? ==> Live(answer.value)
      ensures algorithm.Exact() ==> (answer.Some? <==> exists t :: Live(t))
      ensures algorithm.UseModulo? ==>
                algorithm.modulo.servers == old(algorithm.modulo.servers) &&
                ModuloAnswer(algorithm.modulo.servers, hashFunc(key), answer)
      ensures algorithm.UseMemo? ==>
                MemoAnswer(old(algorithm.memo.Value()), hashFunc(key), algorithm.memo.Value(), answer)
      ensures algorithm.UseRing? && answer.Some? ==> HashRing.Owns(algorithm.Circle(), hashFunc(key), answer.value)
      ensures algorithm.UseRing? && HashRing.AddedFree(algorithm.RingPoints(), history) ==>
                if answer.Some?
                then HashRing.Picked(algorithm.RingPoints(), HashRing.Live(history), hashFunc(key), answer.value)
                else forall t :: Live(t) ==> algorithm.RingPoints()(t) == {}
    {
      hide Algorithm.Contains, Algorithm.Valid, Algorithm.Circle, Algorithm.RingPoints, Holds;
      hide HashRing.Live, HashRing.Replay, HashRing.Owns, HashRing.Picked, HashRing.AddedFree;
      answer := GetFrom(algorithm, hashFunc(key));
      if algorithm.UseRing? && HashRing.AddedFree(algorithm.RingPoints(), history) {
        RingAnswer(hashFunc(key), answer);
      }
    }

    // A run of operations with the memo algorithm: a memoised key keeps its server, and every lookup
    // of it answers that server, unless the run removes the server.
    method RunMemo(ops: seq<ListOp>, ghost hash: nat) returns (answers: seq<Option<Server>>)
      requires Valid() && algorithm.UseMemo? && |algorithm.memo.memo| + |ops| <= Memo.MAX_KEYS
      requires forall op :: op in ops && op.AddOp? ==> |ServerName(op.host, op.port)| < MAX_NAME
      requires forall op :: op in ops && op.LookUp? ==> hashFunc(op.key) < HashRing.SPACE
      requires hash in algorithm.memo.memo
      requires forall op :: op in ops && op.RemoveOp? ==>
                 ServerName(op.host, op.port) != algorithm.memo.memo[hash].Name()
      modifies this`servers, this`nextHandle, this`history, algorithm.Repr()
      ensures Valid() && |answers| == |ops|
      ensures hash in algorithm.memo.memo && algorithm.memo.memo[hash] == old(algorithm.memo.memo[hash])
      ensures forall i :: 0 <= i < |ops| && ops[i].LookUp? && hashFunc(ops[i].key) == hash ==>
                answers[i] == Some(old(algorithm.memo.memo[hash]))
    {
      hide Holds, HashRing.Live, HashRing.Replay, Memo.Concentrated, Memo.Distinct;
      answers := [];
      ghost var server := algorithm.memo.memo[hash];
      for i := 0 to |ops|
        invariant Valid() && |answers| == i && |algorithm.memo.memo| + |ops| - i <= Memo.MAX_KEYS
        invariant hash in algorithm.memo.memo && algorithm.memo.memo[hash] == server
        invariant forall j :: 0 <= j < i && ops[j].LookUp? && hashFunc(ops[j].key) == hash ==>
                    answers[j] == Some(server)
      {
        assert ops[i] in ops;
        var answer := RunOp(ops[i], hash);
        answers := answers + [answer];
      }
    }

    method RunOp(op: ListOp, ghost hash: nat) returns (answer: Option<Server>)
      requires Valid() && algorithm.UseMemo? && |algorithm.memo.memo| < Memo.MAX_KEYS
      requires op.AddOp? ==> |ServerName(op.host, op.port)| < MAX_NAME
      requires op.LookUp? ==> hashFunc(op.key) < HashRing.SPACE
      requires hash in algorithm.memo.memo
      requires op.RemoveOp? ==> ServerName(op.host, op.port) != algorithm.memo.memo[hash].Name()
      modifies this`servers, this`nextHandle, this`history, algorithm.Repr()
      ensures Valid() && |algorithm.memo.memo| <= |old(algorithm.memo.memo)| + 1
      ensures hash in algorithm.memo.memo && algorithm.memo.memo[hash] == old(algorithm.memo.memo[hash])
      ensures op.LookUp? && hashFunc(op.key) == hash ==> answer == Some(old(algorithm.memo.memo[hash]))
    {
      ghost var memo := algorithm.memo.memo;
      answer := None;
      match op
      case AddOp(host, port) =>
        var _ := Add(host, port);
      case RemoveOp(host, port) =>
        if ServerName(host, port) in servers {
          StandsUnder(host, port);
        }
        var removed := Remove(host, port);
        if removed {
          Fewer(memo, algorithm.memo.memo);
        }
      case LookUp(key) =>
        MemoServers();
        answer := Get(key);
        OneMore(memo, hashFunc(key), algorithm.memo.memo);
    }

    lemma StandsUnder(host: string, port: nat)
      requires Valid() && ServerName(host, port) in servers
      ensures servers[ServerName(host, port)].Name() == ServerName(host, port)
    {}

    lemma MemoServers()
      requires Valid() && algorithm.UseMemo?
      ensures algorithm.memo.memo != map[] ==> algorithm.memo.infos != []
    {}

    lemma RingAnswer(hash: nat, answer: Option<Server>)
      requires Valid() && algorithm.UseRing? && HashRing.AddedFree(algorithm.RingPoints(), history)
      requires answer.Some? ==> HashRing.Owns(algorithm.Circle(), hash, answer.value)
      requires answer == None ==> algorithm.Circle() == map[]
      ensures if answer.Some?
              then HashRing.Picked(algorithm.RingPoints(), HashRing.Live(history), hash, answer.value)
              else forall t :: Live(t) ==> algorithm.RingPoints()(t) == {}
    {
      hide Algorithm.Contains, Algorithm.Valid, Algorithm.Circle, Algorithm.RingPoints, Holds;
      hide HashRing.Live, HashRing.Owns, HashRing.Picked, HashRing.AddedFree, HashRing.RingOf;
      RingOfLive();
      var (points, live) := (algorithm.RingPoints(), HashRing.Live(history));
      if answer.Some? {
        HashRing.OwnerIsPicked(points, algorithm.Circle(), live, hash, answer.value);
      } else {
        forall t | Live(t)
          ensures points(t) == {}
        {
          HashRing.NothingToPick(points, live, t);
        }
      }
    }

    // In every run in which each server is added with points disjoint from those of the other live
    // servers, the ring holds the points of exactly the live servers, each owned by its own server.
    lemma RingOfLive()
      requires Valid() && algorithm.UseRing? && HashRing.AddedFree(algorithm.RingPoints(), history)
      ensures HashRing.RingOf(algorithm.RingPoints(), algorithm.Circle(), HashRing.Live(history))
      ensures forall t :: t in HashRing.Live(history) <==> Live(t)
    {
      HashRing.ReplayIsRingOfLive(algorithm.RingPoints(), history);
    }

    method GetByAddress(host: string, port: nat) returns (answer: Option<Server>)
      requires Valid()
      ensures answer.Some? <==> ServerName(host, port) in servers
      ensures answer.Some? ==>
                answer.value == servers[ServerName(host, port)] && answer.value.Name() == ServerName(host, port)
    {
      var key := ServerName(host, port);
      answer := if key in servers then Some(servers[key]) else None;
    }

    // Installing an empty algorithm other than the current one; the old one is cleared.
    method SetDistributeAlgorithm(next: Algorithm) returns (previous: Algorithm)
      requires Valid() && next != NoAlgorithm && next.Valid() && next.Empty()
      requires this !in next.Repr() && next.Repr() !! algorithm.Repr()
      modifies this`algorithm, this`history, next.Repr(), algorithm.Repr()
      ensures Valid() && algorithm == next && previous == old(algorithm)
      ensures !previous.UseModulo? ==> previous.Empty()
    {
      hide Algorithm.Contains, Algorithm.Valid, Algorithm.Empty, Algorithm.Circle, Algorithm.RingPoints;
      previous := algorithm;
      algorithm := next;
      history := AddServers(next);
      ClearAll(previous);
    }

    // Adds every server of the list to an algorithm that lists none.
    method AddServers(next: Algorithm) returns (ghost ops: seq<HashRing.Op>)
      requires ListOk() && next.Valid() && this !in next.Repr() && next.Empty()
      modifies next.Repr()
      ensures next.Valid()
      ensures forall t :: next.Contains(t) ==> Live(t)
      ensures next.Exact() && next != NoAlgorithm ==> forall t :: Live(t) ==> next.Contains(t)
      ensures next.UseRing? ==> next.Circle() == HashRing.Replay(next.RingPoints(), ops)
      ensures forall t :: t in HashRing.Live(ops) <==> Live(t)
    {
      StartAdding(next);
      hide Adding;
      ops := [];
      var todo := servers.Keys;
      while exists k :: k in todo
        invariant todo <= servers.Keys && Adding(next, todo, ops)
        decreases todo
      {
        var k :| k in todo;
        ops := AddOne(next, k, todo, ops);
        todo := todo - {k};
      }
      DoneAdding(next, todo, ops);
    }

    method AddOne(next: Algorithm, k: string, ghost todo: set<string>, ghost ops: seq<HashRing.Op>)
      returns (ghost ops': seq<HashRing.Op>)
      requires ListOk() && this !in next.Repr() && k in todo && k in servers && Adding(next, todo, ops)
      modifies next.Repr()
      ensures Adding(next, todo - {k}, ops')
    {
      hide Algorithm.Contains, Algorithm.Valid, Algorithm.Circle, Algorithm.RingPoints, Done;
      hide HashRing.AddPoints, HashRing.Live, HashRing.Replay;
      DoneNext(todo, k);
      assert !next.Contains(servers[k]);
      AddTo(next, servers[k]);
      HashRing.ReplayNext(next.RingPoints(), ops, HashRing.AddServer(servers[k]));
      ops' := ops + [HashRing.AddServer(servers[k])];
    }

    // The servers under the names that are not in the set have been added.
    ghost predicate Adding(next: Algorithm, todo: set<string>, ops: seq<HashRing.Op>)
      reads this, next.Repr()
    {
      && next.Valid() && (forall t :: next.Contains(t) ==> Done(todo, t))
      && (next.Exact() && next != NoAlgorithm ==> forall t :: Done(todo, t) ==> next.Contains(t))
      && (next.UseRing? ==> next.Circle() == HashRing.Replay(next.RingPoints(), ops))
      && (forall t :: t in HashRing.Live(ops) <==> Done(todo, t))
    }

    lemma StartAdding(next: Algorithm)
      requires next.Valid() && next.Empty()
      ensures Adding(next, servers.Keys, [])
    {
      NothingInside(next);
      HashRing.NoHistory(next.RingPoints());
      hide Algorithm.Contains, Algorithm.Valid, Algorithm.Empty, Algorithm.Circle, Algorithm.RingPoints;
    }

    lemma DoneAdding(next: Algorithm, todo: set<string>, ops: seq<HashRing.Op>)
      requires Adding(next, todo, ops) && forall k :: k !in todo
      ensures next.Valid() && (forall t :: next.Contains(t) ==> Live(t))
      ensures next.Exact() && next != NoAlgorithm ==> forall t :: Live(t) ==> next.Contains(t)
      ensures next.UseRing? ==> next.Circle() == HashRing.Replay(next.RingPoints(), ops)
      ensures forall t :: t in HashRing.Live(ops) <==> Live(t)
    {
      hide Algorithm.Contains, Algorithm.Valid, Algorithm.Circle, Algorithm.RingPoints, HashRing.Live, HashRing.Replay;
      forall t
        ensures Done(todo, t) <==> Live(t)
      {}
      hide Done, Holds;
    }

    // The server stands under a name that is not in the set.
    ghost predicate Done(todo: set<string>, s: Server)
      reads this
    {
      exists k :: k in servers && k !in todo && servers[k] == s
    }

    lemma DoneNext(todo: set<string>, k: string)
      requires ListOk() && k in todo && k in servers
      ensures !Done(todo, servers[k])
      ensures forall t :: Done(todo - {k}, t) <==> Done(todo, t) || t == servers[k]
    {
      forall t
        ensures Done(todo - {k}, t) <==> Done(todo, t) || t == servers[k]
      {
        if n :| n in servers && n !in todo && servers[n] == t {
          assert n !in todo - {k};
        }
        assert k !in todo - {k};
      }
    }
  }

  lemma PointsForByName(replications: int)
    ensures HashRing.PointsByName(Consistent.PointsFor(replications))
  {
    hide Consistent.Rounds, Consistent.Point;
    var points := Consistent.PointsFor(replications);
    forall s, t | HashRing.Alike(s, t)
      ensures points(s) == points(t)
    {
      if replications * s.weight < 0x8000_0000 {
        SamePoints(s, t, Consistent.Rounds(replications * s.weight));
      }
    }
  }

  lemma SamePoints(s: Server, t: Server, rounds: nat)
    requires s.Name() == t.Name()
    ensures Consistent.Points(s, rounds) == Consistent.Points(t, rounds)
  {
    hide Consistent.Point;
    assert forall i: nat :: Consistent.DigestOf(s, i) == Consistent.DigestOf(t, i);
    var (a, b) := (Consistent.Points(s, rounds), Consistent.Points(t, rounds));
    assert forall p :: p in a <==> p in b;
  }

  // The names of the first list stand in the second one too.
  lemma NamesRepresented(a: ServerList, b: ServerList)
    requires a.Valid() && b.Valid() && forall k :: k in a.servers ==> k in b.servers
    ensures HashRing.Represented(HashRing.Live(a.history), HashRing.Live(b.history))
  {
    hide HashRing.Live, Algorithm.Contains, Algorithm.Valid, Algorithm.Circle, Algorithm.RingPoints;
    forall s | s in HashRing.Live(a.history)
      ensures exists t :: t in HashRing.Live(b.history) && HashRing.Alike(s, t)
    {
      assert a.Live(s);
      var k :| k in a.servers && a.servers[k] == s;
      var t := b.servers[k];
      assert b.Live(t);
      assert t in HashRing.Live(b.history) && HashRing.Alike(s, t);
    }
  }

  // The two rings give the same points to servers of the same names.
  lemma SameNamesCovered(a: ServerList, b: ServerList)
    requires a.Valid() && b.Valid() && a.algorithm.UseRing? && b.algorithm.UseRing?
    requires a.algorithm.ring.replications == b.algorithm.ring.replications
    requires HashRing.AddedFree(a.algorithm.RingPoints(), a.history)
    requires HashRing.AddedFree(b.algorithm.RingPoints(), b.history)
    requires forall k :: k in a.servers ==> k in b.servers
    ensures HashRing.Covered(a.algorithm.Circle(), b.algorithm.Circle())
  {
    var points := Consistent.PointsFor(a.algorithm.ring.replications);
    PointsForByName(a.algorithm.ring.replications);
    NamesRepresented(a, b);
    a.RingOfLive();
    b.RingOfLive();
    var (live, live') := (HashRing.Live(a.history), HashRing.Live(b.history));
    assert a.algorithm.RingPoints() == points && b.algorithm.RingPoints() == points;
    hide HashRing.RingOf, HashRing.PointsByName, HashRing.Represented, HashRing.Covered;
    HashRing.CoveredByName(points, a.algorithm.Circle(), b.algorithm.Circle(), live, live');
  }

  // Two lists with rings of the same replications and the same names answer servers of the same
  // name for every hash, whatever happened before: servers removed and added again, in other
  // orders and on other turns.  No two servers that are live together share a point.
  lemma SameNamesSameAnswers(a: ServerList, b: ServerList, hash: nat, s: Server)
    requires a.Valid() && b.Valid() && a.algorithm.UseRing? && b.algorithm.UseRing?
    requires a.algorithm.ring.replications == b.algorithm.ring.replications
    requires HashRing.AddedFree(a.algorithm.RingPoints(), a.history)
    requires HashRing.AddedFree(b.algorithm.RingPoints(), b.history)
    requires forall k :: k in a.servers <==> k in b.servers
    requires HashRing.Owns(a.algorithm.Circle(), hash, s)
    ensures exists t :: HashRing.Owns(b.algorithm.Circle(), hash, t) && t.Name() == s.Name()
    ensures forall t :: HashRing.Owns(b.algorithm.Circle(), hash, t) ==> t.Name() == s.Name()
  {
    SameNamesCovered(a, b);
    SameNamesCovered(b, a);
    HashRing.SameAnswers(a.algorithm.Circle(), b.algorithm.Circle(), hash, s);
    RingInSpace(b);
    hide HashRing.Covered;
    forall t | HashRing.Owns(b.algorithm.Circle(), hash, t)
      ensures t.Name() == s.Name()
    {
      var t' :| HashRing.Owns(b.algorithm.Circle(), hash, t') && HashRing.Alike(s, t');
      HashRing.OneOwner(b.algorithm.Circle(), hash, t, t');
    }
  }

  lemma RingInSpace(a: ServerList)
    requires a.Valid() && a.algorithm.UseRing?
    ensures HashRing.InSpace(a.algorithm.Circle())
  {
    Consistent.SpeltInSpace(a.algorithm.ring.circle);
  }

  // With the same server objects even the rings are the same.
  lemma SameServersSameRing(a: ServerList, b: ServerList)
    requires a.Valid() && b.Valid() && a.algorithm.UseRing? && b.algorithm.UseRing?
    requires a.algorithm.ring.replications == b.algorithm.ring.replications
    requires HashRing.AddedFree(a.algorithm.RingPoints(), a.history)
    requires HashRing.AddedFree(b.algorithm.RingPoints(), b.history)
    requires forall t :: a.Live(t) <==> b.Live(t)
    ensures a.algorithm.ring.circle == b.algorithm.ring.circle
  {
    assert HashRing.Live(a.history) == HashRing.Live(b.history);
    HashRing.HistoryIndependent(a.algorithm.RingPoints(), a.history, b.history);
  }
}
