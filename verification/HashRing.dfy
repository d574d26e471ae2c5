/**
 The ring of a consistent-hash distribution as a value: which point owns a hash, what adding
 and removing a server do to the owners, and how a ring depends on its history.
 */
module HashRing {
  import opened Servers

  const SPACE: int := 0x1_0000_0000_0000_0000

  type Ring = map<int, Server>

  predicate InSpace(ring: Ring) {
    forall p :: p in ring ==> 0 <= p < SPACE
  }

  // How far the ring has to be followed upwards, wrapping, from a hash to a point.
  function Distance(hash: int, p: int): int {
    (p - hash) % SPACE
  }

  // The owning point: the nearest one, going upwards and wrapping.
  ghost predicate Nearest(ring: Ring, hash: int, p: int) {
    p in ring && forall q :: q in ring ==> Distance(hash, p) <= Distance(hash, q)
  }

  // The server that a lookup answers.
  ghost predicate Owns(ring: Ring, hash: int, s: Server) {
    exists p :: Nearest(ring, hash, p) && ring[p] == s
  }

  lemma DistanceInjective(hash: int, p: int, q: int)
    requires 0 <= p < SPACE && 0 <= q < SPACE && Distance(hash, p) == Distance(hash, q)
    ensures p == q
  {
    var (i, j) := ((p - hash) / SPACE, (q - hash) / SPACE);
    assert p - q == SPACE * (i - j);
  }

  lemma NearestUnique(ring: Ring, hash: int, p: int, q: int)
    requires InSpace(ring) && Nearest(ring, hash, p) && Nearest(ring, hash, q)
    ensures p == q
  {
    DistanceInjective(hash, p, q);
  }

  lemma OneOwner(ring: Ring, hash: int, s: Server, t: Server)
    requires InSpace(ring) && Owns(ring, hash, s) && Owns(ring, hash, t)
    ensures s == t
  {
    var p :| Nearest(ring, hash, p) && ring[p] == s;
    var q :| Nearest(ring, hash, q) && ring[q] == t;
    NearestUnique(ring, hash, p, q);
  }

  // The nearest point is the least one not below the hash, or else the least of all.
  lemma NearestIsSuccessor(ring: Ring, hash: int, p: int)
    requires InSpace(ring) && 0 <= hash < SPACE && p in ring
    requires if exists q :: q in ring && q >= hash
             then p >= hash && forall q :: q in ring && q >= hash ==> p <= q
             else forall q :: q in ring ==> p <= q
    ensures Nearest(ring, hash, p)
  {
    forall q | q in ring
      ensures Distance(hash, p) <= Distance(hash, q)
    {
      DistanceCases(hash, p);
      DistanceCases(hash, q);
    }
  }

  lemma DistanceCases(hash: int, p: int)
    requires 0 <= hash < SPACE && 0 <= p < SPACE
    ensures Distance(hash, p) == if p >= hash then p - hash else p - hash + SPACE
  {}

  // ----- Adding and removing a server -----

  function AddPoints(ring: Ring, points: set<int>, server: Server): Ring {
    ring + map p | p in points :: server
  }

  function DropServer(ring: Ring, server: Server): Ring {
    map p | p in ring && ring[p] != server :: ring[p]
  }

  // After adding a server, the owner of a hash is that server or the owner it had before.
  lemma AddMovesOnlyToServer(ring: Ring, points: set<int>, server: Server, hash: int, p: int, p': int)
    requires InSpace(ring) && Nearest(ring, hash, p)
    requires Nearest(AddPoints(ring, points, server), hash, p')
    ensures var ring' := AddPoints(ring, points, server);
            ring'[p'] == server || ring'[p'] == ring[p]
  {
    var ring' := AddPoints(ring, points, server);
    if p' !in points {
      assert forall q :: q in ring ==> q in ring';
      assert Nearest(ring, hash, p');
      NearestUnique(ring, hash, p, p');
    }
  }

  // Removing a server keeps the owner of every hash that it did not own.
  lemma RemoveMovesOnlyFromServer(ring: Ring, server: Server, hash: int, p: int)
    requires Nearest(ring, hash, p) && ring[p] != server
    ensures var ring' := DropServer(ring, server);
            Nearest(ring', hash, p) && ring'[p] == ring[p]
  {}

  // Adding a server and removing it again is the identity exactly when the server was not
  // there and none of its points was taken.
  lemma AddThenRemove(ring: Ring, points: set<int>, server: Server)
    ensures DropServer(AddPoints(ring, points, server), server) == ring <==>
            (forall p :: p in ring ==> ring[p] != server && p !in points)
  {
    var ring' := AddPoints(ring, points, server);
    var back := DropServer(ring', server);
    if forall p :: p in ring ==> ring[p] != server && p !in points {
      assert forall p :: p in back <==> p in ring;
      assert forall p :: p in back ==> back[p] == ring[p];
    } else {
      var p :| p in ring && (ring[p] == server || p in points);
      assert p !in back;
    }
  }

  // Two servers can be added in either order exactly when they share no point.
  lemma AddsCommute(ring: Ring, a: Server, pointsA: set<int>, b: Server, pointsB: set<int>)
    requires a != b
    ensures AddPoints(AddPoints(ring, pointsA, a), pointsB, b) == AddPoints(AddPoints(ring, pointsB, b), pointsA, a)
            <==> (forall p :: p in pointsA ==> p !in pointsB)
  {
    var ab := AddPoints(AddPoints(ring, pointsA, a), pointsB, b);
    var ba := AddPoints(AddPoints(ring, pointsB, b), pointsA, a);
    if p :| p in pointsA && p in pointsB {
      assert ab[p] == b && ba[p] == a;
    } else {
      assert forall p :: p in ab <==> p in ba;
      assert forall p :: p in ab ==> ab[p] == ba[p];
    }
  }

  // ----- Histories -----

  datatype Op = AddServer(server: Server) | RemoveServer(server: Server) | Clear

  function Apply(points: Server -> set<int>, ring: Ring, op: Op): Ring {
    match op
    case AddServer(s) => AddPoints(ring, points(s), s)
    case RemoveServer(s) => DropServer(ring, s)
    case Clear => map[]
  }

  function Replay(points: Server -> set<int>, ops: seq<Op>): Ring {
    if ops == [] then map[] else Apply(points, Replay(points, ops[..|ops| - 1]), ops[|ops| - 1])
  }

  // The servers that are live after an operation and after a history.
  function LiveAfter(live: set<Server>, op: Op): set<Server> {
    match op
    case AddServer(s) => live + {s}
    case RemoveServer(s) => live - {s}
    case Clear => {}
  }

  function Live(ops: seq<Op>): set<Server> {
    if ops == [] then {} else LiveAfter(Live(ops[..|ops| - 1]), ops[|ops| - 1])
  }

  // Each server is added with points disjoint from those of the other servers live at that time.
  ghost predicate AddedFree(points: Server -> set<int>, ops: seq<Op>) {
    forall n :: 0 <= n < |ops| ==> FreeAt(points, ops, n)
  }

  ghost predicate FreeAt(points: Server -> set<int>, ops: seq<Op>, n: nat)
    requires n < |ops|
  {
    ops[n].AddServer? ==> Free(points, Live(ops[..n]), ops[n].server)
  }

  ghost predicate Free(points: Server -> set<int>, live: set<Server>, server: Server) {
    forall t :: t in live && t != server ==> points(t) !! points(server)
  }

  // The ring holds the points of exactly the live servers, each owned by its own server.
  ghost predicate RingOf(points: Server -> set<int>, ring: Ring, live: set<Server>) {
    && (forall p :: p in ring ==> ring[p] in live && p in points(ring[p]))
    && (forall s, p :: s in live && p in points(s) ==> p in ring && ring[p] == s)
  }

  // An operation keeps this exactly when an added server shares no point with another live one.
  lemma ApplyKeepsRing(points: Server -> set<int>, ring: Ring, live: set<Server>, op: Op)
    requires RingOf(points, ring, live)
    ensures RingOf(points, Apply(points, ring, op), LiveAfter(live, op)) <==>
            (op.AddServer? ==> Free(points, live, op.server))
  {
    var (ring', live') := (Apply(points, ring, op), LiveAfter(live, op));
    if op.AddServer? && RingOf(points, ring', live') {
      LiveDisjoint(points, ring', live');
      assert op.server in live' && forall t :: t in live ==> t in live';
    }
  }

  lemma {:induction false} ReplayIsRingOfLive(points: Server -> set<int>, ops: seq<Op>)
    requires AddedFree(points, ops)
    ensures RingOf(points, Replay(points, ops), Live(ops))
  {
    if ops != [] {
      var n := |ops| - 1;
      assert FreeAt(points, ops, n);
      forall m | 0 <= m < n
        ensures FreeAt(points, ops[..n], m)
      {
        assert FreeAt(points, ops, m) && ops[..n][..m] == ops[..m];
      }
      ReplayIsRingOfLive(points, ops[..n]);
      ApplyKeepsRing(points, Replay(points, ops[..n]), Live(ops[..n]), ops[n]);
    }
  }

  // After every operation of a history the ring is a function of the live servers alone, if and
  // only if each server is added with points disjoint from those of the other live servers.
  lemma RingOfLiveExactly(points: Server -> set<int>, ops: seq<Op>)
    ensures (forall n :: 0 <= n <= |ops| ==> RingOf(points, Replay(points, ops[..n]), Live(ops[..n]))) <==>
            AddedFree(points, ops)
  {
    hide RingOf, Free, Apply, LiveAfter;
    if AddedFree(points, ops) {
      forall n | 0 <= n <= |ops|
        ensures RingOf(points, Replay(points, ops[..n]), Live(ops[..n]))
      {
        forall m | 0 <= m < n
          ensures FreeAt(points, ops[..n], m)
        {
          assert FreeAt(points, ops, m) && ops[..n][..m] == ops[..m];
        }
        ReplayIsRingOfLive(points, ops[..n]);
      }
    }
    if forall n :: 0 <= n <= |ops| ==> RingOf(points, Replay(points, ops[..n]), Live(ops[..n])) {
      forall n | 0 <= n < |ops|
        ensures FreeAt(points, ops, n)
      {
        assert RingOf(points, Replay(points, ops[..n + 1]), Live(ops[..n + 1]));
        assert ops[..n + 1] == ops[..n] + [ops[n]];
        ReplayNext(points, ops[..n], ops[n]);
        ApplyKeepsRing(points, Replay(points, ops[..n]), Live(ops[..n]), ops[n]);
      }
    }
  }

  // An address may be removed and added again, as a server of its own, without sharing a point.
  lemma ReconnectIsFree(points: Server -> set<int>, ops: seq<Op>, s: Server, s': Server)
    requires AddedFree(points, ops) && s in Live(ops) && s' !in Live(ops) && points(s') == points(s)
    ensures AddedFree(points, ops + [RemoveServer(s), AddServer(s')])
  {
    var ops' := ops + [RemoveServer(s), AddServer(s')];
    ReplayIsRingOfLive(points, ops);
    LiveDisjoint(points, Replay(points, ops), Live(ops));
    forall n | 0 <= n < |ops'|
      ensures FreeAt(points, ops', n)
    {
      if n < |ops| {
        assert FreeAt(points, ops, n) && ops'[..n] == ops[..n];
      } else if n == |ops| + 1 {
        assert ops'[..n] == ops + [RemoveServer(s)];
        ReplayNext(points, ops, RemoveServer(s));
      }
    }
  }

  lemma LiveDisjoint(points: Server -> set<int>, ring: Ring, live: set<Server>)
    requires RingOf(points, ring, live)
    ensures forall s, t :: s in live && t in live && s != t ==> points(s) !! points(t)
  {
    forall s, t | s in live && t in live && s != t
      ensures points(s) !! points(t)
    {
      assert forall p :: p in points(s) && p in points(t) ==> ring[p] == s && ring[p] == t;
    }
  }

  lemma NoHistory(points: Server -> set<int>)
    ensures Replay(points, []) == map[] && Live([]) == {}
  {}

  lemma ReplayNext(points: Server -> set<int>, ops: seq<Op>, op: Op)
    ensures Replay(points, ops + [op]) == Apply(points, Replay(points, ops), op)
    ensures Live(ops + [op]) == LiveAfter(Live(ops), op)
  {
    assert (ops + [op])[..|ops|] == ops;
  }

  // A live server with a point that is as near to the hash as any point of any live server.
  ghost predicate Picked(points: Server -> set<int>, live: set<Server>, hash: int, s: Server) {
    s in live && exists p :: p in points(s) && NearestOf(points, live, hash, p)
  }

  ghost predicate NearestOf(points: Server -> set<int>, live: set<Server>, hash: int, p: int) {
    forall t, q :: t in live && q in points(t) ==> Distance(hash, p) <= Distance(hash, q)
  }

  // In a ring of its live servers the owner of a hash is the server picked by the points alone.
  lemma OwnerIsPicked(points: Server -> set<int>, ring: Ring, live: set<Server>, hash: int, s: Server)
    requires RingOf(points, ring, live) && Owns(ring, hash, s)
    ensures Picked(points, live, hash, s)
  {
    hide Distance;
    var p :| Nearest(ring, hash, p) && ring[p] == s;
    assert p in points(s) && NearestOf(points, live, hash, p);
  }

  lemma NothingToPick(points: Server -> set<int>, live: set<Server>, s: Server)
    requires RingOf(points, map[], live) && s in live
    ensures points(s) == {}
  {
    var ring: Ring := map[];
    assert forall p :: p in points(s) ==> p in ring;
  }

  lemma HistoryIndependent(points: Server -> set<int>, ops: seq<Op>, ops': seq<Op>)
    requires AddedFree(points, ops) && AddedFree(points, ops') && Live(ops) == Live(ops')
    ensures Replay(points, ops) == Replay(points, ops')
  {
    hide *;
    ReplayIsRingOfLive(points, ops);
    ReplayIsRingOfLive(points, ops');
    RingOfUnique(points, Replay(points, ops), Replay(points, ops'), Live(ops));
  }

  lemma RingOfUnique(points: Server -> set<int>, r: Ring, r': Ring, live: set<Server>)
    requires RingOf(points, r, live) && RingOf(points, r', live)
    ensures r == r'
  {
    RingOfInside(points, r, r', live);
    RingOfInside(points, r', r, live);
    hide RingOf;
    assert forall p :: p in r <==> p in r';
    assert forall p :: p in r ==> r[p] == r'[p];
  }

  lemma RingOfInside(points: Server -> set<int>, r: Ring, r': Ring, live: set<Server>)
    requires RingOf(points, r, live) && RingOf(points, r', live)
    ensures forall p :: p in r ==> p in r' && r'[p] == r[p]
  {
    forall p | p in r
      ensures p in r' && r'[p] == r[p]
    {
      var s := r[p];
      assert s in live && p in points(s);
    }
  }

  // ----- Servers of the same name -----

  // Points depend on the name and the weight alone.
  ghost predicate PointsByName(points: Server -> set<int>) {
    forall s, t :: Alike(s, t) ==> points(s) == points(t)
  }

  predicate Alike(s: Server, t: Server) {
    s.Name() == t.Name() && s.weight == t.weight
  }

  // Every server of the one set has one like it in the other.
  ghost predicate Represented(live: set<Server>, live': set<Server>) {
    forall s :: s in live ==> exists t :: t in live' && Alike(s, t)
  }

  ghost predicate Covered(ring: Ring, ring': Ring) {
    forall p :: p in ring ==> p in ring' && Alike(ring[p], ring'[p])
  }

  lemma CoveredByName(points: Server -> set<int>, r: Ring, r': Ring, live: set<Server>, live': set<Server>)
    requires RingOf(points, r, live) && RingOf(points, r', live') && PointsByName(points)
    requires Represented(live, live')
    ensures Covered(r, r')
  {
    hide Alike;
    forall p | p in r
      ensures p in r' && Alike(r[p], r'[p])
    {
      var s := r[p];
      assert s in live && p in points(s);
      var t :| t in live' && Alike(s, t);
      assert points(s) == points(t);
      assert p in r' && r'[p] == t;
    }
  }

  // Rings whose servers are alike answer servers that are alike, for every hash.
  lemma SameAnswers(r: Ring, r': Ring, hash: int, s: Server)
    requires Covered(r, r') && Covered(r', r) && Owns(r, hash, s)
    ensures exists t :: Owns(r', hash, t) && Alike(s, t)
  {
    hide Alike, Distance;
    var p :| Nearest(r, hash, p) && r[p] == s;
    assert Nearest(r', hash, p);
    assert Owns(r', hash, r'[p]);
  }
}
