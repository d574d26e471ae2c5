/**
 The consistent-hash distribution (serverManager/ConsistentHashDistri.cpp).

 A server's points come from the hexadecimal MD5 digests of its name and a running number.
 `mCircle` is a map; the ordered walks of std::map are loops over its keys.
 */
module ConsistentHashDistri {
  import opened Collections
  import opened Servers
  import opened DecimalText
  import opened HashRing
  import opened Words
  import opened Md5Stream
  import Md5

  // ----- The points of a server -----

  function Bytes(s: string): (bs: seq<Byte>)
    ensures |bs| == |s|
  {
    seq(|s|, i requires 0 <= i < |s| => s[i] as int % 0x100)
  }

  // Four consecutive characters of a digest, low-order first.
  function Point(hex: string, offset: nat): int
    requires 4 * offset + 4 <= |hex|
  {
    var i := 4 * offset;
    WordOf(hex[i] as int % 0x100, hex[i + 1] as int % 0x100, hex[i + 2] as int % 0x100, hex[i + 3] as int % 0x100)
  }

  // The characters can be recovered from the point.
  lemma PointCharacters(hex: string, offset: nat, k: nat)
    requires 4 * offset + 4 <= |hex| && k < 4
    ensures ByteOf(Point(hex, offset), k) == hex[4 * offset + k] as int % 0x100
  {
    hide WordOf, ByteOf;
    var i := 4 * offset;
    BytesOfWord(hex[i] as int % 0x100, hex[i + 1] as int % 0x100, hex[i + 2] as int % 0x100, hex[i + 3] as int % 0x100);
  }

  // The text that is hashed for the i-th digest of a server.
  function PointText(server: Server, i: nat): string {
    server.Name() + Decimal(i)
  }

  // The text can be read back: the server's name is in front, and the rest is the only notation
  // of the running number.
  lemma TextReadBack(server: Server, i: nat)
    ensures var (text, n) := (PointText(server, i), |server.host + Decimal(server.port)|);
            && text[..n] == server.host + Decimal(server.port)
            && Canonical(text[n..]) && Number(text[n..]) == i
  {
    NumberOfDecimal(i);
    DecimalCanonical(i);
    hide Decimal, Number;
    assert PointText(server, i)[|server.Name()|..] == Decimal(i);
  }

  // For one running number two servers hash one text exactly when they have one name.
  lemma SameText(s: Server, t: Server, i: nat)
    ensures PointText(s, i) == PointText(t, i) <==> s.Name() == t.Name()
  {
    hide Decimal;
    var n := |Decimal(i)|;
    if PointText(s, i) == PointText(t, i) {
      assert |s.Name()| == |t.Name()|;
      assert s.Name() == PointText(s, i)[..|s.Name()|] == PointText(t, i)[..|t.Name()|] == t.Name();
    }
  }

  // For any running numbers: exactly when the longer name continues the shorter one with digits
  // that the other number has in front.
  lemma SharedText(s: Server, i: nat, t: Server, j: nat)
    requires |t.Name()| <= |s.Name()|
    ensures PointText(s, i) == PointText(t, j) <==>
            && t.Name() <= s.Name()
            && var more := s.Name()[|t.Name()|..];
               && AllDigits(more) && (more != "" ==> more[0] != '0')
               && j == Number(more) * Power10(|Decimal(i)|) + i
  {
    hide Decimal, Number, Power10;
    SharedName(s.Name(), i, t.Name(), j);
  }

  function DigestOf(server: Server, i: nat): (hex: string)
    ensures |hex| == 32
  {
    HexDigest(Bytes(PointText(server, i)))
  }

  // How many digests a server contributes: the masked replication count, in fours.  The mask
  // keeps the sign, so a negative count runs the loop not at all.
  function Rounds(replications: int): (n: nat)
    requires replications < 0x8000_0000
    ensures n < 0x2000_0000
  {
    if replications < 0 then 0 else And(replications, 0x8FFF_FFF4) / 4
  }

  // Of a count of replications the mask keeps bit 2 and bits 4 to 27; a quarter of that is
  // the number of digests.
  lemma RoundsIs(replications: int)
    requires replications < 0x8000_0000
    ensures Rounds(replications) ==
            if replications < 0 then 0 else replications / 4 % 2 + replications / 16 % 0x100_0000 * 4
  {
    if replications >= 0 {
      var x: nat := replications;
      MaskedLow(x);
      MaskedHigh(x / 16);
      hide And;
    }
  }

  lemma MaskedLow(x: nat)
    ensures And(x, 0x8FFF_FFF4) == 4 * (x / 4 % 2) + 16 * And(x / 16, 0x8FF_FFFF)
  {
    hide And;
    AndTwice(x, 0x47FF_FFFA);
    AndTwice(x / 2, 0x23FF_FFFD);
    AndHalf(x / 4, 0x23FF_FFFD);
    AndTwice(x / 8, 0x8FF_FFFF);
    Halves(x);
  }

  lemma AndTwice(x: nat, m: nat)
    ensures And(x, 2 * m) == 2 * And(x / 2, m)
  {
    AndHalf(x, 2 * m);
    hide And;
  }

  lemma Halves(x: nat)
    ensures x / 2 / 2 == x / 4 && x / 4 / 2 == x / 8 && x / 8 / 2 == x / 16
  {}

  lemma MaskedHigh(y: nat)
    requires y < 0x800_0000
    ensures And(y, 0x8FF_FFFF) == y % 0x100_0000
  {
    QuarterPow();
    AndMask(y / 0x100_0000, y % 0x100_0000, 24);
    hide And, Pow2;
  }

  lemma QuarterPow()
    ensures Pow2(24) == 0x100_0000
  {
    Pow2Sum(12, 12);
    Pow2Sum(6, 6);
    assert Pow2(6) == 64 by { assert Pow2(3) == 8; }
  }

  function Points(server: Server, rounds: nat): set<int> {
    set i, h | 0 <= i < rounds && 0 <= h < 4 :: Point(DigestOf(server, i), h)
  }

  // The points that a circle with some replications gives to each server.
  function PointsFor(replications: int): Server -> set<int> {
    (s: Server) => if replications * s.weight < 0x8000_0000 then Points(s, Rounds(replications * s.weight)) else {}
  }

  // The points of a server are those of the digests of its host, port and running numbers.
  lemma PointsAreRead(server: Server, rounds: nat, p: int)
    ensures p in Points(server, rounds) <==>
            exists i: nat, h: nat :: i < rounds && h < 4 && p == PointAt(server.host, server.port, i, h)
  {
    hide HexDigest, Decimal, Point;
    forall i: nat, h: nat | h < 4
      ensures PointAt(server.host, server.port, i, h) == Point(DigestOf(server, i), h)
    {}
  }

  function PointAt(host: string, port: nat, i: nat, h: nat): int
    requires h < 4
  {
    var hex := HexDigest(Bytes(host + Decimal(port) + Decimal(i)));
    assert |hex| == 32;
    Point(hex, h)
  }

  // Two servers on one host may share points: port 1121 with running number 10 and port 11211
  // with running number 0 hash one text.
  lemma PortsSharePoints(s: Server, t: Server, rounds: nat, rounds': nat)
    requires s.host == t.host && s.port == 1121 && t.port == 11211 && rounds > 10 && rounds' > 0
    ensures PointText(s, 10) == PointText(t, 0)
    ensures !(Points(s, rounds) !! Points(t, rounds'))
  {
    hide HexDigest, Decimal, Point, PointText;
    PortsShareText(s, t);
    var p := Point(DigestOf(s, 10), 0);
    assert p == Point(DigestOf(t, 0), 0);
    assert p in Points(s, rounds) && p in Points(t, rounds');
  }

  lemma PortsShareText(s: Server, t: Server)
    requires s.host == t.host && s.port == 1121 && t.port == 11211
    ensures PointText(s, 10) == PointText(t, 0)
  {
    TwoNotations();
    hide Decimal;
    assert PointText(s, 10) == s.host + ("1121" + "10") && PointText(t, 0) == t.host + ("11211" + "0");
  }

  lemma TwoNotations()
    ensures Decimal(1121) == "1121" && Decimal(11211) == "11211" && Decimal(10) == "10" && Decimal(0) == "0"
  {
    assert Decimal(1) == "1" && Decimal(11) == "11" && Decimal(112) == "112" && Decimal(1121) == "1121";
  }

  // Different texts of one-byte characters are hashed as different bytes.
  lemma BytesInjective(s: string, t: string)
    requires forall c :: c in s + t ==> c as int < 0x100
    ensures Bytes(s) == Bytes(t) <==> s == t
  {
    if Bytes(s) == Bytes(t) {
      forall k | 0 <= k < |s|
        ensures s[k] == t[k]
      {
        assert s[k] in s + t && t[k] in s + t;
        assert Bytes(s)[k] == Bytes(t)[k];
      }
    }
  }

  // The first m points of one digest.
  function FirstPoints(hex: string, m: nat): set<int>
    requires |hex| == 32 && m <= 4
  {
    set h | 0 <= h < m :: Point(hex, h)
  }

  // ----- Every point is spelt by four hexadecimal digits -----

  function HexCode(n: nat): int
    requires n < 16
  {
    if n < 10 then 0x30 + n else 0x57 + n
  }

  function SpeltPoint(n: nat): int
    requires n < 0x1_0000
  {
    HexCode(n / 0x1000) + 0x100 * HexCode(n / 0x100 % 16)
    + 0x1_0000 * HexCode(n / 16 % 16) + 0x100_0000 * HexCode(n % 16)
  }

  ghost predicate Spelt(p: int) {
    exists n :: 0 <= n < 0x1_0000 && p == SpeltPoint(n)
  }

  lemma HexDigitCode(n: nat)
    requires n < 16
    ensures HexDigit(n) as int == HexCode(n)
  {
    HexDigitIs(n);
  }

  lemma Div16(n: nat, q: nat, r: nat)
    requires n == 16 * q + r && r < 16
    ensures n / 16 == q && n % 16 == r
  {}

  lemma Nibbles(x: nat, y: nat)
    requires x < 0x100 && y < 0x100
    ensures var n := 0x100 * x + y;
            n / 0x1000 == x / 16 && n / 0x100 % 16 == x % 16 && n / 16 % 16 == y / 16 && n % 16 == y % 16
  {
    var n := 0x100 * x + y;
    Div16(n, 16 * x + y / 16, y % 16);
    Div16(16 * x + y / 16, x, y / 16);
    assert n / 0x100 == x;
    assert n / 0x1000 == x / 16;
  }

  lemma HexStringAt(bs: seq<Byte>, k: nat)
    requires k < |bs|
    ensures HexString(bs)[2 * k] as int == HexCode(bs[k] / 16)
    ensures HexString(bs)[2 * k + 1] as int == HexCode(bs[k] % 16)
  {
    HexDigitCode(bs[k] / 16);
    HexDigitCode(bs[k] % 16);
  }

  // Different bytes have different hexadecimal texts.
  lemma HexInjective(a: seq<Byte>, b: seq<Byte>)
    requires HexString(a) == HexString(b)
    ensures a == b
  {
    assert |a| == |b| by { assert |HexString(a)| == 2 * |a| && |HexString(b)| == 2 * |b|; }
    forall k | 0 <= k < |a|
      ensures a[k] == b[k]
    {
      hide HexString;
      HexStringAt(a, k);
      HexStringAt(b, k);
      assert a[k] / 16 == b[k] / 16 && a[k] % 16 == b[k] % 16;
    }
  }

  lemma DigestPointSpelt(bs: seq<Byte>, h: nat)
    requires 4 * h + 4 <= 2 * |bs|
    ensures Spelt(Point(HexString(bs), h))
  {
    hide HexString, HexCode;
    HexStringAt(bs, 2 * h);
    HexStringAt(bs, 2 * h + 1);
    var x: nat := bs[2 * h];
    var y: nat := bs[2 * h + 1];
    Nibbles(x, y);
    HexCodeRange(x / 16);
    HexCodeRange(x % 16);
    HexCodeRange(y / 16);
    HexCodeRange(y % 16);
    var hex := HexString(bs);
    assert hex[4 * h] as int % 0x100 == HexCode(x / 16) && hex[4 * h + 1] as int % 0x100 == HexCode(x % 16);
    assert hex[4 * h + 2] as int % 0x100 == HexCode(y / 16) && hex[4 * h + 3] as int % 0x100 == HexCode(y % 16);
    assert Point(hex, h) == SpeltPoint(0x100 * x + y);
  }

  lemma HexCodeRange(n: nat)
    requires n < 16
    ensures 0x30 <= HexCode(n) <= 0x66
  {}

  lemma PointsSpelt(server: Server, rounds: nat)
    ensures forall p :: p in Points(server, rounds) ==> Spelt(p)
  {
    hide Md5Digest, Spelt, Point;
    forall i, h | 0 <= i < rounds && 0 <= h < 4
      ensures Spelt(Point(DigestOf(server, i), h))
    {
      DigestPointSpelt(Md5Digest(Bytes(PointText(server, i))), h);
    }
  }

  lemma SpeltRange(p: int)
    requires Spelt(p)
    ensures 0x3030_3030 <= p <= 0x6666_6666
  {}

  // At most 65536 points exist.
  lemma FewPoints(ring: Ring)
    requires forall p :: p in ring ==> Spelt(p)
    ensures |ring| <= 0x1_0000
  {
    var all := set n | 0 <= n < 0x1_0000 :: SpeltPoint(n);
    SpeltCount(0x1_0000);
    assert forall p :: p in ring.Keys ==> p in all;
    SubsetSize(ring.Keys, all);
  }

  lemma {:induction false} SpeltCount(m: nat)
    requires m <= 0x1_0000
    ensures |set n | 0 <= n < m :: SpeltPoint(n)| <= m
  {
    hide SpeltPoint;
    if m > 0 {
      SpeltCount(m - 1);
      var less := set n | 0 <= n < m - 1 :: SpeltPoint(n);
      var more := set n | 0 <= n < m :: SpeltPoint(n);
      assert forall p :: p in more ==> p in less || p == SpeltPoint(m - 1);
      SubsetSize(more, less + {SpeltPoint(m - 1)});
    }
  }

  // Every hash above the greatest spellable point belongs to the owner of the least point.
  lemma HighHashGoesToLeast(ring: Ring, hash: int, least: int)
    requires forall p :: p in ring ==> Spelt(p)
    requires 0x6666_6666 < hash < SPACE && least in ring && forall p :: p in ring ==> least <= p
    ensures Nearest(ring, hash, least)
  {
    hide Spelt;
    forall p | p in ring
      ensures 0x3030_3030 <= p <= 0x6666_6666
    {
      SpeltRange(p);
    }
    NearestIsSuccessor(ring, hash, least);
  }

  // ----- The object -----

  method HexOf(text: string) returns (hex: string)
    requires |text| < UINT32
    ensures hex == HexDigest(Bytes(text))
  {
    hide Md5Digest, HexString, Bytes, Md5.Concat;
    assert Md5.AllAccepted([Bytes(text)]) && Md5.Concat([Bytes(text)]) == Bytes(text) by { OneChunk(Bytes(text)); }
    hex := Md5.HashChunks([Bytes(text)]);
  }

  lemma OneChunk(bs: seq<Byte>)
    requires |bs| < UINT32
    ensures Md5.AllAccepted([bs]) && Md5.Concat([bs]) == bs
  {
    var chunks := [bs];
    assert chunks[..0] == [];
    assert Md5.Concat(chunks) == Md5.Concat(chunks[..0]) + bs == bs;
  }

  class ConsistentHashDistri {
    var circle: Ring
    const replications: int

    // Only spellable points occur in a circle.
    ghost predicate Valid()
      reads this
    {
      && (forall p :: p in circle ==> Spelt(p))
      && -0x8000_0000 <= replications < 0x8000_0000
    }

    constructor (replis: int)
      requires -0x8000_0000 <= replis < 0x8000_0000
      ensures circle == map[] && replications == replis && Valid()
    {
      circle, replications := map[], replis;
    }

    method Add(server: Server)
      requires Valid() && |server.Name()| < 0x8000_0000
      requires -0x8000_0000 <= replications * server.weight < 0x8000_0000
      modifies this
      ensures Valid()
      ensures circle == AddPoints(old(circle), Points(server, Rounds(replications * server.weight)), server)
    {
      hide Point, DigestOf, Spelt, Rounds;
      var rounds := Rounds(replications * server.weight);
      PointsSpelt(server, rounds);
      ghost var done: set<int> := {};
      for i := 0 to rounds
        invariant done == Points(server, i)
        invariant circle == AddPoints(old(circle), done, server)
      {
        var hex := DigestText(server, i);
        done := Points(server, i + 1);
        AddDigest(hex, server);
        ghost var four := FirstPoints(hex, 4);
        assert forall p :: p in done <==> p in Points(server, i) || p in four;
        MergePoints(old(circle), Points(server, i), four, done, server);
      }
    }

    method DigestText(server: Server, i: nat) returns (hex: string)
      requires |server.Name()| < 0x8000_0000 && i < 0x2000_0000
      ensures hex == DigestOf(server, i)
    {
      hide HexDigest;
      hex := HexOf(PointText(server, i));
    }

    // The four points of one digest.
    method AddDigest(hex: string, server: Server)
      requires |hex| == 32
      modifies this
      ensures circle == AddPoints(old(circle), FirstPoints(hex, 4), server)
    {
      hide Point, AddPoints;
      assert circle == AddPoints(old(circle), FirstPoints(hex, 0), server) by { NoPoints(circle, hex, server); }
      for h := 0 to 4
        invariant circle == AddPoints(old(circle), FirstPoints(hex, h), server)
      {
        OnePoint(circle, Point(hex, h), server);
        circle := circle[Point(hex, h) := server];
        MergePoints(old(circle), FirstPoints(hex, h), {Point(hex, h)}, FirstPoints(hex, h + 1), server);
      }
    }

    method Remove(server: Server)
      requires Valid()
      modifies this
      ensures Valid() && circle == DropServer(old(circle), server)
    {
      hide Spelt;
      var needRemove := PointsOf(circle, server);
      circle := circle - needRemove;
      ghost var kept := DropServer(old(circle), server);
      assert forall p :: p in circle <==> p in kept;
      assert forall p :: p in kept ==> circle[p] == kept[p];
    }

    method Get(hash: int) returns (answer: Option<Server>)
      requires Valid() && 0 <= hash < SPACE
      ensures answer == None <==> |circle| == 0
      ensures answer.Some? ==> Owns(circle, hash, answer.value)
    {
      if |circle| == 0 {
        return None;
      }
      SpeltInSpace(circle);
      hide Spelt, Distance;
      var p: Option<int> := if hash in circle then Some(hash) else None;
      if p == None {
        p := Least(circle, hash + 1);
        if p == None {
          p := Least(circle, 0);
          ghost var k := SomeKey(circle);
        }
      }
      NearestIsSuccessor(circle, hash, p.value);
      assert Nearest(circle, hash, p.value);
      answer := Some(circle[p.value]);
    }

    method Clear()
      requires Valid()
      modifies this
      ensures Valid() && circle == map[]
    {
      circle := map[];
    }
  }

  lemma NoPoints(ring: Ring, hex: string, server: Server)
    requires |hex| == 32
    ensures AddPoints(ring, FirstPoints(hex, 0), server) == ring
  {
    var r := AddPoints(ring, FirstPoints(hex, 0), server);
    assert forall p :: p in r <==> p in ring;
    assert forall p :: p in r ==> r[p] == ring[p];
  }

  lemma OnePoint(ring: Ring, p: int, server: Server)
    ensures ring[p := server] == AddPoints(ring, {p}, server)
  {}

  lemma MergePoints(ring: Ring, a: set<int>, b: set<int>, all: set<int>, server: Server)
    requires forall p :: p in all <==> p in a || p in b
    ensures AddPoints(AddPoints(ring, a, server), b, server) == AddPoints(ring, all, server)
  {
    var (r, r') := (AddPoints(AddPoints(ring, a, server), b, server), AddPoints(ring, all, server));
    assert forall p :: p in r <==> p in r';
    assert forall p :: p in r ==> r[p] == r'[p];
  }

  lemma SpeltInSpace(ring: Ring)
    requires forall p :: p in ring ==> Spelt(p)
    ensures InSpace(ring)
  {
    hide Spelt;
    forall p | p in ring
      ensures 0 <= p < SPACE
    {
      SpeltRange(p);
    }
  }

  method PointsOf(ring: Ring, server: Server) returns (points: set<int>)
    ensures forall p :: p in points <==> p in ring && ring[p] == server
  {
    points := {};
    var todo := ring.Keys;
    while exists p :: p in todo
      invariant todo <= ring.Keys
      invariant forall p :: p in points <==> p in ring && p !in todo && ring[p] == server
      decreases todo
    {
      var p :| p in todo;
      if ring[p] == server {
        points := points + {p};
      }
      todo := todo - {p};
    }
  }

  // The least point that is not below a bound, as upper_bound and begin find it.
  method Least(ring: Ring, bound: int) returns (least: Option<int>)
    ensures least == None ==> forall p :: p in ring ==> p < bound
    ensures least.Some? ==> least.value in ring && least.value >= bound
    ensures least.Some? ==> forall p :: p in ring && p >= bound ==> least.value <= p
  {
    least := None;
    var todo := ring.Keys;
    while exists p :: p in todo
      invariant todo <= ring.Keys
      invariant least == None ==> forall p :: p in ring && p !in todo ==> p < bound
      invariant least.Some? ==> least.value in ring && least.value >= bound
      invariant least.Some? ==> forall p :: p in ring && p !in todo && p >= bound ==> least.value <= p
      decreases todo
    {
      var p :| p in todo;
      if p >= bound && (least == None || p < least.value) {
        least := Some(p);
      }
      todo := todo - {p};
    }
  }
}
