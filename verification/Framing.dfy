/**
 Response framing (memcachedClient/MemcachedClient.cpp, memcachedClient/MemResult.cpp): the
 24-byte header of section 2 of draft-stone-memcache-binary-01, its byte order, and the
 buffers that each kind of result prepares for the body.

 The host is little-endian.
 */
module Framing {
  import opened Collections
  import opened Words

  const HEADER_LENGTH: nat := 24

  // ----- Byte order -----

  function Little16(b: seq<Byte>, i: nat): nat
    requires i + 2 <= |b|
  {
    b[i] as int + 0x100 * (b[i + 1] as int)
  }

  function Big16(b: seq<Byte>, i: nat): nat
    requires i + 2 <= |b|
  {
    b[i + 1] as int + 0x100 * (b[i] as int)
  }

  function Little32(b: seq<Byte>, i: nat): nat
    requires i + 4 <= |b|
  {
    Little16(b, i) + 0x1_0000 * Little16(b, i + 2)
  }

  function Big32(b: seq<Byte>, i: nat): nat
    requires i + 4 <= |b|
  {
    Big16(b, i + 2) + 0x1_0000 * Big16(b, i)
  }

  // The fields of a response header as the client sees them: lengths in network order, the
  // status as stored because it is converted twice, the opaque as stored.
  datatype Header = Header(keylen: nat, extlen: nat, status: nat, bodylen: nat, requestId: nat)

  function HeaderOf(raw: seq<Byte>): Header
    requires |raw| == HEADER_LENGTH
  {
    Header(Big16(raw, 2), raw[4], Little16(raw, 6), Big32(raw, 8), Little32(raw, 12))
  }

  // The fields read from a header buffer by a little-endian host.
  function HostFields(raw: seq<Byte>): Header
    requires |raw| == HEADER_LENGTH
  {
    Header(Little16(raw, 2), raw[4], Little16(raw, 6), Little32(raw, 8), Little32(raw, 12))
  }

  method Swap(h: array<Byte>, i: nat, j: nat)
    requires i < h.Length && j < h.Length
    modifies h
    ensures h[..] == old(h[..])[i := old(h[j])][j := old(h[i])]
  {
    h[i], h[j] := h[j], h[i];
  }

  // AdjustEndian for responses; the status is converted twice, and the cas not at all: ntohll
  // exchanges bytes only under a macro that no build file defines.
  method AdjustEndian(h: array<Byte>)
    requires h.Length == HEADER_LENGTH
    modifies h
    ensures HostFields(h[..]) == HeaderOf(old(h[..]))
    ensures h[..2] == old(h[..2]) && h[4..8] == old(h[4..8]) && h[12..] == old(h[12..])
  {
    Swap(h, 2, 3);
    Swap(h, 6, 7);
    Swap(h, 8, 11);
    Swap(h, 9, 10);
    Swap(h, 6, 7);
  }

  // ----- Responses on the wire -----

  datatype Response = Response(id: nat, status: nat, extras: seq<Byte>, key: seq<Byte>, value: seq<Byte>) {
    function Body(): seq<Byte> {
      extras + key + value
    }

    // The lengths fit their fields, and the body length fits an int.
    predicate Encodable() {
      && id < 0x1_0000_0000 && status < 0x1_0000
      && |extras| < 0x100 && |key| < 0x1_0000 && |Body()| < 0x8000_0000
    }
  }

  function Bytes16(n: nat): (b: seq<Byte>)
    requires n < 0x1_0000
    ensures |b| == 2 && Big16(b, 0) == n
  {
    [n / 0x100, n % 0x100]
  }

  function EncodeHeader(r: Response): (h: seq<Byte>)
    requires r.Encodable()
    ensures |h| == HEADER_LENGTH
  {
    var n := |r.Body()|;
    [0x81, 0] + Bytes16(|r.key|) + [|r.extras|, 0] + [r.status % 0x100, r.status / 0x100]
    + Bytes16(n / 0x1_0000) + Bytes16(n % 0x1_0000)
    + [r.id % 0x100, r.id / 0x100 % 0x100, r.id / 0x1_0000 % 0x100, r.id / 0x100_0000]
    + [0, 0, 0, 0, 0, 0, 0, 0]
  }

  // The layout of section 2 of draft-stone-memcache-binary-01: magic 0x81, the key length in bytes 2
  // and 3, the extras length in byte 4, the status in bytes 6 and 7, the body length in bytes 8 to
  // 11, all but the status with the high-order byte first, and the opaque in bytes 12 to 15 as the
  // client sent it.  The model's status is that of the client, with its bytes as stored.
  lemma HeaderLayout(r: Response)
    requires r.Encodable()
    ensures var h := EncodeHeader(r);
            && |h| == 24 && h[0] == 0x81 && h[4] == |r.extras|
            && 0x100 * (h[2] as int) + h[3] as int == |r.key|
            && h[6] as int + 0x100 * (h[7] as int) == r.status
            && 0x100_0000 * (h[8] as int) + 0x1_0000 * (h[9] as int) + 0x100 * (h[10] as int) + h[11] as int ==
               |r.extras| + |r.key| + |r.value|
            && h[12] as int + 0x100 * (h[13] as int) + 0x1_0000 * (h[14] as int) + 0x100_0000 * (h[15] as int) == r.id
  {
    var h := EncodeHeader(r);
    HeaderRoundTrip(r);
    HeaderIs(h);
    hide EncodeHeader, HeaderOf;
    assert h[0] == 0x81 && |r.Body()| == |r.extras| + |r.key| + |r.value| by { FirstByte(r); }
  }

  lemma FirstByte(r: Response)
    requires r.Encodable()
    ensures EncodeHeader(r)[0] == 0x81 && |r.Body()| == |r.extras| + |r.key| + |r.value|
  {}

  // Where the fields are read, before and after the exchange of bytes.
  lemma HeaderIs(raw: seq<Byte>)
    requires |raw| == 24
    ensures var f := HeaderOf(raw);
            && f.keylen == 0x100 * (raw[2] as int) + raw[3] as int && f.extlen == raw[4]
            && f.status == raw[6] as int + 0x100 * (raw[7] as int)
            && f.bodylen == 0x100_0000 * (raw[8] as int) + 0x1_0000 * (raw[9] as int)
                            + 0x100 * (raw[10] as int) + raw[11] as int
            && f.requestId == raw[12] as int + 0x100 * (raw[13] as int)
                              + 0x1_0000 * (raw[14] as int) + 0x100_0000 * (raw[15] as int)
    ensures var g := HostFields(raw);
            && g.keylen == raw[2] as int + 0x100 * (raw[3] as int) && g.extlen == raw[4]
            && g.status == raw[6] as int + 0x100 * (raw[7] as int)
            && g.bodylen == raw[8] as int + 0x100 * (raw[9] as int)
                            + 0x1_0000 * (raw[10] as int) + 0x100_0000 * (raw[11] as int)
            && g.requestId == raw[12] as int + 0x100 * (raw[13] as int)
                              + 0x1_0000 * (raw[14] as int) + 0x100_0000 * (raw[15] as int)
  {}

  lemma HeaderRoundTrip(r: Response)
    requires r.Encodable()
    ensures HeaderOf(EncodeHeader(r)) == Header(|r.key|, |r.extras|, r.status, |r.Body()|, r.id)
  {
    var (h, n) := (EncodeHeader(r), |r.Body()|);
    assert h[2..4] == Bytes16(|r.key|) && h[8..10] == Bytes16(n / 0x1_0000) && h[10..12] == Bytes16(n % 0x1_0000);
    assert Big16(h, 2) == |r.key|;
    assert Big32(h, 8) == n;
    assert h[6] == r.status % 0x100 && h[7] == r.status / 0x100;
    assert h[12] == r.id % 0x100 && h[13] == r.id / 0x100 % 0x100;
    assert h[14] == r.id / 0x1_0000 % 0x100 && h[15] == r.id / 0x100_0000;
    IdBytes(r.id);
  }

  lemma IdBytes(n: nat)
    ensures n % 0x100 + 0x100 * (n / 0x100 % 0x100) + 0x1_0000 * (n / 0x1_0000 % 0x100 + 0x100 * (n / 0x100_0000)) == n
  {
    assert n / 0x1_0000 == n / 0x100 / 0x100;
    assert n / 0x100_0000 == n / 0x1_0000 / 0x100;
  }

  function Encode(r: Response): seq<Byte>
    requires r.Encodable()
  {
    EncodeHeader(r) + r.Body()
  }

  // ----- The buffers that a result prepares -----

  datatype Kind = Plain | GetKind | IncKind | StatKind

  const SUCCESS: nat := 0

  // An int passed as a size_t.
  function AsSize(n: int): nat {
    n % UINT64
  }

  // Does the body go into the value buffer of the base class?
  predicate TakesBuffer(kind: Kind, status: nat) {
    kind != StatKind && !(kind == IncKind && status == SUCCESS)
  }

  // The sizes of the buffers for a body; buffer is the size of a value buffer that the
  // caller supplied or that an earlier response allocated.
  function Prepare(kind: Kind, buffer: Option<nat>, status: nat, valueLen: int, keyLen: nat): seq<nat> {
    var valueSize := if buffer == None then AsSize(valueLen) else buffer.value;
    match kind
    case Plain => [valueSize]
    case GetKind => if status == SUCCESS then [4, valueSize] else [valueSize]
    case IncKind => if status == SUCCESS then [8] else [valueSize]
    case StatKind => [keyLen, AsSize(valueLen)]
  }

  function Total(sizes: seq<nat>): nat {
    if sizes == [] then 0 else sizes[0] + Total(sizes[1..])
  }

  // The difference of the unsigned lengths, stored in a 32-bit int.
  function ValueLen(h: Header): (n: int)
    ensures -0x8000_0000 <= n < 0x8000_0000
  {
    var n := (h.bodylen - h.extlen - h.keylen) % UINT32;
    if n < 0x8000_0000 then n else n - UINT32
  }

  // With an absent or exact value buffer, the prepared buffers take exactly the body if and
  // only if the extras and the key have the shape expected for the kind of result.
  lemma PreparedIsBody(kind: Kind, buffer: Option<nat>, h: Header)
    requires h.extlen < 0x100 && h.keylen < 0x1_0000 && h.bodylen < UINT32
    requires ValueLen(h) > 0 && (buffer == None || buffer.value == ValueLen(h))
    ensures Total(Prepare(kind, buffer, h.status, ValueLen(h), h.keylen)) == h.bodylen <==>
            match kind
            case StatKind => h.extlen == 0
            case GetKind => h.extlen + h.keylen == (if h.status == 0 then 4 else 0)
            case IncKind => if h.status == 0 then h.bodylen == 8 else h.extlen + h.keylen == 0
            case Plain => h.extlen + h.keylen == 0
  {
    var sizes := Prepare(kind, buffer, h.status, ValueLen(h), h.keylen);
    if |sizes| == 2 {
      TotalTwo(sizes[0], sizes[1]);
    } else {
      TotalOne(sizes[0]);
    }
  }

  lemma TotalOne(a: nat)
    ensures Total([a]) == a
  {
    assert Total([a][1..]) == 0;
  }

  lemma TotalTwo(a: nat, b: nat)
    ensures Total([a, b]) == a + b
  {
    assert [a, b][1..] == [b];
    TotalOne(b);
  }

  // Reading into several buffers fills them one after the other.
  function Scatter(sizes: seq<nat>, bytes: seq<Byte>): seq<seq<Byte>>
    requires |bytes| == Total(sizes)
  {
    if sizes == [] then [] else [bytes[..sizes[0]]] + Scatter(sizes[1..], bytes[sizes[0]..])
  }

  lemma ScatterOne(a: nat, bytes: seq<Byte>)
    requires |bytes| == a
    ensures |bytes| == Total([a]) && Scatter([a], bytes) == [bytes]
  {
    TotalOne(a);
    assert bytes[..a] == bytes && [a][1..] == [];
  }

  lemma ScatterTwo(x: seq<Byte>, y: seq<Byte>)
    ensures |x + y| == Total([|x|, |y|]) && Scatter([|x|, |y|], x + y) == [x, y]
  {
    TotalTwo(|x|, |y|);
    assert [|x|, |y|][1..] == [|y|];
    assert (x + y)[..|x|] == x && (x + y)[|x|..] == y;
    ScatterOne(|y|, y);
  }
}
