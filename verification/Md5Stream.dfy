/**
 The incremental MD5 object (utils/md5.cpp and utils/md5.h): buffered update, two-word bit
 count, padding and digest, proved against a fold of the compression function over the
 blocks of the padded message (sections 3.1 to 3.5 of RFC 1321).
 */
module Md5Stream {
  import opened Words
  import opened Md5Compression

  const INITIAL: Registers<Word> := Registers(0x67452301, 0xefcdab89, 0x98badcfe, 0x10325476)

  // ----- Little-endian words -----

  function ByteOf(w: Word, k: nat): Byte
    requires k < 4
  {
    if k == 0 then w % 0x100
    else if k == 1 then w / 0x100 % 0x100
    else if k == 2 then w / 0x1_0000 % 0x100
    else w / 0x100_0000 % 0x100
  }

  function WordOf(b0: Byte, b1: Byte, b2: Byte, b3: Byte): Word {
    b0 + 0x100 * b1 + 0x1_0000 * b2 + 0x100_0000 * b3
  }

  function EncodeWords(ws: seq<Word>): (bs: seq<Byte>)
    ensures |bs| == 4 * |ws|
  {
    seq(4 * |ws|, j requires 0 <= j < 4 * |ws| => ByteOf(ws[j / 4], j % 4))
  }

  function DecodeWords(bs: seq<Byte>): (ws: seq<Word>)
    ensures |ws| == |bs| / 4
  {
    seq(|bs| / 4, i requires 0 <= i < |bs| / 4 => WordOf(bs[4 * i], bs[4 * i + 1], bs[4 * i + 2], bs[4 * i + 3]))
  }

  lemma BytesOfWord(b0: Byte, b1: Byte, b2: Byte, b3: Byte)
    ensures var w := WordOf(b0, b1, b2, b3);
            ByteOf(w, 0) == b0 && ByteOf(w, 1) == b1 && ByteOf(w, 2) == b2 && ByteOf(w, 3) == b3
  {
    var w := WordOf(b0, b1, b2, b3);
    LowByte(b0, b1 + 0x100 * b2 + 0x1_0000 * b3);
    LowByte(b1, b2 + 0x100 * b3);
    LowByte(b2, b3);
    TwoShifts(w);
  }

  lemma LowByte(b: Byte, rest: nat)
    ensures (b + 0x100 * rest) / 0x100 == rest && (b + 0x100 * rest) % 0x100 == b
  {}

  lemma TwoShifts(w: nat)
    ensures w / 0x1_0000 == w / 0x100 / 0x100 && w / 0x100_0000 == w / 0x1_0000 / 0x100
  {}

  lemma WordOfBytes(w: Word)
    ensures WordOf(ByteOf(w, 0), ByteOf(w, 1), ByteOf(w, 2), ByteOf(w, 3)) == w
  {
    TwoShifts(w);
  }

  // Low-order byte first, in both directions.
  lemma LittleEndian(ws: seq<Word>, bs: seq<Byte>, i: nat)
    ensures i < |ws| ==>
              var b := EncodeWords(ws)[4 * i..4 * i + 4];
              ws[i] == b[0] as int + 0x100 * (b[1] as int) + 0x1_0000 * (b[2] as int) + 0x100_0000 * (b[3] as int)
    ensures 4 * i + 4 <= |bs| ==>
              var (b, w) := (bs[4 * i..4 * i + 4], DecodeWords(bs)[i]);
              w == b[0] as int + 0x100 * (b[1] as int) + 0x1_0000 * (b[2] as int) + 0x100_0000 * (b[3] as int)
  {
    if i < |ws| {
      hide ByteOf;
      EncodedByte(ws, i, 0);
      EncodedByte(ws, i, 1);
      EncodedByte(ws, i, 2);
      EncodedByte(ws, i, 3);
      WordOfBytes(ws[i]);
    }
  }

  lemma EncodedByte(ws: seq<Word>, i: nat, k: nat)
    requires i < |ws| && k < 4
    ensures EncodeWords(ws)[4 * i + k] == ByteOf(ws[i], k)
  {
    assert (4 * i + k) / 4 == i && (4 * i + k) % 4 == k;
  }

  lemma DecodeEncode(ws: seq<Word>)
    ensures DecodeWords(EncodeWords(ws)) == ws
  {
    hide ByteOf, WordOf, EncodeWords;
    forall i | 0 <= i < |ws|
      ensures DecodeWords(EncodeWords(ws))[i] == ws[i]
    {
      EncodedByte(ws, i, 0);
      EncodedByte(ws, i, 1);
      EncodedByte(ws, i, 2);
      EncodedByte(ws, i, 3);
      WordOfBytes(ws[i]);
    }
  }

  lemma EncodeDecode(bs: seq<Byte>)
    requires |bs| % 4 == 0
    ensures EncodeWords(DecodeWords(bs)) == bs
  {
    forall j | 0 <= j < |bs|
      ensures EncodeWords(DecodeWords(bs))[j] == bs[j]
    {
      var i := j / 4;
      BytesOfWord(bs[4 * i], bs[4 * i + 1], bs[4 * i + 2], bs[4 * i + 3]);
      assert j == 4 * i + j % 4;
    }
  }

  // ----- The specification: padding, then one fold over the blocks -----

  // The 64 steps on a 64-byte block, added to the previous registers.
  function Compress(s: Registers<Word>, block: seq<Byte>): Registers<Word> {
    if |block| != 64 then s else
    Added(s, Run(Mix, s, DecodeWords(block), |block|))
  }

  function Added(s: Registers<Word>, r: Registers<Word>): Registers<Word> {
    Registers(Plus(s.a, r.a), Plus(s.b, r.b), Plus(s.c, r.c), Plus(s.d, r.d))
  }

  // The state registers and those of the 64 steps are added word by word.
  lemma CompressAdds(s: Registers<Word>, block: seq<Byte>)
    requires |block| == 64
    ensures var (c, r) := (Compress(s, block), Run(Mix, s, DecodeWords(block), |block|));
            && c.a == (s.a + r.a) % UINT32 && c.b == (s.b + r.b) % UINT32
            && c.c == (s.c + r.c) % UINT32 && c.d == (s.d + r.d) % UINT32
  {
    hide Run, Mix, DecodeWords, Added;
    AddedIs(s, Run(Mix, s, DecodeWords(block), |block|));
  }

  lemma AddedIs(s: Registers<Word>, r: Registers<Word>)
    ensures Added(s, r) ==
            Registers((s.a + r.a) % UINT32, (s.b + r.b) % UINT32, (s.c + r.c) % UINT32, (s.d + r.d) % UINT32)
  {}

  // Feeds the full 64-byte blocks of m to a compression function in order; a partial last
  // block is not consumed.
  function Fold<R>(compress: (R, seq<Byte>) -> R, s: R, m: seq<Byte>): R {
    if |m| < 64 then s else Fold(compress, compress(s, m[..64]), m[64..])
  }

  // The registers after the full blocks of m.
  function Absorb(m: seq<Byte>): Registers<Word> {
    Fold(Compress, INITIAL, m)
  }

  function Zeros(n: nat): (z: seq<Byte>)
    ensures |z| == n
  {
    seq(n, _ => 0)
  }

  function ZeroCount(n: nat): nat {
    (119 - n % 64) % 64
  }

  // The bit length modulo 2^64, low-order word first.
  function BitLength(n: nat): seq<Word> {
    [8 * n % UINT32, 8 * n / UINT32 % UINT32]
  }

  function Pad(m: seq<Byte>): seq<Byte> {
    m + [0x80] + Zeros(ZeroCount(|m|)) + EncodeWords(BitLength(|m|))
  }

  // Sections 3.1 and 3.2 of RFC 1321: a byte 0x80, zeros up to a length that is 56 modulo 64, and
  // the bit length modulo 2^64 in eight bytes, low-order byte first.
  lemma PadBytes(m: seq<Byte>)
    ensures var (p, n) := (Pad(m), |Pad(m)|);
            && n % 64 == 0 && |m| + 9 <= n < |m| + 73 && p[..|m|] == m && p[|m|] == 0x80
            && (forall i :: |m| < i < n - 8 ==> p[i] == 0)
            && 8 * |m| % UINT32 ==
               p[n - 8] as int + 0x100 * (p[n - 7] as int)
               + 0x1_0000 * (p[n - 6] as int) + 0x100_0000 * (p[n - 5] as int)
            && 8 * |m| / UINT32 % UINT32 ==
               p[n - 4] as int + 0x100 * (p[n - 3] as int)
               + 0x1_0000 * (p[n - 2] as int) + 0x100_0000 * (p[n - 1] as int)
  {
    var (tail, n) := (EncodeWords(BitLength(|m|)), |Pad(m)|);
    PadLength(m);
    LittleEndian(BitLength(|m|), [], 0);
    LittleEndian(BitLength(|m|), [], 1);
    hide EncodeWords;
    assert Pad(m)[n - 8..] == tail;
    assert tail[0..4] == Pad(m)[n - 8..n - 4] && tail[4..8] == Pad(m)[n - 4..n];
  }

  // The digest is the four registers after the padded message, low-order byte first.
  lemma DigestIs(m: seq<Byte>)
    ensures DecodeWords(Md5Digest(m)) ==
            [Absorb(Pad(m)).a, Absorb(Pad(m)).b, Absorb(Pad(m)).c, Absorb(Pad(m)).d]
  {
    hide Absorb, Pad;
    var r := Absorb(Pad(m));
    DecodeEncode([r.a, r.b, r.c, r.d]);
  }

  // One block after another, from the initial registers of section 3.3 of RFC 1321.
  lemma AbsorbedBlocks(p: seq<Byte>, block: seq<Byte>)
    requires |p| % 64 == 0 && |block| == 64
    ensures Absorb([]) == Registers(0x6745_2301, 0xefcd_ab89, 0x98ba_dcfe, 0x1032_5476)
    ensures Absorb(p + block) == Compress(Absorb(p), block)
  {
    AbsorbLast(p, block);
    hide Compress;
    assert Absorb([]) == INITIAL;
  }

  function Md5Digest(m: seq<Byte>): (d: seq<Byte>)
    ensures |d| == 16
  {
    var r := Absorb(Pad(m));
    EncodeWords([r.a, r.b, r.c, r.d])
  }

  function HexDigit(n: nat): char
    requires n < 16
  {
    "0123456789abcdef"[n]
  }

  // Lower-case digits.
  lemma HexDigitIs(n: nat)
    requires n < 16
    ensures HexDigit(n) as int == if n < 10 then '0' as int + n else 'a' as int + (n - 10)
  {
    if n < 8 {
      assert HexDigit(n) == if n == 0 then '0' else if n == 1 then '1' else if n == 2 then '2' else if n == 3 then '3'
                            else if n == 4 then '4' else if n == 5 then '5' else if n == 6 then '6' else '7';
    } else {
      assert HexDigit(n) == if n == 8 then '8' else if n == 9 then '9' else if n == 10 then 'a' else if n == 11 then 'b'
                            else if n == 12 then 'c' else if n == 13 then 'd' else if n == 14 then 'e' else 'f';
    }
  }

  // Two digits for each byte, the high half first.
  lemma HexStringIs(bs: seq<Byte>, k: nat)
    requires k < |bs|
    ensures HexString(bs)[2 * k] == HexDigit(bs[k] / 16) && HexString(bs)[2 * k + 1] == HexDigit(bs[k] % 16)
  {}

  function HexString(bs: seq<Byte>): (s: string)
    ensures |s| == 2 * |bs|
  {
    seq(2 * |bs|, j requires 0 <= j < 2 * |bs| => HexDigit(if j % 2 == 0 then bs[j / 2] / 16 else bs[j / 2] % 16))
  }

  function HexDigest(m: seq<Byte>): string {
    HexString(Md5Digest(m))
  }

  lemma Mod64(n: nat, q: nat, r: nat)
    requires n == 64 * q + r && r < 64
    ensures n / 64 == q && n % 64 == r
  {}

  lemma ZeroCountCases(n: nat)
    ensures ZeroCount(n) == if n % 64 < 56 then 55 - n % 64 else 119 - n % 64
  {}

  lemma PadLength(m: seq<Byte>)
    ensures |Pad(m)| == 64 * (|m| / 64 + if |m| % 64 < 56 then 1 else 2)
    ensures |Pad(m)| % 64 == 0
  {
    var (q, r) := (|m| / 64, |m| % 64);
    ZeroCountCases(|m|);
    hide ZeroCount;
    Mod64(|Pad(m)|, q + if r < 56 then 1 else 2, 0);
  }

  // The number of zeros is the least one that leaves room for the length at a block's end.
  lemma FewestZeros(n: nat, k: nat)
    ensures (n + 1 + ZeroCount(n)) % 64 == 56
    ensures k < ZeroCount(n) ==> (n + 1 + k) % 64 != 56
  {
    ZeroCountCases(n);
    hide ZeroCount;
    var (q, r) := (n / 64, n % 64);
    Mod64(n + 1 + ZeroCount(n), if r < 56 then q else q + 1, 56);
    if k < ZeroCount(n) {
      var t := r + 1 + k;
      Mod64(n + 1 + k, if t < 64 then q else q + 1, if t < 64 then t else t - 64);
    }
  }

  lemma {:induction false} FoldAppend<R>(compress: (R, seq<Byte>) -> R, s: R, p: seq<Byte>, q: seq<Byte>)
    requires |p| % 64 == 0
    ensures Fold(compress, s, p + q) == Fold(compress, Fold(compress, s, p), q)
    decreases |p|
  {
    if p == [] {
      assert p + q == q;
    } else {
      assert (p + q)[..64] == p[..64];
      assert (p + q)[64..] == p[64..] + q;
      FoldAppend(compress, compress(s, p[..64]), p[64..], q);
    }
  }

  // One more block, or a partial block, at the end of an aligned message.
  lemma FoldLast<R>(compress: (R, seq<Byte>) -> R, s: R, p: seq<Byte>, last: seq<Byte>)
    requires |p| % 64 == 0 && |last| <= 64
    ensures var t := Fold(compress, s, p);
            Fold(compress, s, p + last) == if |last| == 64 then compress(t, last) else t
  {
    FoldAppend(compress, s, p, last);
    if |last| == 64 {
      var t := Fold(compress, s, p);
      assert last[..64] == last;
      assert Fold(compress, t, last) == Fold(compress, compress(t, last), last[64..]);
    }
  }

  lemma AbsorbLast(p: seq<Byte>, last: seq<Byte>)
    requires |p| % 64 == 0 && |last| <= 64
    ensures Absorb(p + last) == if |last| == 64 then Compress(Absorb(p), last) else Absorb(p)
  {
    hide Compress;
    FoldLast(Compress, INITIAL, p, last);
  }
}
