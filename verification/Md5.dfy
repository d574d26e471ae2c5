/**
 The MD5 object of utils/md5.h and utils/md5.cpp.

 Input memory is a sequence; `_state`, `_count`, `_buffer` and `_digest` are arrays updated
 in place.  Each method takes the message absorbed so far as a ghost argument.
 */
module Md5 {
  import opened Words
  import opened Md5Compression
  import opened Md5Stream

  // ----- The 32-bit loop counter of update -----

  // The test of the block loop: i + 63 is computed in 32 bits, length in 64.
  predicate LoopTest(i: int, length: nat) {
    (i + 63) % UINT32 < length
  }

  // The counter before iteration k, when the buffer held index bytes.
  function Counter(index: nat, k: nat): int {
    (64 - index + 64 * k) % UINT32
  }

  // The lengths on which the block loop of update comes to its end.
  predicate Accepts(index: nat, length: nat) {
    length < UINT32 && (index == 0 || index + length < UINT32)
  }

  lemma CounterAt(index: nat, k: nat)
    requires index < 64 && 64 * k + 64 - index < UINT32
    ensures Counter(index, k) == 64 * k + 64 - index
  {}

  // The loop ends for exactly the accepted lengths: on any other its counter wraps for ever.
  lemma LoopEnds(index: nat, length: nat)
    requires index < 64 && 64 - index <= length
    ensures (exists k: nat :: !LoopTest(Counter(index, k), length)) <==> Accepts(index, length)
  {
    if Accepts(index, length) {
      var k := (length + index) / 64 - 1;
      CounterAt(index, k);
      assert !LoopTest(Counter(index, k), length);
    } else {
      forall k: nat
        ensures LoopTest(Counter(index, k), length)
      {
        CounterWraps(index, length, k);
      }
    }
  }

  // On a length that is not accepted no value of the counter ends the loop.
  lemma CounterWraps(index: nat, length: nat, k: nat)
    requires index < 64 && 64 - index <= length && !Accepts(index, length)
    ensures LoopTest(Counter(index, k), length)
  {
    var i := Counter(index, k);
    if length < UINT32 {
      var w := (64 - index + 64 * k) / UINT32;
      var j := 1 + k - 0x400_0000 * w;
      assert i == 64 * j - index;
      if j == 0x400_0000 {
        assert i + 63 == UINT32 + (63 - index);
        assert (i + 63) % UINT32 == 63 - index;
      } else {
        assert j < 0x400_0000 && i + 63 < UINT32 - index;
      }
    }
  }

  // On an accepted length the counter does not wrap while it is inside the input.
  lemma CounterInside(i: nat, start: nat, length: nat)
    requires 0 < start <= 64 && start <= i <= length && (i - start) % 64 == 0 && Accepts(64 - start, length)
    ensures LoopTest(i, length) <==> i + 63 < length
  {
    assert i + 63 < UINT32;
  }

  lemma NextCounter(i: nat, start: nat, length: nat, n: nat)
    requires 0 < start <= 64 && start <= i && i + 63 < length && Accepts(64 - start, length)
    requires (i - start) % 64 == 0 && (n + i) % 64 == 0
    ensures (i + 64) % UINT32 == i + 64 && (i + 64 - start) % 64 == 0 && (n + (i + 64)) % 64 == 0
  {}

  // ----- The two-word bit count -----

  // Adding 8 * length with a carry detected by comparison, as update does.
  function AddBits(count: seq<Word>, length: nat): seq<Word>
    requires |count| == 2
  {
    var shifted := 8 * length % UINT32;
    var low := (count[0] + shifted) % UINT32;
    var high := if low < shifted then (count[1] + 1) % UINT32 else count[1];
    [low, (high + length / 0x2000_0000) % UINT32]
  }

  lemma CountAdds(n: nat, length: nat)
    requires length < UINT32
    ensures AddBits(BitLength(n), length) == BitLength(n + length)
  {
    var (qn, rn) := (8 * n / UINT32, 8 * n % UINT32);
    var (ql, rl) := (8 * length / UINT32, 8 * length % UINT32);
    var carry := if rn + rl < UINT32 then 0 else 1;
    Shifted(length);
    LowWord(rn, rl);
    HighWord(qn, carry, ql);
    ModWord(8 * (n + length), qn + ql + carry, rn + rl - UINT32 * carry);
  }

  lemma Shifted(length: nat)
    ensures 8 * length / UINT32 == length / 0x2000_0000
  {}

  // The carry is found by comparing the sum with a summand.
  lemma LowWord(x: Word, y: Word)
    ensures (x + y) % UINT32 == if x + y < UINT32 then x + y else x + y - UINT32
    ensures (x + y) % UINT32 < y <==> x + y >= UINT32
  {}

  lemma HighWord(high: nat, carry: nat, more: nat)
    ensures ((high % UINT32 + carry) % UINT32 + more) % UINT32 == (high + more + carry) % UINT32
    ensures carry == 0 ==> (high % UINT32 + more) % UINT32 == (high + more + carry) % UINT32
  {
    ModSum(high % UINT32, carry, more);
    ModSum(high, 0, carry + more);
  }

  lemma ModSum(a: nat, b: nat, c: nat)
    ensures ((a + b) % UINT32 + c) % UINT32 == (a + b + c) % UINT32
  {
    var q := (a + b) / UINT32;
    assert a + b + c == UINT32 * q + ((a + b) % UINT32 + c);
  }

  lemma IndexOfCount(n: nat)
    ensures 8 * n % UINT32 / 8 % 64 == n % 64
  {
    var (q, r) := (n / 0x2000_0000, n % 0x2000_0000);
    ModWord(8 * n, q, 8 * r);
    assert 8 * r / 8 == r;
    Mod64(n, 0x80_0000 * q + r / 64, r % 64);
  }

  lemma ByteIndex(i: nat, k: nat)
    requires k < 4
    ensures (4 * i + k) / 4 == i && (4 * i + k) % 4 == k
  {}

  lemma ModWord(n: nat, q: nat, r: nat)
    requires n == UINT32 * q + r && r < UINT32
    ensures n / UINT32 == q && n % UINT32 == r
  {}

  // ----- What digest() does to the stream -----

  // The last block of the padded message; it is what the buffer holds after digest().
  function LastBlock(m: seq<Byte>): (b: seq<Byte>)
    ensures |b| == 64
  {
    PadLength(m);
    var p := Pad(m);
    p[|p| - 64..]
  }

  // The message that the object represents after digest(): the buffered tail of m is
  // overwritten by the same number of bytes of the last padded block.
  function AfterDigest(m: seq<Byte>): seq<Byte> {
    var r := |m| % 64;
    m[..|m| - r] + LastBlock(m)[..r]
  }

  lemma LastBlockBytes(m: seq<Byte>)
    ensures var r := |m| % 64;
            r < 56 ==> LastBlock(m)[..r] == m[|m| - r..]
    ensures |m| % 64 >= 56 ==> LastBlock(m) == Zeros(56) + EncodeWords(BitLength(|m|))
  {
    var (p, r) := (Pad(m), |m| % 64);
    assert |m| == 64 * (|m| / 64) + r;
    if r < 56 {
      assert ZeroCount(|m|) == 55 - r;
      assert |p| - 64 == |m| - r;
      assert p[..|m|] == m;
      assert p[|p| - 64..][..r] == p[..|m|][|m| - r..];
    } else {
      assert ZeroCount(|m|) == 119 - r;
      assert |p| - 64 == |m| + 64 - r;
      assert p == (m + [0x80] + Zeros(63 - r)) + (Zeros(56) + EncodeWords(BitLength(|m|)));
    }
  }

  const PADDING: seq<Byte> := [0x80] + Zeros(63)

  // The padding that final appends to a message with some buffered bytes.
  function PadLenAt(index: nat): nat
    requires index < 64
  {
    if index < 56 then 56 - index else 120 - index
  }

  function PadLen(n: nat): (k: nat)
    ensures 0 < k <= 64 && (n + k) % 64 == 56
  {
    assert n == 64 * (n / 64) + n % 64;
    PadLenAt(n % 64)
  }

  // The two updates made by final() append exactly the padding.
  lemma PadInTwoUpdates(m: seq<Byte>)
    ensures m + PADDING[..PadLen(|m|)] + EncodeWords(BitLength(|m|)) == Pad(m)
  {
    var k := PadLen(|m|);
    assert k == 1 + ZeroCount(|m|);
    assert PADDING[..k] == [0x80] + Zeros(k - 1);
  }

  // digest() leaves the stream as it was exactly when fewer than 56 bytes are buffered, or
  // when the buffered bytes happen to be the bytes it writes over them.
  lemma DigestKeepsStream(m: seq<Byte>)
    ensures var r := |m| % 64;
            AfterDigest(m) == m <==>
            r < 56 || m[|m| - r..] == (Zeros(56) + EncodeWords(BitLength(|m|)))[..r]
    ensures AfterDigest(AfterDigest(m)) == AfterDigest(m)
  {
    LastBlockBytes(m);
    var (r, a) := (|m| % 64, AfterDigest(m));
    assert m == m[..|m| - r] + m[|m| - r..];
    assert a[|a| - r..] == LastBlock(m)[..r];
    LastBlockBytes(a);
    assert a[..|a| - r] == m[..|m| - r];
  }

  // 56 bytes of 'a': a second digest() is computed over a different message.
  lemma DigestClobbers(m: seq<Byte>)
    requires m == seq(56, _ => 0x61)
    ensures AfterDigest(m) == Zeros(56) && AfterDigest(m) != m
  {
    LastBlockBytes(m);
    assert AfterDigest(m)[0] != m[0];
  }

  lemma WholeBlocks(n: nat)
    ensures (n - n % 64) % 64 == 0
  {
    Mod64(n - n % 64, n / 64, 0);
  }

  // The aligned part and the buffered tail of a message.
  lemma SplitTail(p: seq<Byte>, tail: seq<Byte>)
    requires |p| % 64 == 0 && |tail| < 64
    ensures var m := p + tail;
            |m| % 64 == |tail| && m[|m| - |tail|..] == tail && Absorb(m) == Absorb(p)
  {
    hide Absorb;
    AbsorbLast(p, tail);
  }

  class Md5 {
    const state: array<Word>
    const count: array<Word>
    const buffer: array<Byte>
    const digest: array<Byte>
    var finished: bool

    ghost predicate Valid() {
      && state.Length == 4 && count.Length == 2 && buffer.Length == 64 && digest.Length == 16
      && state != count && buffer != digest
    }

    function Value(): Registers<Word>
      requires state.Length == 4
      reads state
    {
      Registers(state[0], state[1], state[2], state[3])
    }

    // The object represents message m.
    ghost predicate Absorbed(m: seq<Byte>)
      requires Valid()
      reads state, count, buffer
    {
      && Value() == Absorb(m)
      && count[..] == BitLength(|m|)
      && buffer[..|m| % 64] == m[|m| - |m| % 64..]
    }

    constructor ()
      ensures Valid() && fresh(state) && fresh(count) && fresh(buffer) && fresh(digest)
      ensures Absorbed([]) && !finished
    {
      state := new Word[4];
      count := new Word[2];
      buffer := new Byte[64];
      digest := new Byte[16];
      new;
      Reset();
    }

    method Reset()
      requires Valid()
      modifies this`finished, state, count
      ensures Absorbed([]) && !finished
      ensures state[..] == [0x6745_2301, 0xefcd_ab89, 0x98ba_dcfe, 0x1032_5476] && count[..] == [0, 0]
    {
      finished := false;
      count[0], count[1] := 0, 0;
      state[0], state[1], state[2], state[3] := 0x67452301, 0xefcdab89, 0x98badcfe, 0x10325476;
    }

    method Encode(input: array<Word>, output: array<Byte>, length: nat)
      requires length % 4 == 0 && length <= output.Length && length <= 4 * input.Length
      modifies output
      ensures output[..length] == EncodeWords(input[..length / 4])
      ensures output[length..] == old(output[length..])
    {
      hide ByteOf;
      var i, j := 0, 0;
      while j < length
        invariant j == 4 * i <= length
        invariant forall k :: 0 <= k < j ==> output[k] == ByteOf(input[k / 4], k % 4)
        invariant forall k :: j <= k < output.Length ==> output[k] == old(output[k])
      {
        output[j] := ByteOf(input[i], 0);
        output[j + 1] := ByteOf(input[i], 1);
        output[j + 2] := ByteOf(input[i], 2);
        output[j + 3] := ByteOf(input[i], 3);
        ByteIndex(i, 0);
        ByteIndex(i, 1);
        ByteIndex(i, 2);
        ByteIndex(i, 3);
        i, j := i + 1, j + 4;
      }
    }

    method Decode(input: seq<Byte>, output: array<Word>)
      requires |input| % 4 == 0 && |input| == 4 * output.Length
      modifies output
      ensures output[..] == DecodeWords(input)
    {
      var i, j := 0, 0;
      while j < |input|
        invariant j == 4 * i <= |input|
        invariant forall k :: 0 <= k < i ==>
          output[k] == WordOf(input[4 * k], input[4 * k + 1], input[4 * k + 2], input[4 * k + 3])
      {
        output[i] := WordOf(input[j], input[j + 1], input[j + 2], input[j + 3]);
        i, j := i + 1, j + 4;
      }
    }

    // The unrolled transform, with its 64 steps in four rounds.
    method Transform(block: seq<Byte>)
      requires Valid() && |block| == 64
      modifies state
      ensures Value() == Compress(old(Value()), block)
    {
      hide Run, Mix;
      var x := new Word[16];
      Decode(block, x);
      var r := Rounds(Mix, Value(), x[..]);
      state[0] := Plus(state[0], r.a);
      state[1] := Plus(state[1], r.b);
      state[2] := Plus(state[2], r.c);
      state[3] := Plus(state[3], r.d);
    }

    // memcpy into the buffer.
    method CopyIn(at: nat, bytes: seq<Byte>)
      requires Valid() && at + |bytes| <= 64
      modifies buffer
      ensures buffer[..] == old(buffer[..at]) + bytes + old(buffer[at + |bytes|..])
    {
      for k := 0 to |bytes|
        invariant forall j :: 0 <= j < k ==> buffer[at + j] == bytes[j]
        invariant forall j :: 0 <= j < at || at + k <= j < 64 ==> buffer[j] == old(buffer[j])
      {
        buffer[at + k] := bytes[k];
      }
    }

    method BufferedBytes(ghost n: nat) returns (index: nat)
      requires Valid() && count[..] == BitLength(n)
      ensures index == n % 64
    {
      IndexOfCount(n);
      index := count[0] / 8 % 64;
    }

    // Adds the length of the input to the bit count.
    method AddCount(length: nat, ghost n: nat)
      requires Valid() && length < UINT32 && count[..] == BitLength(n)
      modifies count
      ensures count[..] == BitLength(n + length)
    {
      hide BitLength;
      CountAdds(n, length);
      ghost var before := count[..];
      var shifted := 8 * length % UINT32;
      count[0] := (count[0] + shifted) % UINT32;
      if count[0] < shifted {
        count[1] := (count[1] + 1) % UINT32;
      }
      count[1] := (count[1] + length / 0x2000_0000) % UINT32;
      assert count[..] == AddBits(before, length);
    }

    // The block loop of update, from the first full block that lies in the input itself.
    method TransformAll(input: seq<Byte>, start: Word, ghost m: seq<Byte>) returns (i: Word)
      requires Valid() && 0 < start <= 64 && start <= |input| && Accepts(64 - start, |input|)
      requires (|m| + start) % 64 == 0
      requires Value() == Absorb(m + input[..start])
      modifies state
      ensures start <= i <= |input| < i + 64 && (|m| + i) % 64 == 0
      ensures Value() == Absorb(m + input[..i])
    {
      hide Compress, Absorb, LoopTest, Accepts;
      i := start;
      CounterInside(i, start, |input|);
      while LoopTest(i, |input|)
        invariant start <= i <= |input| && (i - start) % 64 == 0 && (|m| + i) % 64 == 0
        invariant LoopTest(i, |input|) <==> i + 63 < |input|
        invariant Value() == Absorb(m + input[..i])
        decreases |input| - i
      {
        var block := input[i..i + 64];
        Transform(block);
        AbsorbLast(m + input[..i], block);
        assert (m + input[..i]) + block == m + input[..i + 64];
        NextCounter(i, start, |input|, |m|);
        i := (i + 64) % UINT32;
        CounterInside(i, start, |input|);
      }
    }

    // Completes the buffered block with the head of the input and compresses every full block.
    method AbsorbBlocks(input: seq<Byte>, index: nat, ghost p: seq<Byte>) returns (i: Word)
      requires Valid() && index < 64 <= index + |input| && Accepts(index, |input|)
      requires |p| % 64 == 0 && Value() == Absorb(p)
      modifies state, buffer
      ensures 64 - index <= i <= |input| < i + 64 && (index + i) % 64 == 0
      ensures Value() == Absorb(p + (old(buffer[..index]) + input[..i]))
      ensures buffer[..] == old(buffer[..index]) + input[..64 - index]
    {
      hide Compress, Absorb;
      var partLen := 64 - index;
      ghost var tail := buffer[..index];
      CopyIn(index, input[..partLen]);
      ghost var block := tail + input[..partLen];
      assert buffer[..] == block;
      Transform(buffer[..]);
      AbsorbLast(p, block);
      assert p + block == (p + tail) + input[..partLen];
      i := TransformAll(input, partLen, p + tail);
      assert p + (tail + input[..i]) == (p + tail) + input[..i];
    }

    // Input that completes at least one block.
    method UpdateBlocks(input: seq<Byte>, index: nat, ghost p: seq<Byte>, ghost tail: seq<Byte>)
      requires Valid() && |p| % 64 == 0 && index == |tail| < 64 <= index + |input| && Accepts(index, |input|)
      requires Value() == Absorb(p) && buffer[..index] == tail
      modifies state, buffer
      ensures var m := p + tail + input;
              Value() == Absorb(m) && buffer[..|m| % 64] == m[|m| - |m| % 64..]
      ensures index + |input| == 64 ==> buffer[..] == tail + input
    {
      hide Compress, Absorb, Accepts;
      var i := AbsorbBlocks(input, index, p);
      ghost var whole := p + (tail + input[..i]);
      var rest := input[i..];
      assert p + tail + input == whole + rest;
      SplitTail(whole, rest);
      CopyIn(0, rest);
      assert buffer[..|rest|] == rest;
      if index + |input| == 64 {
        assert rest == [] && input[..64 - index] == input;
      }
    }

    // Input that fits into the buffer.
    method UpdateTail(input: seq<Byte>, index: nat, ghost p: seq<Byte>, ghost tail: seq<Byte>)
      requires Valid() && |p| % 64 == 0 && index == |tail| && index + |input| < 64
      requires Value() == Absorb(p) && buffer[..index] == tail
      modifies buffer
      ensures var m := p + tail + input;
              Value() == Absorb(m) && buffer[..|m| % 64] == m[|m| - |m| % 64..]
    {
      hide Compress, Absorb;
      ghost var rest := tail + input;
      assert p + tail + input == p + rest;
      SplitTail(p, rest);
      CopyIn(index, input);
      assert buffer[..|rest|] == rest;
    }

    method Update(input: seq<Byte>, ghost m: seq<Byte>)
      requires Valid() && Absorbed(m) && Accepts(|m| % 64, |input|)
      modifies this`finished, state, count, buffer
      ensures Absorbed(m + input) && !finished
      ensures |m| % 64 + |input| == 64 ==> buffer[..] == old(buffer[..|m| % 64]) + input
    {
      hide Compress, Absorb, BitLength;
      finished := false;
      var index := BufferedBytes(|m|);
      AddCount(|input|, |m|);
      ghost var (p, tail) := (m[..|m| - index], buffer[..index]);
      assert m == p + tail;
      WholeBlocks(|m|);
      SplitTail(p, tail);
      hide Accepts;
      if 64 - index <= |input| {
        UpdateBlocks(input, index, p, tail);
      } else {
        UpdateTail(input, index, p, tail);
      }
    }

    method UpdateAll(chunks: seq<seq<Byte>>)
      requires Valid() && Absorbed([]) && AllAccepted(chunks) && !finished
      modifies this`finished, state, count, buffer
      ensures Absorbed(Concat(chunks)) && !finished
    {
      hide Absorbed, Accepts;
      for i := 0 to |chunks|
        invariant Absorbed(Concat(chunks[..i])) && !finished
      {
        assert chunks[..i + 1][..i] == chunks[..i];
        Update(chunks[i], Concat(chunks[..i]));
      }
      assert chunks[..|chunks|] == chunks;
    }

    // The two updates of final(): the padding and the bit count taken before it.
    method PadOut(ghost m: seq<Byte>)
      requires Valid() && Absorbed(m)
      modifies this`finished, state, count, buffer
      ensures Value() == Absorb(Pad(m)) && buffer[..] == LastBlock(m) && !finished
    {
      hide Compress, Absorb, Absorbed, BitLength, EncodeWords, Pad, PadLenAt, PADDING, Accepts, LastBlock;
      CountOf(m);
      var bits := new Byte[8];
      Encode(count, bits, 8);
      var lengthBytes := bits[..];
      assert lengthBytes == EncodeWords(BitLength(|m|)) by { assert count[..2] == count[..]; }
      var index := BufferedBytes(|m|);
      PaddingLength();
      var padLen := PadLenAt(index);
      assert padLen == PadLen(|m|);
      hide PadLen;
      ghost var m1 := m + PADDING[..padLen];
      PadInTwoUpdates(m);
      ShortAccepted(index, padLen);
      Update(PADDING[..padLen], m);
      ghost var tail := buffer[..56];
      TailOf(m1);
      ShortAccepted(56, 8);
      Update(lengthBytes, m1);
      CountOf(m1 + lengthBytes);
      LastOf(m, m1, tail, lengthBytes);
    }

    lemma CountOf(m: seq<Byte>)
      requires Valid() && Absorbed(m)
      ensures count[..] == BitLength(|m|) && Value() == Absorb(m)
    {}

    lemma TailOf(m: seq<Byte>)
      requires Valid() && Absorbed(m) && |m| % 64 == 56
      ensures buffer[..56] == m[|m| - 56..]
    {}

    lemma PaddingLength()
      ensures |PADDING| == 64
    {}

    lemma ShortAccepted(index: nat, length: nat)
      requires index < 64 && length <= 64
      ensures Accepts(index, length)
    {}

    // The last padded block, put together in the buffer by the two updates.
    lemma LastOf(m: seq<Byte>, m1: seq<Byte>, tail: seq<Byte>, lengthBytes: seq<Byte>)
      requires |m1| >= 56 && |tail| == 56 && |lengthBytes| == 8
      requires tail == m1[|m1| - 56..] && Pad(m) == m1 + lengthBytes
      ensures LastBlock(m) == tail + lengthBytes
    {
      hide Pad;
      assert LastBlock(m) == (m1 + lengthBytes)[|m1| - 56..];
    }

    method Final(ghost m: seq<Byte>)
      requires Valid() && Absorbed(m)
      modifies this`finished, state, count, buffer, digest
      ensures digest[..] == Md5Digest(m)
      ensures Value() == old(Value()) && count[..] == old(count[..])
      ensures buffer[..] == LastBlock(m) && !finished
    {
      hide Compress, Absorb, BitLength, EncodeWords, Pad, LastBlock;
      var oldState, oldCount := state[..], count[..];
      PadOut(m);
      Encode(state, digest, 16);
      assert state[..4] == [state[0], state[1], state[2], state[3]];
      assert digest[..16] == digest[..];
      state[0], state[1], state[2], state[3] := oldState[0], oldState[1], oldState[2], oldState[3];
      count[0], count[1] := oldCount[0], oldCount[1];
      assert count[..] == oldCount;
    }

    // The flag set here is cleared again by the updates inside final(), so it never stays set.
    method Digest(ghost m: seq<Byte>) returns (d: seq<Byte>)
      requires Valid() && Absorbed(m)
      modifies this`finished, state, count, buffer, digest
      ensures d == digest[..]
      ensures !old(finished) ==> d == Md5Digest(m) && Absorbed(AfterDigest(m)) && !finished
      ensures old(finished) ==> digest[..] == old(digest[..]) && Absorbed(m) && finished
    {
      hide Compress, Absorb, BitLength, Md5Digest;
      if !finished {
        finished := true;
        Final(m);
        ghost var r := |m| % 64;
        ghost var (p, b) := (m[..|m| - r], LastBlock(m)[..r]);
        SplitTail(p, m[|m| - r..]);
        SplitTail(p, b);
        assert m == p + m[|m| - r..];
        assert buffer[..r] == b;
      }
      d := digest[..];
    }

    method BytesToHexString(input: seq<Byte>) returns (s: string)
      ensures s == HexString(input)
    {
      s := "";
      for i := 0 to |input|
        invariant |s| == 2 * i
        invariant forall j :: 0 <= j < 2 * i ==> s[j] == HexString(input)[j]
      {
        var t := input[i];
        s := s + [HexDigit(t / 16)];
        s := s + [HexDigit(t % 16)];
      }
    }

    method ToString(ghost m: seq<Byte>) returns (s: string)
      requires Valid() && Absorbed(m) && !finished
      modifies this`finished, state, count, buffer, digest
      ensures s == HexString(Md5Digest(m)) && Absorbed(AfterDigest(m)) && !finished
    {
      hide Compress, Absorb, BitLength, Md5Digest, HexString;
      var d := Digest(m);
      s := BytesToHexString(d);
    }
  }

  function Concat(chunks: seq<seq<Byte>>): seq<Byte> {
    if chunks == [] then [] else Concat(chunks[..|chunks| - 1]) + chunks[|chunks| - 1]
  }

  // Every chunk is one that update accepts after the chunks before it.
  ghost predicate AllAccepted(chunks: seq<seq<Byte>>) {
    forall i :: 0 <= i < |chunks| ==> Accepts(|Concat(chunks[..i])| % 64, |chunks[i]|)
  }

  // However a message is cut into chunks, the hexadecimal digest is that of the whole.
  method HashChunks(chunks: seq<seq<Byte>>) returns (hex: string)
    requires AllAccepted(chunks)
    ensures hex == HexString(Md5Digest(Concat(chunks)))
  {
    hide *;
    var md5 := new Md5();
    md5.UpdateAll(chunks);
    hex := md5.ToString(Concat(chunks));
  }
}
