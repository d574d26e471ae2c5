/**
 The MD5 compression function (utils/md5.cpp, section 3.4 of RFC 1321).

 Machine words are integers below 2^32 and every addition wraps explicitly.  The unrolled,
 register-renaming rounds of the source are methods; they are proved against one
 table-driven step function.
 */
module Md5Compression {
  import opened Words

  type Word = x: int | 0 <= x < 0x1_0000_0000
  type Amount = s: int | 0 < s < 32 witness 1

  datatype Registers<W> = Registers(a: W, b: W, c: W, d: W)

  function Plus(x: Word, y: Word): Word {
    (x + y) % UINT32
  }

  // ----- The four auxiliary functions and the rotation -----

  function OrWord(x: Word, y: Word): Word {
    Pow2Of32();
    OrSize(x, y, 32);
    Or(x, y)
  }

  function XorWord(x: Word, y: Word): Word {
    Pow2Of32();
    XorSize(x, y, 32);
    Xor(x, y)
  }

  function NotWord(x: Word): Word {
    Pow2Of32();
    Not(x, 32)
  }

  function F(x: Word, y: Word, z: Word): Word {
    OrWord(And(x, y), And(NotWord(x), z))
  }

  function G(x: Word, y: Word, z: Word): Word {
    OrWord(And(x, z), And(y, NotWord(z)))
  }

  function H(x: Word, y: Word, z: Word): Word {
    XorWord(XorWord(x, y), z)
  }

  function I(x: Word, y: Word, z: Word): Word {
    XorWord(y, OrWord(x, NotWord(z)))
  }

  function ShiftLeft(x: Word, n: Amount): Word {
    x * Pow2(n) % UINT32
  }

  function ShiftRight(x: Word, n: Amount): Word {
    Quotient(x, Pow2(n));
    x / Pow2(n)
  }

  function RotateLeft(x: Word, n: Amount): Word {
    OrWord(ShiftLeft(x, n), ShiftRight(x, 32 - n))
  }

  // Section 3.4 of RFC 1321: in each bit position F is a conditional on x, G one on z, H the
  // parity, and I as its truth table says.
  lemma AuxiliaryBits(x: Word, y: Word, z: Word, i: nat)
    requires i < 32
    ensures Bit(F(x, y, z), i) <==> if Bit(x, i) then Bit(y, i) else Bit(z, i)
    ensures Bit(G(x, y, z), i) <==> if Bit(z, i) then Bit(x, i) else Bit(y, i)
    ensures Bit(H(x, y, z), i) <==> ((Bit(x, i) != Bit(y, i)) != Bit(z, i))
    ensures Bit(I(x, y, z), i) <==> (Bit(y, i) != (Bit(x, i) || !Bit(z, i)))
  {
    Pow2Of32();
    hide Bit, And, Or, Xor, Not;
    NotBit(x, 32, i);
    NotBit(z, 32, i);
    AndBit(x, y, i);
    AndBit(NotWord(x), z, i);
    OrBit(And(x, y), And(NotWord(x), z), i);
    AndBit(x, z, i);
    AndBit(y, NotWord(z), i);
    OrBit(And(x, z), And(y, NotWord(z)), i);
    XorBit(x, y, i);
    XorBit(XorWord(x, y), z, i);
    OrBit(x, NotWord(z), i);
    XorBit(y, OrWord(x, NotWord(z)), i);
  }

  // The bits that the left shift drops come round at the low end: the quotient of the word by
  // 2^(32 - n) goes below the n-fold doubled remainder.
  lemma RotateParts(x: Word, n: Amount)
    ensures var (q, r) := (x / Pow2(32 - n), x % Pow2(32 - n));
            && x == q * Pow2(32 - n) + r && 0 <= r < Pow2(32 - n) && 0 <= q < Pow2(n)
            && ShiftLeft(x, n) == r * Pow2(n) && ShiftRight(x, 32 - n) == q
            && RotateLeft(x, n) == r * Pow2(n) + q
  {
    var (p, m) := (Pow2(n), Pow2(32 - n));
    var (q, r) := (x / m, x % m);
    Pow2Of32();
    Pow2Sum(n, 32 - n);
    hide Pow2, Or;
    Quotient(x, m);
    RotateNumbers(x, q, r, p, m);
    OrOfParts(r, q, n);
  }

  lemma RotateNumbers(x: nat, q: nat, r: nat, p: nat, m: nat)
    requires p * m == UINT32 && x == q * m + r && r < m && x < UINT32 && p > 0
    ensures q < p && x * p % UINT32 == r * p < UINT32
  {
    if q >= p {
      Product(q - p, m);
      Regroup(q - p, 1, p, m);
    }
    Product(m - r - 1, p);
    Regroup(m - r - 1, 1, r, p);
    Regroup(q, m, r, p);
    Commute(p, m);
    Commute(m, p);
    assert m * p == (m - r) * p + r * p;
    DivMod(UINT32, q, r * p);
  }

  lemma Commute(a: nat, b: nat)
    ensures a * b == b * a
  {}

  lemma Product(a: nat, b: nat)
    ensures a * b >= 0
  {}

  lemma Regroup(q: nat, m: nat, r: nat, p: nat)
    ensures (q * m + r) * p == q * (p * m) + r * p
  {}

  // The rotation of the source as arithmetic.
  lemma RotateSum(x: Word, n: Amount)
    ensures RotateLeft(x, n) == x * Pow2(n) % UINT32 + x / Pow2(32 - n)
  {
    RotateParts(x, n);
    hide Pow2, Or;
  }

  // Bit i moves to place i + n, and the n highest bits come round.
  lemma RotateBit(x: Word, n: Amount, i: nat)
    requires i < 32
    ensures Bit(RotateLeft(x, n), (i + n) % 32) <==> Bit(x, i)
  {
    RotateParts(x, n);
    var (q, r, j) := (x / Pow2(32 - n), x % Pow2(32 - n), (i + n) % 32);
    hide Pow2, Or, Bit, RotateLeft, ShiftLeft, ShiftRight;
    assert j == if i + n < 32 then i + n else i + n - 32;
    BitOfParts(q, r, 32 - n, i);
    BitOfParts(r, q, n, j);
  }

  datatype Auxiliary = UseF | UseG | UseH | UseI

  function Auxiliaries(f: Auxiliary, x: Word, y: Word, z: Word): Word {
    match f
    case UseF => F(x, y, z)
    case UseG => G(x, y, z)
    case UseH => H(x, y, z)
    case UseI => I(x, y, z)
  }

  // FF, GG, HH and II of the source are one operation over four auxiliary functions.
  function Mix(f: Auxiliary, a: Word, b: Word, c: Word, d: Word, x: Word, s: Amount, ac: Word): Word {
    Plus(RotateLeft(Plus(a, Plus(Plus(Auxiliaries(f, b, c, d), x), ac)), s), b)
  }

  // Section 3.4 of RFC 1321: a = b + ((a + f(b, c, d) + x + ac) <<< s), all modulo 2^32.
  lemma MixIs(f: Auxiliary, a: Word, b: Word, c: Word, d: Word, x: Word, s: Amount, ac: Word)
    ensures var v := match f
                     case UseF => F(b, c, d)
                     case UseG => G(b, c, d)
                     case UseH => H(b, c, d)
                     case UseI => I(b, c, d);
            var t := (a + v + x + ac) % UINT32;
            Mix(f, a, b, c, d, x, s, ac) == (b + t * Pow2(s) % UINT32 + t / Pow2(32 - s)) % UINT32
  {
    hide F, G, H, I, RotateLeft, Pow2;
    var v := Auxiliaries(f, b, c, d);
    SumsWrap(a, v, x, ac);
    var t := (a + v + x + ac) % UINT32;
    RotateSum(t, s);
    assert Mix(f, a, b, c, d, x, s, ac) == Plus(RotateLeft(t, s), b);
  }

  lemma SumsWrap(a: Word, v: Word, x: Word, ac: Word)
    ensures Plus(a, Plus(Plus(v, x), ac)) == (a + v + x + ac) % UINT32
  {
    WrapTwice(v + x, ac);
    WrapTwice(v + x + ac, a);
  }

  // The renaming of registers is correct whatever the mixing operation is, so it is
  // proved for an arbitrary one.
  type Mixer<!W> = (Auxiliary, W, W, W, W, W, Amount, Word) -> W

  // ----- The table-driven description of the 64 steps -----

  // The additive constant of step i.
  function Sine(i: nat): Word
    requires i < 64
  {
    if i < 16 then
      match i {
        case 0 => 0xd76aa478
        case 1 => 0xe8c7b756
        case 2 => 0x242070db
        case 3 => 0xc1bdceee
        case 4 => 0xf57c0faf
        case 5 => 0x4787c62a
        case 6 => 0xa8304613
        case 7 => 0xfd469501
        case 8 => 0x698098d8
        case 9 => 0x8b44f7af
        case 10 => 0xffff5bb1
        case 11 => 0x895cd7be
        case 12 => 0x6b901122
        case 13 => 0xfd987193
        case 14 => 0xa679438e
        case _ => 0x49b40821
      }
    else if i < 32 then
      match i {
        case 16 => 0xf61e2562
        case 17 => 0xc040b340
        case 18 => 0x265e5a51
        case 19 => 0xe9b6c7aa
        case 20 => 0xd62f105d
        case 21 => 0x2441453
        case 22 => 0xd8a1e681
        case 23 => 0xe7d3fbc8
        case 24 => 0x21e1cde6
        case 25 => 0xc33707d6
        case 26 => 0xf4d50d87
        case 27 => 0x455a14ed
        case 28 => 0xa9e3e905
        case 29 => 0xfcefa3f8
        case 30 => 0x676f02d9
        case _ => 0x8d2a4c8a
      }
    else if i < 48 then
      match i {
        case 32 => 0xfffa3942
        case 33 => 0x8771f681
        case 34 => 0x6d9d6122
        case 35 => 0xfde5380c
        case 36 => 0xa4beea44
        case 37 => 0x4bdecfa9
        case 38 => 0xf6bb4b60
        case 39 => 0xbebfbc70
        case 40 => 0x289b7ec6
        case 41 => 0xeaa127fa
        case 42 => 0xd4ef3085
        case 43 => 0x4881d05
        case 44 => 0xd9d4d039
        case 45 => 0xe6db99e5
        case 46 => 0x1fa27cf8
        case _ => 0xc4ac5665
      }
    else
      match i {
        case 48 => 0xf4292244
        case 49 => 0x432aff97
        case 50 => 0xab9423a7
        case 51 => 0xfc93a039
        case 52 => 0x655b59c3
        case 53 => 0x8f0ccc92
        case 54 => 0xffeff47d
        case 55 => 0x85845dd1
        case 56 => 0x6fa87e4f
        case 57 => 0xfe2ce6e0
        case 58 => 0xa3014314
        case 59 => 0x4e0811a1
        case 60 => 0xf7537e82
        case 61 => 0xbd3af235
        case 62 => 0x2ad7d2bb
        case _ => 0xeb86d391
      }
  }

  // The rotation amount of step i.
  function Shift(i: nat): Amount
    requires i < 64
  {
    var k := i % 4;
    if i < 16 then (if k == 0 then 7 else if k == 1 then 12 else if k == 2 then 17 else 22)
    else if i < 32 then (if k == 0 then 5 else if k == 1 then 9 else if k == 2 then 14 else 20)
    else if i < 48 then (if k == 0 then 4 else if k == 1 then 11 else if k == 2 then 16 else 23)
    else (if k == 0 then 6 else if k == 1 then 10 else if k == 2 then 15 else 21)
  }

  // The message word read by step i.
  function MessageIndex(i: nat): (k: nat)
    requires i < 64
    ensures k < 16
  {
    if i < 16 then i
    else if i < 32 then (5 * i + 1) % 16
    else if i < 48 then (3 * i + 5) % 16
    else (7 * i) % 16
  }

  function AuxiliaryOf(i: nat): Auxiliary {
    if i < 16 then UseF else if i < 32 then UseG else if i < 48 then UseH else UseI
  }

  // The tables of section 3.4 of RFC 1321: four rounds of sixteen steps.
  lemma StepTable(i: nat)
    requires i < 64
    ensures AuxiliaryOf(i) == [UseF, UseG, UseH, UseI][i / 16]
    ensures MessageIndex(i) == [i, 5 * i + 1, 3 * i + 5, 7 * i][i / 16] % 16
    ensures Shift(i) == [[7, 12, 17, 22], [5, 9, 14, 20], [4, 11, 16, 23], [6, 10, 15, 21]][i / 16][i % 4]
  {}

  // One step: the four registers move round by one place.
  function Step<W>(mix: Mixer<W>, r: Registers<W>, x: seq<W>, i: nat): Registers<W>
    requires |x| == 16 && i < 64
  {
    Registers(r.d,
              mix(AuxiliaryOf(i), r.a, r.b, r.c, r.d, x[MessageIndex(i)], Shift(i), Sine(i)),
              r.b,
              r.c)
  }

  // The registers after the first n steps.
  function Run<W>(mix: Mixer<W>, r: Registers<W>, x: seq<W>, n: nat): Registers<W>
    requires |x| == 16 && n <= 64
    decreases n, r
  {
    if n == 0 then r else Step(mix, Run(mix, r, x, n - 1), x, n - 1)
  }

  function FourSteps<W>(mix: Mixer<W>, r: Registers<W>, x: seq<W>, i: nat): Registers<W>
    requires |x| == 16 && i <= 60
  {
    Step(mix, Step(mix, Step(mix, Step(mix, r, x, i), x, i + 1), x, i + 2), x, i + 3)
  }

  function SixteenSteps<W>(mix: Mixer<W>, r: Registers<W>, x: seq<W>, i: nat): Registers<W>
    requires |x| == 16 && i <= 48
  {
    FourSteps(mix, FourSteps(mix, FourSteps(mix, FourSteps(mix, r, x, i), x, i + 4), x, i + 8), x, i + 12)
  }

  lemma RunFour<W>(mix: Mixer<W>, r: Registers<W>, x: seq<W>, n: nat)
    requires |x| == 16 && n <= 60
    ensures Run(mix, r, x, n + 4) == FourSteps(mix, Run(mix, r, x, n), x, n)
  {
    assert Run(mix, r, x, n + 2) == Step(mix, Run(mix, r, x, n + 1), x, n + 1);
    assert Run(mix, r, x, n + 3) == Step(mix, Run(mix, r, x, n + 2), x, n + 2);
  }

  lemma RunSixteen<W>(mix: Mixer<W>, r: Registers<W>, x: seq<W>, n: nat)
    requires |x| == 16 && n <= 48
    ensures Run(mix, r, x, n + 16) == SixteenSteps(mix, Run(mix, r, x, n), x, n)
  {
    RunFour(mix, r, x, n);
    RunFour(mix, r, x, n + 4);
    RunFour(mix, r, x, n + 8);
    RunFour(mix, r, x, n + 12);
  }

  // Round 1 of the unrolled transform: steps 1 to 16 of the source.
  method Round1<W>(mix: Mixer<W>, r: Registers<W>, x: seq<W>) returns (q: Registers<W>)
    requires |x| == 16
    ensures q == SixteenSteps(mix, r, x, 0)
  {
    var a, b, c, d := r.a, r.b, r.c, r.d;
    ghost var last := r;
    a := mix(UseF, a, b, c, d, x[0], 7, 0xd76aa478);
    d := mix(UseF, d, a, b, c, x[1], 12, 0xe8c7b756);
    c := mix(UseF, c, d, a, b, x[2], 17, 0x242070db);
    b := mix(UseF, b, c, d, a, x[3], 22, 0xc1bdceee);
    assert Registers(a, b, c, d) == FourSteps(mix, last, x, 0);
    last := Registers(a, b, c, d);
    a := mix(UseF, a, b, c, d, x[4], 7, 0xf57c0faf);
    d := mix(UseF, d, a, b, c, x[5], 12, 0x4787c62a);
    c := mix(UseF, c, d, a, b, x[6], 17, 0xa8304613);
    b := mix(UseF, b, c, d, a, x[7], 22, 0xfd469501);
    assert Registers(a, b, c, d) == FourSteps(mix, last, x, 4);
    last := Registers(a, b, c, d);
    a := mix(UseF, a, b, c, d, x[8], 7, 0x698098d8);
    d := mix(UseF, d, a, b, c, x[9], 12, 0x8b44f7af);
    c := mix(UseF, c, d, a, b, x[10], 17, 0xffff5bb1);
    b := mix(UseF, b, c, d, a, x[11], 22, 0x895cd7be);
    assert Registers(a, b, c, d) == FourSteps(mix, last, x, 8);
    last := Registers(a, b, c, d);
    a := mix(UseF, a, b, c, d, x[12], 7, 0x6b901122);
    d := mix(UseF, d, a, b, c, x[13], 12, 0xfd987193);
    c := mix(UseF, c, d, a, b, x[14], 17, 0xa679438e);
    b := mix(UseF, b, c, d, a, x[15], 22, 0x49b40821);
    q := Registers(a, b, c, d);
  }

  // Round 2 of the unrolled transform: steps 17 to 32 of the source.
  method Round2<W>(mix: Mixer<W>, r: Registers<W>, x: seq<W>) returns (q: Registers<W>)
    requires |x| == 16
    ensures q == SixteenSteps(mix, r, x, 16)
  {
    var a, b, c, d := r.a, r.b, r.c, r.d;
    ghost var last := r;
    a := mix(UseG, a, b, c, d, x[1], 5, 0xf61e2562);
    d := mix(UseG, d, a, b, c, x[6], 9, 0xc040b340);
    c := mix(UseG, c, d, a, b, x[11], 14, 0x265e5a51);
    b := mix(UseG, b, c, d, a, x[0], 20, 0xe9b6c7aa);
    assert Registers(a, b, c, d) == FourSteps(mix, last, x, 16);
    last := Registers(a, b, c, d);
    a := mix(UseG, a, b, c, d, x[5], 5, 0xd62f105d);
    d := mix(UseG, d, a, b, c, x[10], 9, 0x2441453);
    c := mix(UseG, c, d, a, b, x[15], 14, 0xd8a1e681);
    b := mix(UseG, b, c, d, a, x[4], 20, 0xe7d3fbc8);
    assert Registers(a, b, c, d) == FourSteps(mix, last, x, 20);
    last := Registers(a, b, c, d);
    a := mix(UseG, a, b, c, d, x[9], 5, 0x21e1cde6);
    d := mix(UseG, d, a, b, c, x[14], 9, 0xc33707d6);
    c := mix(UseG, c, d, a, b, x[3], 14, 0xf4d50d87);
    b := mix(UseG, b, c, d, a, x[8], 20, 0x455a14ed);
    assert Registers(a, b, c, d) == FourSteps(mix, last, x, 24);
    last := Registers(a, b, c, d);
    a := mix(UseG, a, b, c, d, x[13], 5, 0xa9e3e905);
    d := mix(UseG, d, a, b, c, x[2], 9, 0xfcefa3f8);
    c := mix(UseG, c, d, a, b, x[7], 14, 0x676f02d9);
    b := mix(UseG, b, c, d, a, x[12], 20, 0x8d2a4c8a);
    q := Registers(a, b, c, d);
  }

  // Round 3 of the unrolled transform: steps 33 to 48 of the source.
  method Round3<W>(mix: Mixer<W>, r: Registers<W>, x: seq<W>) returns (q: Registers<W>)
    requires |x| == 16
    ensures q == SixteenSteps(mix, r, x, 32)
  {
    var a, b, c, d := r.a, r.b, r.c, r.d;
    ghost var last := r;
    a := mix(UseH, a, b, c, d, x[5], 4, 0xfffa3942);
    d := mix(UseH, d, a, b, c, x[8], 11, 0x8771f681);
    c := mix(UseH, c, d, a, b, x[11], 16, 0x6d9d6122);
    b := mix(UseH, b, c, d, a, x[14], 23, 0xfde5380c);
    assert Registers(a, b, c, d) == FourSteps(mix, last, x, 32);
    last := Registers(a, b, c, d);
    a := mix(UseH, a, b, c, d, x[1], 4, 0xa4beea44);
    d := mix(UseH, d, a, b, c, x[4], 11, 0x4bdecfa9);
    c := mix(UseH, c, d, a, b, x[7], 16, 0xf6bb4b60);
    b := mix(UseH, b, c, d, a, x[10], 23, 0xbebfbc70);
    assert Registers(a, b, c, d) == FourSteps(mix, last, x, 36);
    last := Registers(a, b, c, d);
    a := mix(UseH, a, b, c, d, x[13], 4, 0x289b7ec6);
    d := mix(UseH, d, a, b, c, x[0], 11, 0xeaa127fa);
    c := mix(UseH, c, d, a, b, x[3], 16, 0xd4ef3085);
    b := mix(UseH, b, c, d, a, x[6], 23, 0x4881d05);
    assert Registers(a, b, c, d) == FourSteps(mix, last, x, 40);
    last := Registers(a, b, c, d);
    a := mix(UseH, a, b, c, d, x[9], 4, 0xd9d4d039);
    d := mix(UseH, d, a, b, c, x[12], 11, 0xe6db99e5);
    c := mix(UseH, c, d, a, b, x[15], 16, 0x1fa27cf8);
    b := mix(UseH, b, c, d, a, x[2], 23, 0xc4ac5665);
    q := Registers(a, b, c, d);
  }

  // Round 4 of the unrolled transform: steps 49 to 64 of the source.
  method Round4<W>(mix: Mixer<W>, r: Registers<W>, x: seq<W>) returns (q: Registers<W>)
    requires |x| == 16
    ensures q == SixteenSteps(mix, r, x, 48)
  {
    var a, b, c, d := r.a, r.b, r.c, r.d;
    ghost var last := r;
    a := mix(UseI, a, b, c, d, x[0], 6, 0xf4292244);
    d := mix(UseI, d, a, b, c, x[7], 10, 0x432aff97);
    c := mix(UseI, c, d, a, b, x[14], 15, 0xab9423a7);
    b := mix(UseI, b, c, d, a, x[5], 21, 0xfc93a039);
    assert Registers(a, b, c, d) == FourSteps(mix, last, x, 48);
    last := Registers(a, b, c, d);
    a := mix(UseI, a, b, c, d, x[12], 6, 0x655b59c3);
    d := mix(UseI, d, a, b, c, x[3], 10, 0x8f0ccc92);
    c := mix(UseI, c, d, a, b, x[10], 15, 0xffeff47d);
    b := mix(UseI, b, c, d, a, x[1], 21, 0x85845dd1);
    assert Registers(a, b, c, d) == FourSteps(mix, last, x, 52);
    last := Registers(a, b, c, d);
    a := mix(UseI, a, b, c, d, x[8], 6, 0x6fa87e4f);
    d := mix(UseI, d, a, b, c, x[15], 10, 0xfe2ce6e0);
    c := mix(UseI, c, d, a, b, x[6], 15, 0xa3014314);
    b := mix(UseI, b, c, d, a, x[13], 21, 0x4e0811a1);
    assert Registers(a, b, c, d) == FourSteps(mix, last, x, 56);
    last := Registers(a, b, c, d);
    a := mix(UseI, a, b, c, d, x[4], 6, 0xf7537e82);
    d := mix(UseI, d, a, b, c, x[11], 10, 0xbd3af235);
    c := mix(UseI, c, d, a, b, x[2], 15, 0x2ad7d2bb);
    b := mix(UseI, b, c, d, a, x[9], 21, 0xeb86d391);
    q := Registers(a, b, c, d);
  }

  // All 64 unrolled steps are the table-driven run.
  method Rounds<W>(mix: Mixer<W>, r: Registers<W>, x: seq<W>) returns (q: Registers<W>)
    requires |x| == 16
    ensures q == Run(mix, r, x, 64)
  {
    hide Step, FourSteps, SixteenSteps;
    q := Round1(mix, r, x);
    q := Round2(mix, q, x);
    q := Round3(mix, q, x);
    q := Round4(mix, q, x);
    RunSixteen(mix, r, x, 0);
    RunSixteen(mix, r, x, 16);
    RunSixteen(mix, r, x, 32);
    RunSixteen(mix, r, x, 48);
  }
}
