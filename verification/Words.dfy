/** Machine words: the sizes of the unsigned integer types, bytes, and operations on bits. */
module Words {

  const UINT32: nat := 0x1_0000_0000
  const UINT64: nat := 0x1_0000_0000_0000_0000

  type Byte = x: int | 0 <= x < 0x100

  function Pow2(n: nat): (p: nat)
    ensures p > 0
  {
    if n == 0 then 1 else 2 * Pow2(n - 1)
  }

  // Bit i of a number, the lowest one first.
  predicate Bit(x: nat, i: nat) {
    if i == 0 then x % 2 == 1 else Bit(x / 2, i - 1)
  }

  // ----- The operators &, |, ^ and ~ -----

  function And(x: nat, y: nat): (r: nat)
    ensures r <= x
  {
    if x == 0 then 0 else (if x % 2 == 1 && y % 2 == 1 then 1 else 0) + 2 * And(x / 2, y / 2)
  }

  function Or(x: nat, y: nat): nat {
    if x == 0 then y else (if x % 2 == 1 || y % 2 == 1 then 1 else 0) + 2 * Or(x / 2, y / 2)
  }

  function Xor(x: nat, y: nat): nat {
    if x == 0 then y else (if x % 2 != y % 2 then 1 else 0) + 2 * Xor(x / 2, y / 2)
  }

  // In words of n bits.
  function Not(x: nat, n: nat): nat
    requires x < Pow2(n)
  {
    Pow2(n) - 1 - x
  }

  lemma {:induction false} AndBit(x: nat, y: nat, i: nat)
    ensures Bit(And(x, y), i) <==> Bit(x, i) && Bit(y, i)
    decreases i
  {
    if x == 0 {
      ZeroBit(i);
    } else if i > 0 {
      AndBit(x / 2, y / 2, i - 1);
    }
  }

  lemma {:induction false} OrBit(x: nat, y: nat, i: nat)
    ensures Bit(Or(x, y), i) <==> Bit(x, i) || Bit(y, i)
    decreases i
  {
    if x == 0 {
      ZeroBit(i);
    } else if i > 0 {
      OrBit(x / 2, y / 2, i - 1);
    }
  }

  lemma {:induction false} XorBit(x: nat, y: nat, i: nat)
    ensures Bit(Xor(x, y), i) <==> (Bit(x, i) != Bit(y, i))
    decreases i
  {
    if x == 0 {
      ZeroBit(i);
    } else if i > 0 {
      XorBit(x / 2, y / 2, i - 1);
    }
  }

  lemma {:induction false} NotBit(x: nat, n: nat, i: nat)
    requires x < Pow2(n) && i < n
    ensures Bit(Not(x, n), i) <==> !Bit(x, i)
    decreases n
  {
    var p := Pow2(n - 1);
    assert (2 * p - 1 - x) / 2 == p - 1 - x / 2 && (2 * p - 1 - x) % 2 == 1 - x % 2;
    if i > 0 {
      NotBit(x / 2, n - 1, i - 1);
    }
  }

  lemma {:induction false} ZeroBit(i: nat)
    ensures !Bit(0, i)
  {
    if i > 0 {
      ZeroBit(i - 1);
    }
  }

  lemma {:induction false} OrSize(x: nat, y: nat, n: nat)
    requires x < Pow2(n) && y < Pow2(n)
    ensures Or(x, y) < Pow2(n)
    decreases n
  {
    if x > 0 {
      OrSize(x / 2, y / 2, n - 1);
    }
  }

  lemma {:induction false} XorSize(x: nat, y: nat, n: nat)
    requires x < Pow2(n) && y < Pow2(n)
    ensures Xor(x, y) < Pow2(n)
    decreases n
  {
    if x > 0 {
      XorSize(x / 2, y / 2, n - 1);
    }
  }

  // ----- Shifts -----

  lemma {:induction false} Pow2Sum(a: nat, b: nat)
    ensures Pow2(a + b) == Pow2(a) * Pow2(b)
    decreases a
  {
    if a > 0 {
      Pow2Sum(a - 1, b);
      DoubledFirst(Pow2(a - 1), Pow2(b));
      Pow2Next(a - 1);
      Pow2Next(a - 1 + b);
      hide Pow2;
      assert a - 1 + b + 1 == a + b;
    }
  }

  lemma Pow2Next(n: nat)
    ensures Pow2(n + 1) == 2 * Pow2(n)
  {}

  lemma DoubledFirst(p: nat, q: nat)
    ensures (2 * p) * q == 2 * (p * q)
  {}

  lemma Doubled(x: nat, p: nat)
    ensures x * (2 * p) == 2 * (x * p)
  {}

  // Wrapping twice is wrapping once.
  lemma WrapTwice(a: nat, b: nat)
    ensures (a % UINT32 + b) % UINT32 == (a + b) % UINT32
  {
    var q := a / UINT32;
    assert a + b == UINT32 * q + (a % UINT32 + b);
  }

  lemma Pow2Of32()
    ensures Pow2(32) == UINT32
  {
    Pow2Sum(16, 16);
    Pow2Sum(8, 8);
    assert Pow2(8) == 0x100 by { assert Pow2(4) == 16 && Pow2(6) == 64; }
  }

  lemma Quotient(x: nat, d: nat)
    requires d > 0
    ensures 0 <= x / d <= x && 0 <= x % d < d && x == x / d * d + x % d
  {
    Multiple(x / d, d);
  }

  lemma {:induction false} DivMod(d: nat, q: nat, r: nat)
    requires r < d
    ensures (q * d + r) / d == q && (q * d + r) % d == r
    decreases q
  {
    if q > 0 {
      DivMod(d, q - 1, r);
      var x := (q - 1) * d + r;
      assert q * d + r == x + d;
      OneMore(d, x);
    }
  }

  lemma OneMore(d: nat, x: nat)
    requires d > 0
    ensures (x + d) / d == x / d + 1 && (x + d) % d == x % d
  {
    var (q, r) := (x / d, x % d);
    assert x + d == d * (q + 1) + r;
    SameQuotient(d, (x + d) / d, (x + d) % d, q + 1, r);
  }

  lemma SameQuotient(d: nat, q: int, r: int, q': int, r': int)
    requires d * q + r == d * q' + r' && 0 <= r < d && 0 <= r' < d
    ensures q == q' && r == r'
  {
    Difference(d, q, q');
    if q < q' {
      Multiple(d, q' - q);
    } else if q > q' {
      Multiple(d, q - q');
    }
  }

  lemma Difference(d: int, a: int, b: int)
    ensures d * a - d * b == d * (a - b) == -(d * (b - a))
  {}

  lemma Multiple(d: int, k: int)
    requires d >= 0 && k >= 1
    ensures d * k >= d
  {}

  // Numbers whose bits do not meet are combined by addition.
  lemma {:induction false} OrOfParts(k: nat, y: nat, n: nat)
    requires y < Pow2(n)
    ensures Or(k * Pow2(n), y) == k * Pow2(n) + y
    decreases n
  {
    if n == 0 {
      OrZero(k);
    } else if k > 0 {
      var p := Pow2(n - 1);
      Doubled(k, p);
      assert k * p > 0;
      OrOfParts(k, y / 2, n - 1);
    }
  }

  lemma {:induction false} OrZero(x: nat)
    ensures Or(x, 0) == x
  {
    if x > 0 {
      OrZero(x / 2);
    }
  }

  // Bits above a shift, below it, and of a sum of two parts.
  lemma {:induction false} BitOfParts(k: nat, y: nat, n: nat, i: nat)
    requires y < Pow2(n)
    ensures Bit(k * Pow2(n) + y, i) <==> if i < n then Bit(y, i) else Bit(k, i - n)
    decreases n
  {
    if n > 0 {
      var p := Pow2(n - 1);
      Doubled(k, p);
      var x := 2 * (k * p) + y;
      assert x / 2 == k * p + y / 2 && x % 2 == y % 2;
      if i > 0 {
        BitOfParts(k, y / 2, n - 1, i - 1);
      }
    }
  }

  lemma AndHalf(x: nat, y: nat)
    ensures And(x, y) == (if x % 2 == 1 && y % 2 == 1 then 1 else 0) + 2 * And(x / 2, y / 2)
  {}

  // A mask of n ones below three zeros and a one keeps the n low bits of a number of n + 3 bits.
  lemma {:induction false} AndMask(h: nat, y: nat, n: nat)
    requires h < 8 && y < Pow2(n)
    ensures And(h * Pow2(n) + y, 9 * Pow2(n) - 1) == y
    decreases n
  {
    hide And;
    if n == 0 {
      AndEight(h);
    } else {
      var p := Pow2(n - 1);
      var t := h * p;
      Doubled(h, p);
      AndMask(h, y / 2, n - 1);
      AndHalf(2 * t + y, 18 * p - 1);
      assert (2 * t + y) / 2 == t + y / 2 && (18 * p - 1) / 2 == 9 * p - 1;
    }
  }

  lemma AndEight(h: nat)
    requires h < 8
    ensures And(h, 8) == 0
  {
    AndHalf(h, 8);
    AndHalf(h / 2, 4);
    AndHalf(h / 4, 2);
  }
}
