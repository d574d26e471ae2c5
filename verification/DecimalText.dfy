/** Decimal notation, as boost::lexical_cast<std::string> writes a non-negative integer. */
module DecimalText {

  predicate IsDigit(c: char) {
    '0' <= c <= '9'
  }

  predicate AllDigits(s: string) {
    forall i :: 0 <= i < |s| ==> IsDigit(s[i])
  }

  function Digit(d: nat): char
    requires d < 10
  {
    "0123456789"[d]
  }

  function Decimal(n: nat): (s: string)
    ensures 0 < |s| <= n + 1
    ensures forall c :: c in s ==> IsDigit(c)
  {
    if n < 10 then [Digit(n)] else Decimal(n / 10) + [Digit(n % 10)]
  }

  function Number(s: string): (n: int)
    ensures AllDigits(s) ==> n >= 0
  {
    if s == "" then 0 else 10 * Number(s[..|s| - 1]) + (s[|s| - 1] as int - '0' as int)
  }

  // The notation can be read back.
  lemma {:induction false} NumberOfDecimal(n: nat)
    ensures Number(Decimal(n)) == n
  {
    var s := Decimal(n);
    DigitValue(n % 10);
    if n < 10 {
      assert s[..0] == "" && s[0] == Digit(n);
    } else {
      NumberOfDecimal(n / 10);
      assert s[..|s| - 1] == Decimal(n / 10) && s[|s| - 1] == Digit(n % 10);
    }
  }

  lemma DigitValue(d: nat)
    requires d < 10
    ensures Digit(d) as int - '0' as int == d
  {}

  // Digits without a superfluous zero in front.
  predicate Canonical(s: string) {
    s != "" && AllDigits(s) && (|s| == 1 || s[0] != '0')
  }

  lemma DigitOfChar(c: char)
    requires IsDigit(c)
    ensures 0 <= c as int - '0' as int < 10 && Digit(c as int - '0' as int) == c
  {}

  lemma LastDigit(a: nat, d: nat)
    requires d < 10
    ensures (10 * a + d) / 10 == a && (10 * a + d) % 10 == d
  {}

  lemma DecimalZero()
    ensures Decimal(0) == "0"
  {}

  // The notation is the only canonical one of its number.
  lemma {:induction false} DecimalOfNumber(s: string)
    requires Canonical(s)
    ensures Number(s) >= 0 && Decimal(Number(s)) == s
    decreases |s|
  {
    var (front, c) := (s[..|s| - 1], s[|s| - 1]);
    DigitOfChar(c);
    hide Digit;
    if |s| == 1 {
      assert front == "" && s == [c];
    } else {
      DecimalOfNumber(front);
      assert Number(front) != 0 by { DecimalZero(); }
      LastDigit(Number(front), c as int - '0' as int);
      assert s == front + [c];
    }
  }

  lemma {:induction false} DecimalCanonical(n: nat)
    ensures Canonical(Decimal(n))
  {
    if n >= 10 {
      DecimalCanonical(n / 10);
      NumberOfDecimal(n / 10);
    }
  }

  function Power10(k: nat): nat {
    if k == 0 then 1 else 10 * Power10(k - 1)
  }

  lemma {:induction false} NumberAppend(s: string, t: string)
    ensures Number(s + t) == Number(s) * Power10(|t|) + Number(t)
    decreases |t|
  {
    if t == "" {
      assert s + t == s;
    } else {
      var front := t[..|t| - 1];
      assert (s + t)[..|s + t| - 1] == s + front;
      NumberAppend(s, front);
      Shift(Number(s), Power10(|front|), Number(front));
    }
  }

  lemma Shift(a: int, b: int, c: int)
    ensures 10 * (a * b + c) == a * (10 * b) + 10 * c
  {}
}
