/**
 The additive constants of MD5 (utils/md5.cpp, section 3.4 of RFC 1321): the integer parts of
 2^32 times the absolute values of sin 1 to sin 64.

 The sine itself is not defined here.  Its addition theorem ties each constant to the two before
 it, and the first one is found with its power series.
 */
module Md5Sines {
  import opened Md5Compression

  // The sign of sin(i + 1) is found with 355 / 113 for pi.
  function SignedSine(i: nat): int
    requires i < 64
  {
    if (i + 1) * 113 / 355 % 2 == 1 then 0 - Sine(i) else Sine(i)
  }

  // 2 cos(1) with twelve decimals.
  const SCALE: int := 1_000_000_000_000
  const TWICE_COSINE: int := 1_080_604_611_736

  // sin(x + 1) + sin(x - 1) = 2 cos(1) sin(x), up to the rounding of the constants.
  predicate AddsUp(i: nat)
    requires 0 < i < 63
  {
    var e := SCALE * (SignedSine(i + 1) + SignedSine(i - 1)) - TWICE_COSINE * SignedSine(i);
    -4 * SCALE < e < 4 * SCALE
  }

  lemma SineAddition(i: nat)
    requires 0 < i < 63
    ensures AddsUp(i)
  {
    hide AddsUp;
    match (i - 1) / 4 {
      case 0 => Sines1();
      case 1 => Sines2();
      case 2 => Sines3();
      case 3 => Sines4();
      case 4 => Sines5();
      case 5 => Sines6();
      case 6 => Sines7();
      case 7 => Sines8();
      case 8 => Sines9();
      case 9 => Sines10();
      case 10 => Sines11();
      case 11 => Sines12();
      case 12 => Sines13();
      case 13 => Sines14();
      case 14 => Sines15();
      case _ => Sines16();
    }
  }

  // The first two constants are those of sin 1 and sin 2, by power series over 13! and 19!.
  lemma FirstSines()
    ensures var series := 6227020800 - 1037836800 + 51891840 - 1235520 + 17160 - 156 + 1;
            Sine(0) == 0x1_0000_0000 * series / 6227020800
    ensures var series := 243290200817664000 - 162193467211776000 + 32438693442355200 - 3089399375462400
                          + 171633298636800 - 6241210859520 + 160031047680 - 3048210432 + 44826624 - 524288;
            Sine(1) == 0x1_0000_0000 * series / 121645100408832000
  {}

  lemma Sines1()
    ensures AddsUp(1) && AddsUp(2) && AddsUp(3) && AddsUp(4)
  {}

  lemma Sines2()
    ensures AddsUp(5) && AddsUp(6) && AddsUp(7) && AddsUp(8)
  {}

  lemma Sines3()
    ensures AddsUp(9) && AddsUp(10) && AddsUp(11) && AddsUp(12)
  {}

  lemma Sines4()
    ensures AddsUp(13) && AddsUp(14) && AddsUp(15) && AddsUp(16)
  {}

  lemma Sines5()
    ensures AddsUp(17) && AddsUp(18) && AddsUp(19) && AddsUp(20)
  {}

  lemma Sines6()
    ensures AddsUp(21) && AddsUp(22) && AddsUp(23) && AddsUp(24)
  {}

  lemma Sines7()
    ensures AddsUp(25) && AddsUp(26) && AddsUp(27) && AddsUp(28)
  {}

  lemma Sines8()
    ensures AddsUp(29) && AddsUp(30) && AddsUp(31) && AddsUp(32)
  {}

  lemma Sines9()
    ensures AddsUp(33) && AddsUp(34) && AddsUp(35) && AddsUp(36)
  {}

  lemma Sines10()
    ensures AddsUp(37) && AddsUp(38) && AddsUp(39) && AddsUp(40)
  {}

  lemma Sines11()
    ensures AddsUp(41) && AddsUp(42) && AddsUp(43) && AddsUp(44)
  {}

  lemma Sines12()
    ensures AddsUp(45) && AddsUp(46) && AddsUp(47) && AddsUp(48)
  {}

  lemma Sines13()
    ensures AddsUp(49) && AddsUp(50) && AddsUp(51) && AddsUp(52)
  {}

  lemma Sines14()
    ensures AddsUp(53) && AddsUp(54) && AddsUp(55) && AddsUp(56)
  {}

  lemma Sines15()
    ensures AddsUp(57) && AddsUp(58) && AddsUp(59) && AddsUp(60)
  {}

  lemma Sines16()
    ensures AddsUp(61) && AddsUp(62)
  {}
}
