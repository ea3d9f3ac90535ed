/**
 `node::util::digits` and `node::util::ipow`, and the positional notation they serve.
 */
module Numbers {
  import opened Common

  // ---------- Positional notation ----------

  function Pow(b: nat, e: nat): nat {
    if e == 0 then 1 else b * Pow(b, e - 1)
  }

  // The source's table `chars`.
  function Digit(d: nat): char
    requires d < 36
  {
    if d < 10 then '0' + d as char else 'a' + (d - 10) as char
  }

  function DigitValue(c: char): nat {
    if '0' <= c <= '9' then c as nat - '0' as nat
    else if 'a' <= c <= 'z' then c as nat - 'a' as nat + 10
    else if 'A' <= c <= 'Z' then c as nat - 'A' as nat + 10
    else 36
  }

  lemma QuotientRemainder(n: nat, base: nat)
    requires base >= 2
    ensures n == base * (n / base) + n % base && 0 <= n % base < base
    ensures 0 <= n / base <= n && (n >= base ==> 0 < n / base < n)
  {
    var q := n / base;
    assert n == base * q + n % base;
    MulMonotone(base, q, -1);
    MulMonotone(base, 1, q);
    assert base * q >= 2 * q by { MulMonotone(q, 2, base); }
  }

  lemma MulMonotone(b: int, x: int, y: int)
    requires b >= 0
    ensures x <= y ==> b * x <= b * y
  {}

  // The notation of n in the given base, most significant digit first.
  function Notation(n: nat, base: nat): (text: string)
    requires 2 <= base <= 36
    ensures |text| > 0
  {
    QuotientRemainder(n, base);
    if n < base then [Digit(n)] else Notation(n / base, base) + [Digit(n % base)]
  }

  function Read(text: string, base: nat): nat {
    if |text| == 0 then 0 else Read(text[..|text| - 1], base) * base + DigitValue(text[|text| - 1])
  }

  // The source's table, character by character.
  lemma DigitChars()
    ensures [Digit(0), Digit(1), Digit(2), Digit(3), Digit(4), Digit(5), Digit(6), Digit(7), Digit(8), Digit(9)]
         == "0123456789"
    ensures [Digit(10), Digit(11), Digit(12), Digit(13), Digit(14), Digit(15), Digit(16), Digit(17), Digit(18)]
         == "abcdefghi"
    ensures [Digit(19), Digit(20), Digit(21), Digit(22), Digit(23), Digit(24), Digit(25), Digit(26), Digit(27)]
         == "jklmnopqr"
    ensures [Digit(28), Digit(29), Digit(30), Digit(31), Digit(32), Digit(33), Digit(34), Digit(35)]
         == "stuvwxyz"
  {}

  // Digits from ten on are printed in lower case.
  lemma {:induction false} NotationLowerCase(n: nat, base: nat)
    requires 2 <= base <= 36
    ensures forall c :: c in Notation(n, base) ==> '0' <= c <= '9' || 'a' <= c <= 'z'
  {
    QuotientRemainder(n, base);
    if n >= base {
      NotationLowerCase(n / base, base);
    }
  }

  lemma DigitValueOf(d: nat)
    requires d < 36
    ensures DigitValue(Digit(d)) == d && (Digit(d) == '0' <==> d == 0)
  {}

  lemma ReadSnoc(text: string, c: char, base: nat)
    ensures Read(text + [c], base) == Read(text, base) * base + DigitValue(c)
  {
    hide DigitValue;
    assert (text + [c])[..|text|] == text;
  }

  // Reading a notation back gives the number.
  lemma {:induction false} ReadNotation(n: nat, base: nat)
    requires 2 <= base <= 36
    ensures Read(Notation(n, base), base) == n
  {
    hide Read, DigitValue, Digit;
    QuotientRemainder(n, base);
    if n < base {
      DigitValueOf(n);
      ReadSnoc([], Digit(n), base);
      assert Read([], base) == 0 by { ReadNothing(base); }
      assert [] + [Digit(n)] == [Digit(n)];
    } else {
      DigitValueOf(n % base);
      ReadNotation(n / base, base);
      ReadSnoc(Notation(n / base, base), Digit(n % base), base);
    }
  }

  lemma ReadNothing(base: nat)
    ensures Read([], base) == 0
  {}

  // No superfluous leading zero, and only digits of the base.
  lemma {:induction false} NotationDigits(n: nat, base: nat)
    requires 2 <= base <= 36
    ensures Notation(n, base)[0] == '0' <==> n == 0
    ensures forall c :: c in Notation(n, base) ==> DigitValue(c) < base
  {
    hide DigitValue, Digit;
    QuotientRemainder(n, base);
    if n < base {
      DigitValueOf(n);
    } else {
      DigitValueOf(n % base);
      NotationDigits(n / base, base);
    }
  }

  // The length of a notation, by the powers the number lies between.
  lemma {:induction false} NotationLength(n: nat, base: nat, length: nat)
    requires 2 <= base <= 36 && length > 0
    requires n < Pow(base, length) && (length == 1 || Pow(base, length - 1) <= n)
    ensures |Notation(n, base)| == length
  {
    hide Digit;
    QuotientRemainder(n, base);
    if length == 1 {
      assert Pow(base, 1) == base * Pow(base, 0);
    } else {
      PowPositive(base, length - 2);
      PowStep(base, length - 2);
      PowStep(base, length - 1);
      DivideBounds(n, base, Pow(base, length - 2), Pow(base, length - 1));
      NotationLength(n / base, base, length - 1);
    }
  }

  lemma PowStep(b: nat, e: nat)
    ensures Pow(b, e + 1) == b * Pow(b, e)
  {}

  lemma DivideBounds(n: nat, base: nat, low: nat, high: nat)
    requires base >= 2 && 0 < low && base * low <= n < base * high
    ensures low <= n / base < high && n >= base
  {
    var q := n / base;
    QuotientRemainder(n, base);
    MulMonotone(base, q + 1, low);
    assert base * (q + 1) == base * q + base;
    MulMonotone(base, high, q);
    MulMonotone(base, 1, low);
  }

  lemma {:induction false} PowPositive(b: nat, e: nat)
    requires b > 0
    ensures Pow(b, e) > 0
  {
    if e > 0 {
      PowPositive(b, e - 1);
    }
  }

  // ---------- Powers ----------

  lemma {:induction false} PowAdd(b: nat, i: nat, j: nat)
    ensures Pow(b, i + j) == Pow(b, i) * Pow(b, j)
  {
    if i > 0 {
      PowAdd(b, i - 1, j);
      MulAssociative(b, Pow(b, i - 1), Pow(b, j));
    }
  }

  lemma MulAssociative(x: int, y: int, z: int)
    ensures x * (y * z) == (x * y) * z
  {}

  lemma {:induction false} PowMonotone(b: nat, i: nat, j: nat)
    requires b > 0 && i <= j
    ensures Pow(b, i) <= Pow(b, j)
  {
    PowAdd(b, j - i, i);
    PowPositive(b, j - i);
    MulMonotone(Pow(b, i), 1, Pow(b, j - i));
  }

  lemma {:induction false} PowOfPow(b: nat, k: nat, e: nat)
    ensures Pow(Pow(b, k), e) == Pow(b, k * e)
  {
    if e > 0 {
      PowOfPow(b, k, e - 1);
      assert k * e == k + k * (e - 1);
      PowAdd(b, k, k * (e - 1));
    }
  }

  lemma PowOne(b: nat)
    ensures Pow(b, 1) == b && Pow(b, 0) == 1
  {
    PowStep(b, 0);
  }

  // ---------- digits2 and digits ----------

  // The number of bits, as the source computes it by counting leading zeros.
  function Digits2(n: nat): nat {
    if n == 0 then 0 else 1 + Digits2(n / 2)
  }

  function LadderDigits(n: nat): nat {
    if n >= 10000000000000000000 then 20
    else if n >= 1000000000000000000 then 19
    else if n >= 100000000000000000 then 18
    else if n >= 10000000000000000 then 17
    else if n >= 1000000000000000 then 16
    else if n >= 100000000000000 then 15
    else if n >= 10000000000000 then 14
    else if n >= 1000000000000 then 13
    else if n >= 100000000000 then 12
    else if n >= 10000000000 then 11
    else if n >= 1000000000 then 10
    else if n >= 100000000 then 9
    else if n >= 10000000 then 8
    else if n >= 1000000 then 7
    else if n >= 100000 then 6
    else if n >= 10000 then 5
    else if n >= 1000 then 4
    else if n >= 100 then 3
    else if n >= 10 then 2
    else 1
  }

  // The bases `digits` does not leave to logarithms: those below 2, ten, and the powers of two.
  predicate Covered(base: nat) {
    base < 2 || base == 10 || base in {2, 4, 8, 16, 32}
  }

  // The quotient of the logarithms of n and the base, rounded down.
  function FloorLog(n: nat, base: nat): nat
    requires base >= 2
  {
    if n < base then 0
    else
      QuotientRemainder(n, base);
      1 + FloorLog(n / base, base)
  }

  // `digits`. In the bases left to logarithms it is what the quotient of the two floating-point
  // logarithms is truncated to.
  function Digits(n: nat, base: nat, logs: nat): nat {
    if base < 2 then 0
    else if base == 2 then Digits2(n)
    else if base == 10 then LadderDigits(n)
    else if !Covered(base) then logs
    else
      Digits2OfPowers();
      var a, b := Digits2(n), Digits2(base);
      (a + b - 2) / (b - 1)
  }

  lemma {:induction false} Digits2Bounds(n: nat)
    requires n > 0
    ensures Digits2(n) > 0 && Pow(2, Digits2(n) - 1) <= n < Pow(2, Digits2(n))
  {
    if n == 1 {
      PowOne(2);
    } else {
      Digits2Bounds(n / 2);
      PowStep(2, Digits2(n / 2) - 1);
      PowStep(2, Digits2(n / 2));
    }
  }

  lemma Digits2OfPowers()
    ensures Digits2(2) == 2 && Digits2(4) == 3 && Digits2(8) == 4 && Digits2(16) == 5 && Digits2(32) == 6
    ensures Pow(2, 1) == 2 && Pow(2, 2) == 4 && Pow(2, 3) == 8 && Pow(2, 4) == 16 && Pow(2, 5) == 32
  {
    assert Digits2(1) == 1;
  }

  // The ceiling formula counts the digits of a positive number in base 2^k.
  lemma CeilingFormula(n: nat, base: nat, k: nat)
    requires n > 0 && 1 <= k <= 5 && base == Pow(2, k) && 2 <= base <= 36
    ensures |Notation(n, base)| == (Digits2(n) + k - 1) / k
  {
    hide Pow, Digits2, Notation;
    var a := Digits2(n);
    var d := (a + k - 1) / k;
    Digits2Bounds(n);
    CeilingBounds(a, k, d);
    PowOfPow(2, k, d - 1);
    PowOfPow(2, k, d);
    PowMonotone(2, k * (d - 1), a - 1);
    PowMonotone(2, a, k * d);
    NotationLength(n, base, d);
  }

  lemma CeilingBounds(a: nat, k: nat, d: nat)
    requires a > 0 && k > 0 && d == (a + k - 1) / k
    ensures d > 0 && k * (d - 1) <= a - 1 && a <= k * d
  {
    var r := (a + k - 1) % k;
    assert a + k - 1 == k * d + r;
    MulMonotone(k, d, 0);
    assert k * (d - 1) == k * d - k;
  }

  lemma Pow10Values()
    ensures Pow(10, 0) == 1 && Pow(10, 1) == 10 && Pow(10, 2) == 100 && Pow(10, 3) == 1000 && Pow(10, 4) == 10000
    ensures Pow(10, 5) == 100000 && Pow(10, 6) == 1000000 && Pow(10, 7) == 10000000 && Pow(10, 8) == 100000000
    ensures Pow(10, 9) == 1000000000 && Pow(10, 10) == 10000000000 && Pow(10, 11) == 100000000000
    ensures Pow(10, 12) == 1000000000000 && Pow(10, 13) == 10000000000000 && Pow(10, 14) == 100000000000000
    ensures Pow(10, 15) == 1000000000000000 && Pow(10, 16) == 10000000000000000 && Pow(10, 17) == 100000000000000000
    ensures Pow(10, 18) == 1000000000000000000 && Pow(10, 19) == 10000000000000000000
    ensures Pow(10, 20) == 100000000000000000000
  {}

  lemma LadderBounds(n: nat)
    requires n < TWO_TO_THE_64
    ensures var d := LadderDigits(n); 0 < d <= 20 && n < Pow(10, d) && (d == 1 || Pow(10, d - 1) <= n)
  {
    Pow10Values();
  }

  lemma PowerOfTwoDigits(n: nat, base: nat)
    requires n > 0 && base in {2, 4, 8, 16, 32}
    ensures forall logs: nat :: Digits(n, base, logs) == |Notation(n, base)|
  {
    hide Pow, Notation, LadderDigits;
    Digits2OfPowers();
    CeilingFormula(n, base, Digits2(base) - 1);
  }

  lemma ZeroDigits(base: nat)
    requires base in {2, 4, 8, 16, 32}
    ensures forall logs: nat :: Digits(0, base, logs) == 0
  {
    hide LadderDigits;
    Digits2OfPowers();
    assert Digits2(0) == 0;
  }

  lemma {:induction false} LogUndercounts(n: nat, base: nat)
    requires 2 <= base <= 36
    ensures |Notation(n, base)| == FloorLog(n, base) + 1
    ensures Pow(base, FloorLog(n, base) + 1) > n && (n > 0 ==> Pow(base, FloorLog(n, base)) <= n)
    decreases n
  {
    hide Digit, Pow;
    NotationRange(n, base);
    PowZero(base);
    if n >= base {
      QuotientRemainder(n, base);
      LogUndercounts(n / base, base);
    }
  }

  lemma PowZero(b: nat)
    ensures Pow(b, 0) == 1
  {}

  // `digits` is the length of the notation for ten, and for positive numbers in the powers of
  // two; for zero it is 0 there. In all other bases it depends on the logarithms, and exact
  // ones are one short of the length.
  lemma DigitsExact(n: nat, base: nat, logs: nat)
    requires n < TWO_TO_THE_64 && 2 <= base <= 36
    ensures Digits(n, base, logs) == |Notation(n, base)|
       <==> if Covered(base) then base == 10 || n > 0 else logs == |Notation(n, base)|
    ensures n == 0 && Covered(base) && base != 10 ==> Digits(n, base, logs) == 0
    ensures !Covered(base) && logs == FloorLog(n, base) ==> Digits(n, base, logs) == |Notation(n, base)| - 1
  {
    hide Pow, Notation, LadderDigits, FloorLog;
    if base == 10 {
      LadderBounds(n);
      NotationLength(n, 10, LadderDigits(n));
    } else if !Covered(base) {
      LogUndercounts(n, base);
    } else if n > 0 {
      PowerOfTwoDigits(n, base);
    } else {
      ZeroDigits(base);
    }
  }

  // ---------- ipow ----------

  lemma ModShift(k: int, x: int, m: nat)
    requires m > 0
    ensures (m * k + x) % m == x % m
  {
    var q, r := x / m, x % m;
    assert m * k + x == m * (k + q) + r;
    RemainderIs(m * k + x, m, k + q, r);
  }

  lemma RemainderIs(x: int, m: nat, q: int, r: nat)
    requires m > 0 && r < m && x == m * q + r
    ensures x % m == r
  {
    var d := x / m - q;
    assert x == m * (x / m) + x % m;
    assert m * d == r - x % m by {
      assert m * (x / m) - m * q == m * (x / m - q);
    }
    MulMonotone(m, 1, d);
    MulMonotone(m, d, -1);
  }

  lemma ModMul(x: nat, y: nat, m: nat)
    requires m > 0
    ensures ((x % m) * y) % m == (x * y) % m && (y * (x % m)) % m == (y * x) % m
  {
    var q, r := x / m, x % m;
    assert x == m * q + r;
    assert x * y == m * (q * y) + r * y by {
      assert (m * q + r) * y == (m * q) * y + r * y;
    }
    ModShift(q * y, r * y, m);
  }

  // Powers depend on the base only modulo m.
  lemma {:induction false} PowMod(b: nat, e: nat, m: nat)
    requires m > 0
    ensures Pow(b % m, e) % m == Pow(b, e) % m
  {
    if e > 0 {
      var c := b % m;
      ModMul(Pow(c, e - 1), c, m);
      PowMod(b, e - 1, m);
      ModMul(Pow(b, e - 1), c, m);
      ModMul(b, Pow(b, e - 1), m);
    }
  }

  lemma PowSquare(b: nat, e: nat)
    ensures Pow(b * b, e) == Pow(b, 2 * e)
  {
    PowOfPow(b, 2, e);
    PowStep(b, 1);
    PowOne(b);
  }

  // One turn of the square-and-multiply loop keeps result * base^exp modulo m.
  lemma SquareAndMultiply(result: nat, b: nat, e: nat, m: nat)
    requires m > 0 && e > 0
    ensures var result' := if e % 2 == 1 then result * b % m else result;
            (result' * Pow(b * b % m, e / 2)) % m == (result * Pow(b, e)) % m
  {
    var h := e / 2;
    var p := Pow(b, 2 * h);
    PowMod(b * b, h, m);
    PowSquare(b, h);
    var result' := if e % 2 == 1 then result * b % m else result;
    ModMul(Pow(b * b % m, h), result', m);
    ModMul(p, result', m);
    if e % 2 == 1 {
      PowStep(b, 2 * h);
      ModMul(result * b, p, m);
      MulAssociative(result, b, p);
    }
  }

  // `ipow<size_t, size_t>`, every product truncated to 64 bits.
  method Ipow(base: nat, exp: nat) returns (result: nat)
    requires base < TWO_TO_THE_64
    ensures result == Pow(base, exp) % TWO_TO_THE_64
  {
    hide Pow;
    result := 1;
    var b: nat, e: nat := base, exp;
    while e > 0
      invariant result < TWO_TO_THE_64 && (result * Pow(b, e)) % TWO_TO_THE_64 == Pow(base, exp) % TWO_TO_THE_64
    {
      SquareAndMultiply(result, b, e, TWO_TO_THE_64);
      if e % 2 == 1 {
        result := result * b % TWO_TO_THE_64;
      }
      e := e / 2;
      b := b * b % TWO_TO_THE_64;
    }
    PowOne(b);
  }

  // No truncation happens as long as the digits counted are not too many: the divisor is the
  // exact power.
  lemma DivisorExact(n: nat, base: nat, length: nat)
    requires n < TWO_TO_THE_64 && 2 <= base <= 36 && 0 < length <= |Notation(n, base)|
    ensures 0 < Pow(base, length - 1) < TWO_TO_THE_64
  {
    hide Pow, Notation;
    NotationRange(n, base);
    PowOne(base);
    PowPositive(base, length - 1);
    PowMonotone(base, length - 1, |Notation(n, base)| - 1);
  }

  lemma {:induction false} NotationRange(n: nat, base: nat)
    requires 2 <= base <= 36
    ensures n < Pow(base, |Notation(n, base)|)
    ensures |Notation(n, base)| == 1 || Pow(base, |Notation(n, base)| - 1) <= n
  {
    hide Digit, Pow;
    QuotientRemainder(n, base);
    PowOne(base);
    if n >= base {
      var q, k := n / base, |Notation(n / base, base)|;
      NotationRange(q, base);
      PowStep(base, k);
      PowStep(base, k - 1);
      RangeStep(n, base, q, Pow(base, k), Pow(base, k - 1), k);
    }
  }

  lemma RangeStep(n: nat, base: nat, q: nat, high: nat, low: nat, k: nat)
    requires base >= 2 && base * q <= n < base * q + base && q < high && n >= base
    requires k == 1 ==> low == 1
    requires k == 1 || low <= q
    ensures n < base * high && base * low <= n
  {
    MulMonotone(base, q + 1, high);
    assert base * (q + 1) == base * q + base;
    MulMonotone(base, low, q);
  }

  // With no digits at all the divisor is base^(2^64 - 1) modulo 2^64: zero if and only if the
  // base is even.
  lemma NoDigitsDivisor(base: nat, e: nat)
    requires base > 0 && e >= 64
    ensures Pow(base, e) % TWO_TO_THE_64 == 0 <==> base % 2 == 0
  {
    hide Pow;
    TwoToThe64();
    if base % 2 == 0 {
      var k := base / 2;
      PowOfProduct(2, k, e);
      PowAdd(2, 64, e - 64);
      MulAssociative(TWO_TO_THE_64, Pow(2, e - 64), Pow(k, e));
      ModShift(Pow(2, e - 64) * Pow(k, e), 0, TWO_TO_THE_64);
    } else {
      OddPower(base, e);
      ParityOfRemainder(Pow(base, e));
    }
  }

  lemma {:induction false} PowOfProduct(a: nat, b: nat, e: nat)
    ensures Pow(a * b, e) == Pow(a, e) * Pow(b, e)
  {
    if e > 0 {
      var x, y := Pow(a, e - 1), Pow(b, e - 1);
      PowOfProduct(a, b, e - 1);
      assert (a * b) * (x * y) == (a * x) * (b * y) by {
        MulAssociative(a, b, x * y);
        MulAssociative(b, x, y);
        MulAssociative(x, b, y);
        MulAssociative(a, x, b * y);
      }
    }
  }

  lemma {:induction false} OddPower(b: nat, e: nat)
    requires b % 2 == 1
    ensures Pow(b, e) % 2 == 1
  {
    if e > 0 {
      OddPower(b, e - 1);
      OddProduct(b, Pow(b, e - 1));
    }
  }

  lemma OddProduct(b: nat, c: nat)
    requires b % 2 == 1 && c % 2 == 1
    ensures (b * c) % 2 == 1
  {
    ModMul(b, c, 2);
  }

  lemma ParityOfRemainder(x: nat)
    ensures x % 2 == x % TWO_TO_THE_64 % 2
  {
    var q, r := x / TWO_TO_THE_64, x % TWO_TO_THE_64;
    assert x == 2 * (0x8000_0000_0000_0000 * q) + r;
    ModShift(0x8000_0000_0000_0000 * q, r, 2);
  }

  lemma TwoToThe64()
    ensures Pow(2, 64) == TWO_TO_THE_64
  {
    PowAdd(2, 32, 32);
    PowAdd(2, 16, 16);
    PowAdd(2, 8, 8);
    assert Pow(2, 8) == 256;
  }

  // The digit at a position, as the source's division picks it.
  lemma {:induction false} NotationAt(n: nat, base: nat, i: nat)
    requires 2 <= base <= 36 && i < |Notation(n, base)|
    ensures var p := Pow(base, |Notation(n, base)| - 1 - i);
            p > 0 && (n / p) % base < 36 && Notation(n, base)[i] == Digit((n / p) % base)
  {
    hide Digit;
    QuotientRemainder(n, base);
    PowOne(base);
    var length := |Notation(n, base)|;
    if n < base {
      SmallRemainder(n, base);
    } else if i < length - 1 {
      var q := n / base;
      NotationAt(q, base, i);
      var p := Pow(base, length - 2 - i);
      PowStep(base, length - 2 - i);
      DivideTwice(n, base, p);
    }
  }

  lemma SmallRemainder(n: nat, base: nat)
    requires n < base
    ensures n % base == n
  {
    RemainderIs(n, base, 0, n);
  }

  lemma DivideTwice(n: nat, b: nat, p: nat)
    requires b > 0 && p > 0
    ensures b * p > 0 && n / b / p == n / (b * p)
  {
    MulMonotone(b, 1, p);
    var q, r := n / (b * p), n % (b * p);
    assert n == b * p * q + r;
    var s, t := r / b, r % b;
    assert r == b * s + t;
    assert n == b * (p * q + s) + t by {
      assert b * (p * q + s) == b * (p * q) + b * s;
      MulAssociative(b, p, q);
    }
    QuotientIs(n, b, p * q + s, t);
    MulMonotone(b, p, s);
    MulMonotone(b, s, -1);
    QuotientIs(p * q + s, p, q, s);
  }

  lemma QuotientIs(x: int, m: nat, q: int, r: int)
    requires m > 0 && 0 <= r < m && x == m * q + r
    ensures x / m == q
  {
    var d := x / m - q;
    assert x == m * (x / m) + x % m;
    assert m * d == r - x % m by {
      assert m * (x / m) - m * q == m * (x / m - q);
    }
    MulMonotone(m, 1, d);
    MulMonotone(m, d, -1);
  }
}
