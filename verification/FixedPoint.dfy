/** 16.16 fixed-point multiplication and division, as offered to CupidC programs. */
module FixedPoint {

  const MIN: int := -0x8000_0000

  type Int = x: int | -0x8000_0000 <= x < 0x8000_0000

  /** The 32-bit two's complement number that `x` wraps to. */
  function Wrap(x: int): Int { (x + 0x8000_0000) % 0x1_0000_0000 - 0x8000_0000 }

  function Abs(x: int): nat { if x < 0 then -x else x }

  /** The product, shifted right by sixteen bits. */
  function Mul(a: Int, b: Int): Int { Wrap(a * b / 65536) }

  /** The quotient of two 16.16 numbers as a 16.16 number, truncated toward zero. */
  function Quotient(a: Int, b: Int): int
    requires b != 0
  {
    var q := Abs(a) * 65536 / Abs(b);
    if (a < 0) == (b < 0) then q else -q
  }

  // ----- long division, bit by bit -----

  /** 2 to the `k`. */
  function Pow2(k: nat): (p: nat)
    ensures p > 0
  {
    if k == 0 then 1 else 2 * Pow2(k - 1)
  }

  /** What is left of `r` after `k` more binary digits of r / b. */
  function Rest(r: nat, b: nat, k: nat): (x: nat)
    requires r < b
    ensures x < b
  {
    if k == 0 then r else
      var d := 2 * Rest(r, b, k - 1);
      if d >= b then d - b else d
  }

  /** Those digits, as a number. */
  function Digits(r: nat, b: nat, k: nat): nat
    requires r < b
  {
    if k == 0 then 0 else 2 * Digits(r, b, k - 1) + if 2 * Rest(r, b, k - 1) >= b then 1 else 0
  }

  lemma {:induction false} LongDivision(r: nat, b: nat, k: nat)
    requires r < b
    ensures r * Pow2(k) == Digits(r, b, k) * b + Rest(r, b, k)
    ensures Digits(r, b, k) < Pow2(k)
  {
    if k == 0 {
      assert r * 1 == r && 0 * b == 0;
    } else {
      LongDivision(r, b, k - 1);
      var d, p, x := Digits(r, b, k - 1), Pow2(k - 1), Rest(r, b, k - 1);
      Doubled(r, p, d, b, x);
      assert Pow2(k) == 2 * p && Rest(r, b, k) == (if 2 * x >= b then 2 * x - b else 2 * x);
      assert Digits(r, b, k) == 2 * d + if 2 * x >= b then 1 else 0;
    }
  }

  lemma Doubled(r: int, p: int, d: int, b: int, x: int)
    requires r * p == d * b + x
    ensures r * (2 * p) == (2 * d) * b + 2 * x == (2 * d + 1) * b + (2 * x - b)
  {
    assert r * (2 * p) == 2 * (r * p);
    assert (2 * d) * b == 2 * (d * b);
    assert (2 * d + 1) * b == (2 * d) * b + b;
  }

  /** No remainder that is about to be doubled for the first `k` digits has reached 2^30. */
  predicate Steady(r: nat, b: nat, k: nat)
    requires r < b
  {
    forall i :: 0 <= i < k ==> Rest(r, b, i) < 0x4000_0000
  }

  /** Divisors up to 2^30, that is up to 16384.0, never get there. */
  lemma SmallDivisors(r: nat, b: nat, k: nat)
    requires r < b <= 0x4000_0000
    ensures Steady(r, b, k)
  {
  }

  /** The integer part and sixteen digits make the quotient. */
  lemma Assemble(a: nat, b: nat)
    requires b > 0
    ensures a * 65536 / b == a / b * 65536 + Digits(a % b, b, 16)
  {
    hide Digits, Rest, Pow2;
    var q, r := a / b, a % b;
    LongDivision(r, b, 16);
    assert Pow2(16) == 65536 by { Pow16(); }
    var d, x := Digits(r, b, 16), Rest(r, b, 16);
    assert a == q * b + r;
    Scale(q, b, r, d, x);
    Unique(a * 65536, b, q * 65536 + d, x);
  }

  lemma Pow16()
    ensures Pow2(16) == 65536
  {
    assert Pow2(4) == 16;
    assert Pow2(8) == 16 * Pow2(4);
    assert Pow2(12) == 16 * Pow2(8);
  }

  lemma Scale(q: int, b: int, r: int, d: int, x: int)
    requires r * 65536 == d * b + x
    ensures (q * b + r) * 65536 == (q * 65536 + d) * b + x
  {
    assert (q * 65536 + d) * b == q * b * 65536 + d * b;
  }

  lemma Unique(n: nat, b: nat, q: int, x: nat)
    requires n == q * b + x && x < b
    ensures n / b == q
  {
    var y := n / b;
    assert n == y * b + n % b;
    if y < q { Less(y, q, b); }
    if y > q { Less(q, y, b); }
  }

  lemma Less(y: int, q: int, b: nat)
    requires y < q
    ensures y * b + b <= q * b
  {
    assert q * b == y * b + b + (q - y - 1) * b;
  }

  /** Division and remainder in C: truncated toward zero, the remainder signed like the dividend. */
  function TruncDiv(a: int, b: int): int
    requires b != 0
  {
    if (a < 0) == (b < 0) then Abs(a) / Abs(b) else -(Abs(a) / Abs(b))
  }

  function TruncMod(a: int, b: int): (r: int)
    requires b != 0
    ensures Abs(r) < Abs(b)
  {
    if a < 0 then -(Abs(a) % Abs(b)) else a % Abs(b)
  }

  /** What sixteen doublings of the remainder find. */
  ghost predicate Found(r: int, b: int, k: nat, rest: int, frac: int) {
    && 0 <= frac < Pow2(k)
    && (b == MIN ==> frac == Pow2(k) - 1)
    && (0 <= r < b ==>
          if Steady(r, b, k) then rest == Rest(r, b, k) && frac == Digits(r, b, k) else frac < Digits(r, b, k))
  }

  /** The sixteen binary digits: right if no doubling overflows, too small if one does. */
  method Fraction(r: Int, b: Int) returns (frac: nat)
    ensures frac < 65536
    ensures b == MIN ==> frac == 65535
    ensures 0 <= r < b ==> if Steady(r, b, 16) then frac == Digits(r, b, 16) else frac < Digits(r, b, 16)
  {
    var rest: Int, k := r, 0;
    frac := 0;
    while k < 16
      invariant 0 <= k <= 16 && Found(r, b, k, rest, frac)
    {
      ghost var rest0, frac0 := rest, frac;
      rest := Wrap(2 * rest);
      frac := 2 * frac;
      if rest >= b {
        rest := Wrap(rest - b);
        frac := frac + 1;
      }
      FoundNext(r, b, k, rest0, frac0, rest, frac);
      k := k + 1;
    }
    Pow16();
  }

  lemma FoundNext(r: Int, b: Int, k: nat, rest0: Int, frac0: int, rest: int, frac: int)
    requires Found(r, b, k, rest0, frac0)
    requires var d := Wrap(2 * rest0);
      if d >= b then rest == Wrap(d - b) && frac == 2 * frac0 + 1 else rest == d && frac == 2 * frac0
    ensures Found(r, b, k + 1, rest, frac)
  {
    assert Pow2(k + 1) == 2 * Pow2(k);
    if 0 <= r < b { DigitNext(r, b, k, rest0, frac0, rest, frac); }
  }

  lemma DigitNext(r: Int, b: Int, k: nat, rest0: Int, frac0: int, rest: int, frac: int)
    requires 0 <= r < b && frac0 >= 0
    requires if Steady(r, b, k) then rest0 == Rest(r, b, k) && frac0 == Digits(r, b, k) else frac0 < Digits(r, b, k)
    requires var d := Wrap(2 * rest0);
      if d >= b then rest == Wrap(d - b) && frac == 2 * frac0 + 1 else rest == d && frac == 2 * frac0
    ensures if Steady(r, b, k + 1) then rest == Rest(r, b, k + 1) && frac == Digits(r, b, k + 1)
            else frac < Digits(r, b, k + 1)
  {
    var x := Rest(r, b, k);
    assert Steady(r, b, k + 1) <==> Steady(r, b, k) && x < 0x4000_0000;
    assert Digits(r, b, k + 1) == 2 * Digits(r, b, k) + if 2 * x >= b then 1 else 0;
    assert Rest(r, b, k + 1) == if 2 * x >= b then 2 * x - b else 2 * x;
    hide Steady, Digits, Rest;
  }

  /** When the division can be relied on. */
  predicate Exact(a: Int, b: Int)
    requires b != 0
  {
    if a == MIN then b == 65536
    else if b == MIN then Abs(a) >= 65535 * 32768
    else MIN <= Quotient(a, b) <= -(MIN + 1) && Steady(Abs(a) % Abs(b), Abs(b), 16)
  }

  lemma NoDigits(y: nat)
    requires 0 < y <= 0x4000_0000
    ensures Steady(0, y, 16) && Digits(0, y, 16) == 0
  {
    SmallDivisors(0, y, 16);
    LongDivision(0, y, 16);
    var d := Digits(0, y, 16);
    if d > 0 { Less(0, d, y); }
  }

  /** What is returned for the positive `x` and `y`, or one of them `MIN`, and the digits found. */
  function Composed(x: Int, y: Int, frac: nat, neg: bool): int
    requires y != 0
  {
    var result := Wrap(TruncDiv(x, y) * 65536) + frac;
    if neg then Wrap(-result) else result
  }

  lemma ComposedNormal(x: Int, y: Int, frac: nat, neg: bool)
    requires 0 <= x && 0 < y && frac < 65536
    requires if Steady(x % y, y, 16) then frac == Digits(x % y, y, 16) else frac < Digits(x % y, y, 16)
    ensures var q := x * 65536 / y; var s := if neg then -q else q;
      Composed(x, y, frac, neg) == s <==> (MIN <= s <= -(MIN + 1) && Steady(x % y, y, 16))
  {
    hide Steady, Digits, Rest, Pow2;
    Assemble(x, y);
    LongDivision(x % y, y, 16);
    Pow16();
    var q, d := x / y, Digits(x % y, y, 16);
    Uncertain(x, y);
    assert TruncDiv(x, y) == q;
    hide TruncDiv, Wrap;
    ComposedOf(q, d, frac, neg);
  }

  lemma Uncertain(x: Int, y: Int)
    requires 0 <= x && y > 0
    ensures Steady(x % y, y, 16) || x / y <= 1
  {
    if y <= 0x4000_0000 { SmallDivisors(x % y, y, 16); } else { AtMostOne(x, y); }
  }

  lemma AtMostOne(x: Int, y: Int)
    requires 0 <= x && y > 0x4000_0000
    ensures x / y <= 1
  {
    var q := x / y;
    assert x == q * y + x % y;
  }

  lemma ComposedOf(q: nat, d: nat, frac: nat, neg: bool)
    requires d < 65536 && (frac == d || (frac < d && q <= 1))
    ensures var s := if neg then -(q * 65536 + d) else q * 65536 + d; var r := Wrap(q * 65536) + frac;
      (if neg then Wrap(-r) else r) == s <==> (MIN <= s <= -(MIN + 1) && frac == d)
  {
  }

  lemma ComposedMin(y: Int, frac: nat, neg: bool)
    requires y > 0 && frac < 65536 && (y == 65536 ==> frac == 0)
    ensures var q := 0x8000_0000 * 65536 / y;
      Composed(MIN, y, frac, neg) == (if neg then -q else q) <==> (y == 65536 && neg)
  {
    var q, h := 0x8000_0000 * 65536 / y, 0x8000_0000 / y;
    assert q >= 0;
    assert TruncDiv(MIN, y) == -h;
    if y < 65536 { FarOver(y); } else if y > 65536 { WithinOne(y); }
    hide TruncDiv;
    ComposedFrom(q, h, y, frac, neg);
  }

  lemma ComposedFrom(q: int, h: int, y: Int, frac: nat, neg: bool)
    requires frac < 65536 && q >= 0 && (y < 65536 ==> q > 0x8000_0000) && (y > 65536 ==> 1 <= h < 32768)
    requires y == 65536 ==> q == 0x8000_0000 && h == 32768 && frac == 0
    ensures var r := Wrap(-h * 65536) + frac;
      (if neg then Wrap(-r) else r) == (if neg then -q else q) <==> (y == 65536 && neg)
  {
    ShiftedRange(-h);
  }

  lemma FarOver(y: nat)
    requires 0 < y < 65536
    ensures 0x8000_0000 * 65536 / y > 0x8000_0000
  {
    var q := 0x8000_0000 * 65536 / y;
    assert 0x8000_0000 * 65536 == q * y + 0x8000_0000 * 65536 % y;
  }

  lemma WithinOne(y: nat)
    requires 65536 < y < 0x8000_0000
    ensures 1 <= 0x8000_0000 / y < 32768
  {
    var h := 0x8000_0000 / y;
    assert 0x8000_0000 == h * y + 0x8000_0000 % y;
  }

  /** The operand after the sign is taken off, and whether the result is to be negated. */
  function Off(x: Int): Int { if x < 0 then Wrap(-(x as int)) else x }

  predicate Digit(r: int, b: int, frac: nat) {
    && frac < 65536 && (b == MIN ==> frac == 65535)
    && (0 <= r < b ==> if Steady(r, b, 16) then frac == Digits(r, b, 16) else frac < Digits(r, b, 16))
  }

  lemma Concluded(a: Int, b: Int, frac: nat, r: int)
    requires b != 0 && Off(b) != 0 && Digit(TruncMod(Off(a), Off(b)), Off(b), frac)
    requires r == Composed(Off(a), Off(b), frac, (a < 0) != (b < 0))
    ensures r == Quotient(a, b) <==> Exact(a, b)
  {
    OffIs(a);
    OffIs(b);
    assert b == MIN ==> frac == 65535;
    hide Off, Digit, TruncMod, Composed, Quotient, Exact, Wrap;
    if a != MIN && b != MIN {
      ConcludedNormal(a, b, frac, r);
    } else if b != MIN {
      ConcludedMin(b, frac, r);
    } else if a != MIN {
      ConcludedLow(a, frac, r);
    } else {
      ConcludedBoth(r);
    }
  }

  lemma OffIs(x: Int)
    ensures Off(x) == if x == MIN then MIN else Abs(x)
  {
  }

  lemma ConcludedBoth(r: int)
    requires r == Composed(MIN, MIN, 65535, false)
    ensures r != Quotient(MIN, MIN) && !Exact(MIN, MIN)
  {
    assert TruncDiv(MIN, MIN) == 1;
  }

  lemma ConcludedNormal(a: Int, b: Int, frac: nat, r: int)
    requires a != MIN && b != MIN && b != 0 && Digit(TruncMod(Abs(a), Abs(b)), Abs(b), frac)
    requires r == Composed(Abs(a), Abs(b), frac, (a < 0) != (b < 0))
    ensures r == Quotient(a, b) <==> Exact(a, b)
  {
    assert TruncMod(Abs(a), Abs(b)) == Abs(a) % Abs(b);
    ComposedNormal(Abs(a), Abs(b), frac, (a < 0) != (b < 0));
    hide Rest, Digits, Pow2, Steady, Composed, TruncMod;
  }

  lemma ConcludedMin(b: Int, frac: nat, r: int)
    requires b != MIN && b != 0 && Digit(TruncMod(MIN, Abs(b)), Abs(b), frac) && r == Composed(MIN, Abs(b), frac, b > 0)
    ensures r == Quotient(MIN, b) <==> Exact(MIN, b)
  {
    hide Rest, Digits, Pow2, Steady, Composed;
    if Abs(b) == 65536 {
      NoDigits(65536);
      assert TruncMod(MIN, 65536) == 0;
    }
    ComposedMin(Abs(b), frac, b > 0);
  }

  lemma ConcludedLow(a: Int, frac: nat, r: int)
    requires a != MIN && frac == 65535 && r == Composed(Abs(a), MIN, frac, a >= 0)
    ensures r == Quotient(a, MIN) <==> Exact(a, MIN)
  {
    assert TruncDiv(Abs(a), MIN) == 0;
    assert Abs(a) * 65536 / 0x8000_0000 == Abs(a) / 32768;
  }

  lemma ShiftedRange(q: int)
    ensures Wrap(q * 65536) <= 0x8000_0000 - 65536
  {
    assert (q * 65536 + 0x8000_0000) % 0x1_0000_0000 == (q + 0x8000) % 0x1_0000 * 65536;
  }

  /** The division: the truncated quotient exactly when `Exact`. */
  method Div(a: Int, b: Int) returns (r: Int)
    ensures b == 0 ==> r == 0
    ensures b != 0 ==> (r == Quotient(a, b) <==> Exact(a, b))
  {
    hide Rest, Digits, Pow2, Steady, Quotient, Exact, TruncDiv, TruncMod;
    if b == 0 { return 0; }
    var sign := 1;
    var x: int, y: int := a, b;
    if x < 0 { x := Wrap(-x); sign := -sign; }
    if y < 0 { y := Wrap(-y); sign := -sign; }
    var intPart := TruncDiv(x, y);
    var frac := Fraction(TruncMod(x, y), y);
    ShiftedRange(intPart);
    var result := Wrap(intPart * 65536) + frac;
    r := if sign < 0 then Wrap(-result) else result;
    Concluded(a, b, frac, r);
  }

  /** Wrapping yields the number in 32 bits that differs by a multiple of 2^32. */
  lemma WrapIs(x: int)
    ensures -0x8000_0000 <= Wrap(x) < 0x8000_0000 && (Wrap(x) - x) % 0x1_0000_0000 == 0
  {
  }

  /** The product is rounded down, for all signs: it is the floor of the exact one, modulo 2^32. */
  lemma MulFloor(a: Int, b: Int)
    ensures exists m: int ::
      && m * 65536 <= a * b < (m + 1) * 65536 && (Mul(a, b) - m) % 0x1_0000_0000 == 0
      && (-0x8000_0000 <= m < 0x8000_0000 ==> Mul(a, b) == m)
    ensures -0x8000_0000 * 65536 <= a * b < 0x8000_0000 * 65536 <==>
      Mul(a, b) * 65536 <= a * b < (Mul(a, b) + 1) * 65536
  {
    var m := a * b / 65536;
    WrapIs(m);
    assert a * b == m * 65536 + a * b % 65536;
    assert m * 65536 <= a * b < (m + 1) * 65536;
  }

  /** Multiplying an exact quotient by the divisor falls short of the dividend by less than b / 65536 + 1. */
  lemma MulUndoesDiv(a: Int, b: Int, r: Int)
    requires a >= 0 && b > 0 && r == Quotient(a, b)
    ensures 0 <= a - Mul(r, b) && (a - Mul(r, b)) * 65536 < b + 65536
  {
    var n := a * 65536;
    assert n == r * b + n % b;
    var m := r * b / 65536;
    assert r * b == m * 65536 + r * b % 65536;
    assert 0 <= r * b by { Less(-1, r, b); }
    assert Wrap(m) == m;
  }

  /** Up to 16384.0, division is exact wherever the quotient fits. */
  lemma ExactBelow(a: Int, b: Int)
    requires a != MIN && 0 < Abs(b) <= 0x4000_0000 && MIN <= Quotient(a, b) <= -(MIN + 1)
    ensures Exact(a, b)
  {
    SmallDivisors(Abs(a) % Abs(b), Abs(b), 16);
  }

  /** The remainders of the long division are those of r, 2r, 4r, ... so that `Steady` can be told beforehand. */
  lemma RestIs(r: nat, b: nat, i: nat, n: nat)
    requires r < b && n == r * Pow2(i)
    ensures Rest(r, b, i) == n % b
  {
    LongDivision(r, b, i);
    UniqueRest(n, b, Digits(r, b, i), Rest(r, b, i));
  }

  lemma UniqueRest(n: nat, b: nat, q: int, x: nat)
    requires n == q * b + x && x < b
    ensures n % b == x
  {
    Unique(n, b, q, x);
    assert n == n / b * b + n % b;
  }

  /** 24576.0 divided by a little less than 32768.0 has the quotient 49152 / 65536, but the division says otherwise. */
  lemma DivFails()
    ensures !Exact(0x6000_0000, 0x7fff_ffff) && Quotient(0x6000_0000, 0x7fff_ffff) == 49152
  {
    var r, b := 0x6000_0000, 0x7fff_ffff;
    assert Abs(r) % Abs(b) == r;
    assert Rest(r, b, 0) >= 0x4000_0000;
    assert !Steady(r, b, 16);
  }
}
