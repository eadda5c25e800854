/** What the operators of the language compute, by laws of quotient and remainder and bit by bit. */
module WordLaws {
  import opened Basics
  import opened X86
  import opened Cupid

  // ----- powers of two -----

  const POWERS: seq<int> := [
    0x1, 0x2, 0x4, 0x8, 0x10, 0x20, 0x40, 0x80, 0x100, 0x200, 0x400, 0x800, 0x1000, 0x2000, 0x4000, 0x8000,
    0x1_0000, 0x2_0000, 0x4_0000, 0x8_0000, 0x10_0000, 0x20_0000, 0x40_0000, 0x80_0000,
    0x100_0000, 0x200_0000, 0x400_0000, 0x800_0000, 0x1000_0000, 0x2000_0000, 0x4000_0000, 0x8000_0000]

  /** Bit i of a word. */
  predicate Bit(w: Word, i: nat)
    requires i < 32
  {
    Listed(i);
    w / POWERS[i] % 2 == 1
  }

  lemma Listed(i: nat)
    requires i < 32
    ensures |POWERS| == 32 && POWERS[i] > 0
  {
  }

  lemma {:induction false} PowerIs(i: nat)
    requires i < 32
    ensures Pow2(i) == POWERS[i]
  {
    if i > 0 {
      PowerIs(i - 1);
      Doubles(i);
    }
  }

  lemma Doubles(i: nat)
    requires 0 < i < 32
    ensures POWERS[i] == 2 * POWERS[i - 1]
  {
    if i < 16 {
      if i < 8 { assert i in {1, 2, 3, 4, 5, 6, 7}; } else { assert i in {8, 9, 10, 11, 12, 13, 14, 15}; }
    } else {
      if i < 24 { assert i in {16, 17, 18, 19, 20, 21, 22, 23}; } else { assert i in {24, 25, 26, 27, 28, 29, 30, 31}; }
    }
  }

  lemma {:induction false} Pow2Sum(i: nat, j: nat)
    ensures Pow2(i + j) == Pow2(i) * Pow2(j)
  {
    if i > 0 {
      Pow2Sum(i - 1, j);
      assert 2 * (Pow2(i - 1) * Pow2(j)) == 2 * Pow2(i - 1) * Pow2(j);
    }
  }

  // ----- quotients -----

  lemma QuotientIs(x: int, m: int, q: int, r: int)
    requires x == q * m + r && 0 <= r < m
    ensures x / m == q && x % m == r
  {
    var k, d := x / m, x % m;
    assert x == k * m + d;
    if k < q { Further(k, q, m); }
    if q < k { Further(q, k, m); }
  }

  lemma Further(a: int, b: int, m: int)
    requires a < b && m > 0
    ensures a * m + m <= b * m
  {
    assert b * m == a * m + m + (b - a - 1) * m;
    assert (b - a - 1) * m >= 0;
  }

  /** Dividing twice. */
  lemma DivTwice(x: int, m: int, n: int)
    requires m > 0 && n > 0
    ensures m * n > 0 && x / m / n == x / (m * n)
  {
    var y, r := x / m, x % m;
    var q, t := y / n, y % n;
    assert x == y * m + r && y == q * n + t;
    Nested(x, m, n, q, t, r);
    Below(t, n, m, r);
    QuotientIs(x, m * n, q, t * m + r);
  }

  lemma Nested(x: int, m: int, n: int, q: int, t: int, r: int)
    requires x == (q * n + t) * m + r
    ensures x == q * (m * n) + (t * m + r)
  {
    assert (q * n + t) * m == q * n * m + t * m;
    assert q * n * m == q * (m * n);
  }

  lemma Below(t: int, n: int, m: int, r: int)
    requires 0 <= t < n && 0 <= r < m
    ensures 0 <= t * m + r < m * n
  {
    assert t * m >= 0;
    assert n * m == t * m + (n - t) * m;
    assert (n - t) * m >= m by { Further(0, n - t, m); }
  }

  /** Adding a multiple of the divisor. */
  lemma AddMultiple(x: int, k: int, m: int)
    requires m > 0
    ensures (x + k * m) / m == x / m + k
  {
    var q, r := x / m, x % m;
    assert x == q * m + r;
    assert (q + k) * m == q * m + k * m;
    QuotientIs(x + k * m, m, q + k, r);
  }

  lemma DivPow(x: int, i: nat, j: nat)
    ensures Pow2(i) > 0 && Pow2(j) > 0 && Pow2(i + j) > 0
    ensures x / Pow2(i) / Pow2(j) == x / Pow2(i + j)
  {
    Pow2Positive(i);
    Pow2Positive(j);
    Pow2Positive(i + j);
    Pow2Sum(i, j);
    DivTwice(x, Pow2(i), Pow2(j));
  }

  /** Bit i of any number, as its two's complement has it. */
  predicate BitOf(x: int, i: nat)
  {
    Pow2Positive(i);
    x / Pow2(i) % 2 == 1
  }

  lemma BitIs(w: Word, i: nat)
    requires i < 32
    ensures Bit(w, i) <==> BitOf(w, i)
  {
    hide POWERS;
    Listed(i);
    PowerIs(i);
  }

  /** Wrapping keeps the low 32 bits. */
  lemma WrapBit(x: int, i: nat)
    requires i < 32
    ensures BitOf(Wrap(x), i) <==> BitOf(x, i)
  {
    hide Pow2;
    var k, p := x / W, Pow2(i);
    Pow2Positive(i);
    Pow2At32();
    Pow2Sum(32 - i, i);
    var h := Pow2(32 - i);
    assert x == Wrap(x) + k * W && W == h * p;
    assert k * W == k * h * p by { Cubes(k, h, p); }
    AddMultiple(Wrap(x), k * h, p);
    EvenPower(32 - i);
    EvenTimes(k, h);
    SameParity(Wrap(x) / p, k * h);
  }

  lemma Cubes(k: int, h: int, p: int)
    ensures k * (h * p) == k * h * p
  {
  }

  lemma EvenPower(n: nat)
    requires n > 0
    ensures Pow2(n) % 2 == 0
  {
  }

  lemma EvenTimes(k: int, h: int)
    requires h % 2 == 0
    ensures (k * h) % 2 == 0
  {
    assert h == 2 * (h / 2);
    assert k * h == 2 * (k * (h / 2));
  }

  lemma SameParity(x: int, y: int)
    requires y % 2 == 0
    ensures (x + y) % 2 == x % 2
  {
  }

  // ----- logic -----

  lemma {:induction false} LogicBits(op: Logic, a: nat, b: nat, n: nat, i: nat)
    requires i < n
    ensures BitOf(Bitwise(op, a, b, n), i) <==> LogicBit(op, BitOf(a, i), BitOf(b, i))
    decreases n
  {
    hide LogicBit;
    var r := Bitwise(op, a, b, n);
    if i == 0 {
      FirstBit(r);
      FirstBit(a);
      FirstBit(b);
      LowLogic(op, a, b, n);
    } else {
      LogicBits(op, a / 2, b / 2, n - 1, i - 1);
      NextBit(r, i);
      NextBit(a, i);
      NextBit(b, i);
      LowLogic(op, a, b, n);
    }
  }

  lemma LowLogic(op: Logic, a: nat, b: nat, n: nat)
    requires n > 0
    ensures var r := Bitwise(op, a, b, n);
      r / 2 == Bitwise(op, a / 2, b / 2, n - 1) && (r % 2 == 1 <==> LogicBit(op, a % 2 == 1, b % 2 == 1))
  {
    hide LogicBit;
  }

  lemma FirstBit(x: int)
    ensures BitOf(x, 0) <==> x % 2 == 1
  {
  }

  lemma NextBit(x: int, i: nat)
    requires i > 0
    ensures BitOf(x, i) <==> BitOf(x / 2, i - 1)
  {
    DivPow(x, 1, i - 1);
    assert Pow2(1) == 2;
  }

  /** &, | and ^ work bit by bit. */
  lemma LogicByBits(a: Word, b: Word, i: nat)
    requires i < 32
    ensures Bit(BinVal(BitAnd, a, b), i) <==> Bit(a, i) && Bit(b, i)
    ensures Bit(BinVal(BitOr, a, b), i) <==> Bit(a, i) || Bit(b, i)
    ensures Bit(BinVal(BitXor, a, b), i) <==> Bit(a, i) != Bit(b, i)
  {
    hide Bit, BitOf, Bitwise;
    BitIs(a, i);
    BitIs(b, i);
    BitIs(Logic32(And, a, b), i);
    BitIs(Logic32(Or, a, b), i);
    BitIs(Logic32(Xor, a, b), i);
    LogicBits(And, a, b, 32, i);
    LogicBits(Or, a, b, 32, i);
    LogicBits(Xor, a, b, 32, i);
  }

  /** ~ turns every bit over. */
  lemma NotBits(a: Word, i: nat)
    requires i < 32
    ensures Bit(UnVal(BitNot, a), i) <==> !Bit(a, i)
  {
    hide Bit, Pow2, BitOf;
    var b := UnVal(BitNot, a);
    BitIs(a, i);
    BitIs(b, i);
    WrapBit(-1 - a, i);
    assert Wrap(-1 - a) == b;
    NotBitOf(a, i);
  }

  lemma NotBitOf(x: int, i: nat)
    ensures BitOf(-1 - x, i) <==> !BitOf(x, i)
  {
    hide Pow2;
    Pow2Positive(i);
    var p: int := Pow2(i);
    var q, r := x / p, x % p;
    assert x == q * p + r;
    assert (-1 - q) * p == -p - q * p;
    QuotientIs(-1 - x, p, -1 - q, p - 1 - r);
  }

  // ----- shifts -----

  /** x << n moves every bit up by the low five bits of n and fills with zeros. */
  lemma ShiftLeftBits(a: Word, b: Word, i: nat)
    requires i < 32
    ensures var c := b % 32; Bit(BinVal(ShL, a, b), i) <==> i >= c && Bit(a, i - c)
  {
    hide Bit, BitOf, Pow2;
    var c := b % 32;
    var x := a * Pow2(c);
    BitIs(BinVal(ShL, a, b), i);
    WrapBit(x, i);
    if i >= c {
      BitIs(a, i - c);
      UpFrom(a, c, i);
    } else {
      UpTo(a, c, i);
    }
  }

  lemma UpFrom(a: int, c: nat, i: nat)
    requires i >= c
    ensures BitOf(a * Pow2(c), i) <==> BitOf(a, i - c)
  {
    DivPow(a * Pow2(c), c, i - c);
    QuotientIs(a * Pow2(c), Pow2(c), a, 0);
  }

  lemma UpTo(a: int, c: nat, i: nat)
    requires i < c
    ensures !BitOf(a * Pow2(c), i)
  {
    hide Pow2;
    Pow2Positive(i);
    Pow2Sum(c - i, i);
    var h := Pow2(c - i);
    Cubes(a, h, Pow2(i));
    QuotientIs(a * Pow2(c), Pow2(i), a * h, 0);
    EvenPower(c - i);
    EvenTimes(a, h);
  }

  /** x >> n moves every bit down and fills with the sign bit. */
  lemma ShiftRightBits(a: Word, b: Word, i: nat)
    requires i < 32
    ensures var c := b % 32; Bit(BinVal(ShR, a, b), i) <==> Bit(a, if i + c < 32 then i + c else 31)
  {
    hide Bit, BitOf, Pow2, Signed;
    var c := b % 32;
    Pow2Positive(c);
    var x := Signed(a) / Pow2(c);
    BitIs(BinVal(ShR, a, b), i);
    WrapBit(x, i);
    DownTo(Signed(a), c, i);
    if i + c < 32 {
      BitIs(a, i + c);
      SignedBit(a, i + c);
    } else {
      BitIs(a, 31);
      SignBits(a, i + c);
    }
  }

  lemma DownTo(x: int, c: nat, i: nat)
    ensures Pow2(c) > 0
    ensures BitOf(x / Pow2(c), i) <==> BitOf(x, i + c)
  {
    DivPow(x, c, i);
  }

  /** The signed reading has the same low bits. */
  lemma SignedBit(a: Word, k: nat)
    requires k < 32
    ensures BitOf(Signed(a), k) <==> BitOf(a, k)
  {
    hide BitOf;
    WrapBit(Signed(a), k);
    assert Wrap(Signed(a)) == a;
  }

  /** From bit 31 on, a signed number repeats its sign. */
  lemma SignBits(a: Word, k: nat)
    requires k >= 32
    ensures BitOf(Signed(a), k) <==> BitOf(a, 31)
  {
    hide Pow2;
    Pow2Positive(31);
    Pow2Positive(k);
    PowerIs(31);
    Pow2Sum(k - 31, 31);
    Pow2Positive(k - 31);
    Further(0, Pow2(k - 31), H);
    if a < H {
      QuotientIs(a, H, 0, a);
      QuotientIs(a, Pow2(k), 0, a);
    } else {
      QuotientIs(a, H, 1, a - H);
      QuotientIs(a - W, Pow2(k), -1, a - W + Pow2(k));
    }
  }

  // ----- arithmetic -----

  /** The signed reading of a word is the number between -2^31 and 2^31 that differs by a multiple of 2^32. */
  lemma SignedIs(a: Word)
    ensures -0x8000_0000 <= Signed(a) < 0x8000_0000 && (Signed(a) - a) % 0x1_0000_0000 == 0
    ensures Signed(a) < 0 <==> Bit(a, 31)
  {
    hide Bit, BitOf, Pow2;
    BitIs(a, 31);
    Pow2Positive(31);
    PowerIs(31);
    if a < H { QuotientIs(a, H, 0, a); } else { QuotientIs(a, H, 1, a - H); }
    TopBit(a);
  }

  lemma TopBit(a: Word)
    ensures BitOf(a, 31) <==> a >= H
  {
    hide Pow2;
    Pow2Positive(31);
    PowerIs(31);
    if a < H { QuotientIs(a, H, 0, a); } else { QuotientIs(a, H, 1, a - H); }
  }

  /** +, - and * are exact modulo 2^32. */
  lemma RingLaws(a: Word, b: Word)
    ensures (Signed(BinVal(Add, a, b)) - (Signed(a) + Signed(b))) % 0x1_0000_0000 == 0
    ensures (Signed(BinVal(Sub, a, b)) - (Signed(a) - Signed(b))) % 0x1_0000_0000 == 0
    ensures (Signed(BinVal(Mul, a, b)) - Signed(a) * Signed(b)) % 0x1_0000_0000 == 0
  {
    hide Signed, Wrap, Bit;
    SignedIs(a);
    SignedIs(b);
    SignedIs(Wrap(a + b));
    SignedIs(Wrap(a - b));
    SignedIs(Wrap(a * b));
    PlusWraps(a, b, Signed(a), Signed(b), Signed(Wrap(a + b)), Signed(Wrap(a - b)));
    TimesWraps(a, b, Signed(a), Signed(b), Signed(Wrap(a * b)));
  }

  lemma PlusWraps(a: int, b: int, x: int, y: int, p: int, m: int)
    requires (x - a) % W == 0 && (y - b) % W == 0 && (p - Wrap(a + b)) % W == 0 && (m - Wrap(a - b)) % W == 0
    ensures (p - (x + y)) % W == 0 && (m - (x - y)) % W == 0
  {
    hide Wrap;
    WrapStep(a + b);
    WrapStep(a - b);
    Multiples(x - a, y - b);
    Multiples(p - Wrap(a + b), Wrap(a + b) - (a + b));
    Multiples(p - (a + b), x - a + (y - b));
    Multiples(m - Wrap(a - b), Wrap(a - b) - (a - b));
    Multiples(m - (a - b), x - a - (y - b));
  }

  lemma WrapStep(x: int)
    ensures (Wrap(x) - x) % W == 0
  {
  }

  lemma Multiples(u: int, v: int)
    requires u % W == 0 && v % W == 0
    ensures (u + v) % W == 0 && (u - v) % W == 0
  {
  }

  lemma TimesWraps(a: int, b: int, x: int, y: int, m: int)
    requires (x - a) % W == 0 && (y - b) % W == 0 && (m - Wrap(a * b)) % W == 0
    ensures (m - x * y) % W == 0
  {
    var i, j, k := (a - x) / W, (b - y) / W, a * b / W;
    assert a == x + i * W && b == y + j * W && a * b == Wrap(a * b) + k * W;
    Product(a, b, x, y, i, j);
    var n, d := x * j + y * i + i * j * W, (m - Wrap(a * b)) / W;
    assert m - x * y == d * W + n * W - k * W;
    Multiple(m - x * y, d + n - k);
  }

  lemma Product(a: int, b: int, x: int, y: int, i: int, j: int)
    requires a == x + i * W && b == y + j * W
    ensures a * b == x * y + (x * j + y * i + i * j * W) * W
  {
    assert a * b == x * y + x * (j * W) + i * W * y + i * W * (j * W);
  }

  lemma Multiple(x: int, k: int)
    requires x == k * W
    ensures x % W == 0
  {
  }

  /** - is the negative number modulo 2^32, and ! tells whether a word is zero. */
  lemma UnaryLaws(a: Word)
    ensures (Signed(UnVal(Minus, a)) + Signed(a)) % 0x1_0000_0000 == 0 && UnVal(LogNot, a) == if a == 0 then 1 else 0
  {
  }

  // ----- division -----

  /** Division traps exactly for a zero divisor and for -2^31 / -1. */
  lemma TrapsExactly(op: BinOp, a: Word, b: Word)
    ensures Traps(op, a, b) <==> (op == Div || op == Mod) && (b == 0 || (a == 0x8000_0000 && b == 0xFFFF_FFFF))
  {
  }

  /** Quotient and remainder make up the dividend, the remainder is smaller than the divisor and has the sign of the
      dividend. */
  predicate Divided(x: int, y: int, q: int, r: int)
  {
    x == q * y + r && -Abs(y) < r < Abs(y) && (r < 0 ==> x < 0) && (r > 0 ==> x > 0)
  }

  function Abs(x: int): (r: int)
    ensures r >= 0
  {
    if x < 0 then -x else x
  }

  lemma DivisionLaw(a: Word, b: Word)
    requires !Traps(Div, a, b)
    ensures Divided(Signed(a), Signed(b), Signed(BinVal(Div, a, b)), Signed(BinVal(Mod, a, b)))
  {
    hide Signed, TruncDiv, TruncRem, Divided;
    var x, y := Signed(a), Signed(b);
    SignedRange(a);
    SignedRange(b);
    TruncLaw(x, y);
    TruncFits(x, y);
    SignedWrap(TruncDiv(x, y));
    SignedWrap(TruncRem(x, y));
  }

  /** Only one quotient and remainder are so related. */
  lemma DivisionUnique(x: int, y: int, q: int, r: int, q1: int, r1: int)
    requires y != 0 && Divided(x, y, q, r) && Divided(x, y, q1, r1)
    ensures q == q1 && r == r1
  {
    assert (q - q1) * y == q * y - q1 * y == r1 - r;
    if q != q1 {
      var d := Abs(q - q1);
      Further(0, d, Abs(y));
      assert Abs((q - q1) * y) == d * Abs(y) by { AbsProduct(q - q1, y); }
      assert false;
    }
  }

  lemma AbsProduct(a: int, b: int)
    ensures Abs(a * b) == Abs(a) * Abs(b)
  {
    if a >= 0 && b >= 0 {
      assert a * b >= 0;
    } else if a >= 0 {
      assert a * -b >= 0 && a * -b == -(a * b);
    } else if b >= 0 {
      assert -a * b >= 0 && -a * b == -(a * b);
    } else {
      assert -a * -b >= 0 && -a * -b == a * b;
    }
  }

  lemma SignedRange(a: Word)
    ensures -H <= Signed(a) < H && (Signed(a) == 0 <==> a == 0)
  {
  }

  lemma SignedWrap(x: int)
    requires -H <= x < H
    ensures Signed(Wrap(x)) == x
  {
  }

  lemma TruncLaw(x: int, y: int)
    requires y != 0
    ensures Divided(x, y, TruncDiv(x, y), TruncRem(x, y))
  {
    hide TruncDiv, TruncRem;
    var n, d := Abs(x), Abs(y);
    TruncParts(x, y);
    Parts(n, d);
    Signs(n / d, d);
  }

  lemma Parts(n: int, d: int)
    requires n >= 0 && d > 0
    ensures n == n / d * d + n % d && 0 <= n % d < d && 0 <= n / d <= n && n % d <= n && (d >= 2 ==> n / d <= n / 2)
  {
    var q, r := n / d, n % d;
    assert n == q * d + r;
    if q < 0 { Further(q, 0, d); }
    assert q * d >= q by { Scaled(q, d, 1); }
    if d >= 2 { Scaled(q, d, 2); }
  }

  lemma Scaled(q: int, y: int, k: int)
    requires q >= 0 && y >= k
    ensures q * y >= k * q
  {
    assert q * y == k * q + q * (y - k);
    assert q * (y - k) >= 0;
  }

  /** The truncated quotient and remainder, from those of the absolute values. */
  lemma TruncParts(x: int, y: int)
    requires y != 0
    ensures var q, r := Abs(x) / Abs(y), Abs(x) % Abs(y);
      TruncDiv(x, y) == (if (x < 0) == (y < 0) then q else -q) && TruncRem(x, y) == if x < 0 then -r else r
  {
    var n, d := Abs(x), Abs(y);
    assert n == n / d * d + n % d;
    Signs(n / d, d);
  }

  lemma Signs(q: int, d: int)
    ensures d * q == q * d && -d * q == -(q * d) && d * -q == -(q * d) && -d * -q == q * d
    ensures q * -d == -(q * d) && -q * d == -(q * d) && -q * -d == q * d
  {
  }

  lemma TruncFits(x: int, y: int)
    requires -H <= x < H && -H <= y < H && y != 0 && !(x == -H && y == -1)
    ensures -H <= TruncDiv(x, y) < H && -H <= TruncRem(x, y) < H
  {
    hide TruncDiv, TruncRem;
    TruncParts(x, y);
    Parts(Abs(x), Abs(y));
  }
}
