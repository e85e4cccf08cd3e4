/** The operators of C that the programs use: the remainder, and two bitwise operators on unsigned numbers. */
module Arithmetic {

  // -------------------------------------------------------------- remainder

  function Abs(m: int): nat {
    if m < 0 then -m else m
  }

  /** Division goes towards zero. */
  function CDiv(n: int, m: int): int
    requires m != 0
  {
    if (n >= 0) == (m > 0) then Abs(n) / Abs(m) else -(Abs(n) / Abs(m))
  }

  /** The remainder has the sign of the dividend. */
  function CRem(n: int, m: int): int
    requires m != 0
  {
    if n >= 0 then n % Abs(m) else -(-n % Abs(m))
  }

  lemma SignedProduct(q: int, d: int)
    ensures (-q) * (-d) == q * d && (-q) * d == -(q * d) && q * (-d) == -(q * d)
  {
  }

  lemma SignsAgree(n: int, m: int, q: int, r: int)
    requires m != 0 && Abs(n) == q * Abs(m) + r
    ensures n == (if (n >= 0) == (m > 0) then q else -q) * m + if n >= 0 then r else -r
  {
    SignedProduct(q, Abs(m));
  }

  lemma CRemFits(n: int, m: int)
    requires m != 0
    ensures Abs(CRem(n, m)) < Abs(m)
    ensures if n >= 0 then CRem(n, m) >= 0 else CRem(n, m) <= 0
  {
    var d: int, a: int := Abs(m), Abs(n);
    var r := a % d;
    assert 0 <= r < d;
    assert CRem(n, m) == if n >= 0 then r else -r;
  }

  lemma CDivFits(n: int, m: int)
    requires m != 0
    ensures n == CDiv(n, m) * m + CRem(n, m)
  {
    var a, d := Abs(n), Abs(m);
    var q: int, r: int := a / d, a % d;
    assert a == q * d + r;
    SignsAgree(n, m, q, r);
    assert CDiv(n, m) == if (n >= 0) == (m > 0) then q else -q;
    assert CRem(n, m) == if n >= 0 then r else -r;
  }

  /** Quotient and remainder belong together, as section 6.5.5 of ISO/IEC 9899:2011 requires, for all signs. */
  lemma CRemIs(n: int, m: int)
    requires m != 0
    ensures n == CDiv(n, m) * m + CRem(n, m)
    ensures Abs(CRem(n, m)) < Abs(m) && if n >= 0 then CRem(n, m) >= 0 else CRem(n, m) <= 0
  {
    hide *;
    CDivFits(n, m);
    CRemFits(n, m);
  }

  lemma RemainderIs(x: int, d: int, q: int, r: int)
    requires d > 0 && x == q * d + r && 0 <= r < d
    ensures x % d == r
  {
    var k := x / d - q;
    assert r - x % d == k * d;
    assert k >= 1 ==> k * d >= d;
    assert k <= -1 ==> k * d <= -d;
  }

  lemma NegatedDivisible(v: int, d: int)
    requires d > 0
    ensures (-v) % d == 0 <==> v % d == 0
  {
    if v % d == 0 {
      RemainderIs(-v, d, -(v / d), 0);
    }
    if (-v) % d == 0 {
      RemainderIs(v, d, -((-v) / d), 0);
    }
  }

  // ------------------------------------------------------------------- bits

  function Pow2(n: nat): (p: nat)
    ensures p > 0
  {
    if n == 0 then 1 else 2 * Pow2(n - 1)
  }

  // ------------------------------------------------------------------- and

  /** Bitwise and of two unsigned numbers. */
  function BitAnd(x: nat, y: nat): nat {
    if x == 0 || y == 0 then 0 else x % 2 * (y % 2) + 2 * BitAnd(x / 2, y / 2)
  }

  lemma BitAndOdd(x: nat, half: nat)
    ensures BitAnd(x, 2 * half + 1) == x % 2 + 2 * BitAnd(x / 2, half)
  {
    var y := 2 * half + 1;
    assert y % 2 == 1 && y / 2 == half;
    assert x == 0 ==> BitAnd(x, y) == 0 && BitAnd(x / 2, half) == 0;
  }

  lemma RemainderByBits(x: nat, p: nat)
    requires p > 0
    ensures x % 2 + 2 * (x / 2 % p) == x % (2 * p)
  {
    var q, r := x / 2 / p, x / 2 % p;
    var low := x % 2 + 2 * r;
    assert x == q * (2 * p) + low;
    assert low < 2 * p;
    RemainderIs(x, 2 * p, q, low);
  }

  lemma MaskStep(x: nat, half: nat)
    requires half > 0 && BitAnd(x / 2, half - 1) == x / 2 % half
    ensures BitAnd(x, 2 * half - 1) == x % (2 * half)
  {
    hide BitAnd;
    BitAndOdd(x, half - 1);
    RemainderByBits(x, half);
    assert 2 * (half - 1) + 1 == 2 * half - 1;
  }

  lemma {:induction false} MaskIsPower(x: nat, bits: nat)
    ensures BitAnd(x, Pow2(bits) - 1) == x % Pow2(bits)
  {
    if bits == 0 {
      assert BitAnd(x, 0) == 0;
    } else {
      hide BitAnd;
      MaskIsPower(x / 2, bits - 1);
      MaskStep(x, Pow2(bits - 1));
    }
  }

  /** Masking with 0b1111 is the remainder by 16. */
  lemma MaskIsRemainder(x: nat)
    ensures BitAnd(x, 15) == x % 16
  {
    assert Pow2(2) == 4 && Pow2(4) == 16;
    MaskIsPower(x, 4);
  }

  // ------------------------------------------------------------------- xor

  /** Bitwise exclusive or. */
  function Xor(x: nat, y: nat): nat
    decreases x + y
  {
    if x == 0 && y == 0 then 0 else (x + y) % 2 + 2 * Xor(x / 2, y / 2)
  }

  lemma {:induction false} XorTwice(x: nat, k: nat)
    ensures Xor(Xor(x, k), k) == x
    decreases x + k
  {
    if x != 0 || k != 0 {
      XorTwice(x / 2, k / 2);
      XorStep(x, k);
    }
  }

  /** The last bit and the others of Xor(x, k). */
  lemma XorStep(x: nat, k: nat)
    ensures Xor(x, k) / 2 == Xor(x / 2, k / 2) && (Xor(x, k) + k) % 2 == x % 2
  {
    hide *;
    XorUnfolds(x, k);
    Parity(x, k, Xor(x / 2, k / 2), Xor(x, k));
  }

  lemma XorUnfolds(x: nat, k: nat)
    ensures Xor(x, k) == (x + k) % 2 + 2 * Xor(x / 2, k / 2)
  {
    assert Xor(0, 0) == 0;
  }

  lemma Parity(x: nat, k: nat, rest: nat, z: nat)
    requires z == (x + k) % 2 + 2 * rest
    ensures z / 2 == rest && (z + k) % 2 == x % 2
  {
    var bit, half := (x + k) % 2, (x + k) / 2;
    assert z + k == x + 2 * (k - half + rest);
  }

  lemma {:induction false} XorFits(x: nat, y: nat, bits: nat)
    requires x < Pow2(bits) && y < Pow2(bits)
    ensures Xor(x, y) < Pow2(bits)
    decreases bits
  {
    if x != 0 || y != 0 {
      XorFits(x / 2, y / 2, bits - 1);
    }
  }

  lemma {:induction false} XorCancels(x: nat)
    ensures Xor(x, x) == 0 && Xor(0, x) == Xor(x, 0) == x
  {
    if x != 0 {
      XorCancels(x / 2);
    }
  }
  /** Bit by bit: the bits of Xor(x, y) are those in which x and y differ. */
  lemma {:induction false} XorBits(x: nat, y: nat, n: nat)
    ensures Xor(x, y) / Pow2(n) % 2 == 1 <==> (x / Pow2(n) % 2 == 1) != (y / Pow2(n) % 2 == 1)
    decreases n
  {
    XorUnfolds(x, y);
    if n == 0 {
      LowBits(x, y, Xor(x / 2, y / 2));
    } else {
      hide Xor;
      XorBits(x / 2, y / 2, n - 1);
      HigherBit(x, n);
      HigherBit(y, n);
      HigherBit(Xor(x, y), n);
      XorStep(x, y);
    }
  }

  lemma LowBits(x: nat, y: nat, rest: nat)
    ensures ((x + y) % 2 + 2 * rest) % 2 == 1 <==> (x % 2 == 1) != (y % 2 == 1)
  {
  }

  lemma HigherBit(x: nat, n: nat)
    requires n > 0
    ensures x / Pow2(n) == x / 2 / Pow2(n - 1)
  {
    var p := Pow2(n - 1);
    var q, r, c := x / 2 / p, x / 2 % p, x % 2;
    assert x == q * (2 * p) + (2 * r + c);
    assert 2 * r + c < 2 * p;
    QuotientIs(x, 2 * p, q, 2 * r + c);
  }

  lemma QuotientIs(x: int, d: int, q: int, r: int)
    requires d > 0 && x == q * d + r && 0 <= r < d
    ensures x / d == q
  {
    RemainderIs(x, d, q, r);
    var k := x / d - q;
    assert k * d == 0;
    assert k >= 1 ==> k * d >= d;
    assert k <= -1 ==> k * d <= -d;
  }
}
