/**
 The key agreement of udp/dfke.c (the exchange of section 2.1.1 of RFC 2631
 with a modulus that is not prime). powl and fmodl are taken as exact; fmodl
 takes the remainder as the operator of C does, and the cast to char keeps the
 low eight bits, read as a signed number.
 */
module KeyAgreement {
  import opened Arithmetic

  function Pow(b: int, e: nat): int {
    if e == 0 then 1 else b * Pow(b, e - 1)
  }

  /** The cast to char. */
  function ToChar(n: int): (c: int)
    ensures -128 <= c < 128
    ensures -128 <= n < 128 ==> c == n
  {
    (n + 128) % 256 - 128
  }

  /** All four functions of dfke.c. */
  function Key(base: int, e: nat, p: int): (k: int)
    requires p > 0
    ensures -128 <= k < 128
  {
    ToChar(CRem(Pow(base, e), p))
  }

  // ----------------------------------------------------------- congruence

  /** x and y differ by a multiple of p. */
  ghost predicate Same(x: int, y: int, p: int) {
    exists q: int :: x == y + q * p
  }

  lemma SameBy(x: int, y: int, p: int, q: int)
    requires x == y + q * p
    ensures Same(x, y, p)
  {
  }

  lemma SameSwap(x: int, y: int, p: int)
    requires Same(x, y, p)
    ensures Same(y, x, p)
  {
    var q :| x == y + q * p;
    assert y == x + (-q) * p;
  }

  lemma SameChain(x: int, y: int, z: int, p: int)
    requires Same(x, y, p) && Same(y, z, p)
    ensures Same(x, z, p)
  {
    var q :| x == y + q * p;
    var r :| y == z + r * p;
    assert x == z + (r + q) * p;
  }

  lemma SameTimes(x: int, y: int, u: int, v: int, p: int)
    requires Same(x, y, p) && Same(u, v, p)
    ensures Same(x * u, y * v, p)
  {
    var q :| x == y + q * p;
    var r :| u == v + r * p;
    calc {
      x * u;
      (y + q * p) * (v + r * p);
      y * v + y * r * p + q * v * p + q * r * p * p;
      y * v + (y * r + q * v + q * r * p) * p;
    }
    SameBy(x * u, y * v, p, y * r + q * v + q * r * p);
  }

  lemma {:induction false} SamePow(x: int, y: int, e: nat, p: int)
    requires Same(x, y, p)
    ensures Same(Pow(x, e), Pow(y, e), p)
  {
    if e == 0 {
      SameBy(1, 1, p, 0);
    } else {
      SamePow(x, y, e - 1, p);
      SameTimes(x, y, Pow(x, e - 1), Pow(y, e - 1), p);
    }
  }

  /** Two numbers in the same range that differ by a multiple of p are equal. */
  lemma SameIsEqual(x: int, y: int, p: int, low: int)
    requires Same(x, y, p) && p > 0 && low <= x < low + p && low <= y < low + p
    ensures x == y
  {
    var q :| x == y + q * p;
    assert q >= 1 ==> q * p >= p;
    assert q <= -1 ==> q * p <= -p;
  }

  lemma CRemSame(t: int, p: int)
    requires p > 0
    ensures Same(CRem(t, p), t, p)
  {
    if t >= 0 {
      assert t % p == t + (-(t / p)) * p;
    } else {
      assert 0 - (-t) % p == t + ((-t) / p) * p;
    }
  }

  lemma ToCharSame(n: int)
    ensures Same(ToChar(n), n, 256)
  {
    SameBy(ToChar(n), n, 256, -((n + 128) / 256));
  }

  // ------------------------------------------------------------- exponents

  lemma {:induction false} PowTimes(x: int, y: int, e: nat)
    ensures Pow(x * y, e) == Pow(x, e) * Pow(y, e)
  {
    if e > 0 {
      PowTimes(x, y, e - 1);
      calc {
        Pow(x * y, e);
        (x * y) * (Pow(x, e - 1) * Pow(y, e - 1));
        (x * Pow(x, e - 1)) * (y * Pow(y, e - 1));
      }
    }
  }

  lemma {:induction false} OnePow(e: nat)
    ensures Pow(1, e) == 1
  {
    if e > 0 {
      OnePow(e - 1);
    }
  }

  lemma {:induction false} PowSwap(g: int, a: nat, b: nat)
    ensures Pow(Pow(g, a), b) == Pow(Pow(g, b), a)
    decreases a
  {
    if a == 0 {
      OnePow(b);
    } else {
      PowTimes(g, Pow(g, a - 1), b);
      PowSwap(g, a - 1, b);
    }
  }

  // ------------------------------------------------------------- agreement

  /** The two sides raise what they received to their own exponent and meet. */
  lemma Agreement(g: nat, a: nat, b: nat, p: nat)
    requires p > 0
    ensures Pow(Pow(g, a) % p, b) % p == Pow(Pow(g, b) % p, a) % p
  {
    OneSide(g, a, b, p);
    OneSide(g, b, a, p);
    PowSwap(g, a, b);
  }

  lemma OneSide(g: nat, a: nat, b: nat, p: nat)
    requires p > 0
    ensures Pow(Pow(g, a) % p, b) % p == Pow(Pow(g, a), b) % p
  {
    var t := Pow(g, a);
    SameBy(t % p, t, p, -(t / p));
    SamePow(t % p, t, b, p);
    RemainderSame(Pow(t % p, b), Pow(t, b), p);
  }

  lemma RemainderSame(x: int, y: int, p: nat)
    requires p > 0 && Same(x, y, p)
    ensures x % p == y % p
  {
    SameBy(x % p, x, p, -(x / p));
    SameBy(y, y % p, p, y / p);
    SameChain(x % p, x, y, p);
    SameChain(x % p, y, y % p, p);
    SameIsEqual(x % p, y % p, p, 0);
  }

  /** With the modulus 256 of the program the casts to a signed char are harmless, for any base and exponents. */
  lemma KeysAgree(g: int, a: nat, b: nat)
    ensures Key(Key(g, a, 256), b, 256) == Key(Key(g, b, 256), a, 256)
  {
    KeySame(g, a, b);
    KeySame(g, b, a);
    PowSwap(g, a, b);
    SameSwap(Key(Key(g, b, 256), a, 256), Pow(Pow(g, b), a), 256);
    SameChain(Key(Key(g, a, 256), b, 256), Pow(Pow(g, a), b), Key(Key(g, b, 256), a, 256), 256);
    SameIsEqual(Key(Key(g, a, 256), b, 256), Key(Key(g, b, 256), a, 256), 256, -128);
  }

  lemma OneKeySame(x: int, e: nat)
    ensures Same(Key(x, e, 256), Pow(x, e), 256)
  {
    CRemSame(Pow(x, e), 256);
    ToCharSame(CRem(Pow(x, e), 256));
    SameChain(Key(x, e, 256), CRem(Pow(x, e), 256), Pow(x, e), 256);
  }

  lemma KeySame(g: int, a: nat, b: nat)
    ensures Same(Key(Key(g, a, 256), b, 256), Pow(Pow(g, a), b), 256)
  {
    OneKeySame(g, a);
    OneKeySame(Key(g, a, 256), b);
    SamePow(Key(g, a, 256), Pow(g, a), b, 256);
    SameChain(Key(Key(g, a, 256), b, 256), Pow(Key(g, a, 256), b), Pow(Pow(g, a), b), 256);
  }

  /** With a modulus of at most 128 the casts change nothing. */
  lemma SmallModulusAgrees(g: nat, a: nat, b: nat, p: nat)
    requires 0 < p <= 128
    ensures Key(Key(g, a, p), b, p) == Key(Key(g, b, p), a, p)
  {
    Agreement(g, a, b, p);
    PowNat(g, a);
    PowNat(g, b);
    PowNat(Pow(g, a) % p, b);
    PowNat(Pow(g, b) % p, a);
  }

  lemma {:induction false} PowNat(x: nat, e: nat)
    ensures Pow(x, e) >= 0
  {
    if e > 0 {
      PowNat(x, e - 1);
    }
  }

  const G := 23
  const P := 256
  const A_SECRET := 4
  const B_SECRET := 11

  /** The keys of the program, and that every power it takes fits the 64 bits of a long double. */
  lemma ProgramKeys()
    ensures Key(G, A_SECRET, P) == 33 && Key(G, B_SECRET, P) == 71
    ensures Key(71, A_SECRET, P) == 97 && Key(33, B_SECRET, P) == 97
    ensures forall t <- [Pow(G, A_SECRET), Pow(G, B_SECRET), Pow(71, A_SECRET), Pow(33, B_SECRET)] ::
      0 <= t < 0x1_0000_0000_0000_0000
  {
    assert Pow(23, 4) == 279841;
    assert Pow(23, 8) == 279841 * 279841 by { PowPlus(23, 4, 4); }
    assert Pow(23, 3) == 12167;
    assert Pow(23, 11) == 279841 * 279841 * 12167 by { PowPlus(23, 8, 3); }
    assert Pow(71, 4) == 25411681;
    assert Pow(33, 4) == 1185921;
    assert Pow(33, 8) == 1185921 * 1185921 by { PowPlus(33, 4, 4); }
    assert Pow(33, 3) == 35937;
    assert Pow(33, 11) == 1185921 * 1185921 * 35937 by { PowPlus(33, 8, 3); }
  }

  lemma {:induction false} PowPlus(x: int, a: nat, b: nat)
    ensures Pow(x, a + b) == Pow(x, a) * Pow(x, b)
    decreases b
  {
    if b > 0 {
      PowPlus(x, a, b - 1);
      assert Pow(x, a + b) == x * Pow(x, a + (b - 1));
      assert x * (Pow(x, a) * Pow(x, b - 1)) == Pow(x, a) * (x * Pow(x, b - 1));
    }
  }
}
