/**
 Characters and decimal numerals as the C library sees them: isspace and
 isdigit, what "%d" prints and what atoi reads.
 */
module Ascii {
  import opened Bytes

  const MINUS: Byte := 45
  const ZERO: Byte := 48

  /** isspace in the C locale (section 7.4.1.10 of ISO/IEC 9899:2011), taken as false above 127. */
  predicate IsSpace(c: Byte) {
    c == 32 || 9 <= c <= 13
  }

  predicate IsDigit(c: Byte) {
    ZERO <= c <= 57
  }

  predicate AllDigits(t: seq<Byte>) {
    forall k | 0 <= k < |t| :: IsDigit(t[k])
  }

  /** The decimal value of a run of digits. */
  function Decimal(d: seq<Byte>): nat
    requires AllDigits(d)
  {
    if d == [] then 0 else 10 * Decimal(d[..|d| - 1]) + (d[|d| - 1] - ZERO)
  }

  /** The bytes these names stand for. */
  lemma Characters(c: Byte)
    ensures IsSpace(c) <==> c in {9, 10, 11, 12, 13, 32}
    ensures IsDigit(c) <==> c in {48, 49, 50, 51, 52, 53, 54, 55, 56, 57}
    ensures ZERO == 48 && MINUS == 45 && PLUS == 43
  {
  }

  /** One more digit. */
  lemma DecimalLaw(d: seq<Byte>, digit: nat)
    requires AllDigits(d) && digit < 10
    ensures Decimal([]) == 0
    ensures AllDigits(d + [48 + digit]) && Decimal(d + [48 + digit]) == 10 * Decimal(d) + digit
  {
    assert (d + [48 + digit])[..|d|] == d;
  }

  /** The decimal digits of n, without leading zeros. */
  function Digits(n: nat): (d: seq<Byte>)
    ensures d != [] && AllDigits(d) && Decimal(d) == n
    ensures n != 0 ==> d[0] != ZERO
  {
    if n < 10 then [ZERO + n] else
    var d := Digits(n / 10) + [ZERO + n % 10];
    assert d[..|d| - 1] == Digits(n / 10);
    d
  }

  /** What "%d" prints. */
  function Printed(n: int): seq<Byte> {
    if n < 0 then [MINUS] + Digits(-n) else Digits(n)
  }

  /** The digits a text begins with. */
  function LeadingDigits(s: seq<Byte>): (d: seq<Byte>)
    ensures AllDigits(d) && d <= s && (|d| < |s| ==> !IsDigit(s[|d|]))
  {
    if s == [] || !IsDigit(s[0]) then [] else [s[0]] + LeadingDigits(s[1..])
  }

  function SkipSpace(s: seq<Byte>): seq<Byte> {
    if s != [] && IsSpace(s[0]) then SkipSpace(s[1..]) else s
  }

  /** A number converted to a 32-bit int. */
  function ToInt(n: int): (i: int)
    ensures -0x8000_0000 <= i < 0x8000_0000
    ensures -0x8000_0000 <= n < 0x8000_0000 ==> i == n
  {
    (n + 0x8000_0000) % 0x1_0000_0000 - 0x8000_0000
  }

  const PLUS: Byte := 43

  function Atoi(s: seq<Byte>): int {
    var t := SkipSpace(s);
    if t != [] && t[0] == MINUS then ToInt(0 - Decimal(LeadingDigits(t[1..])))
    else if t != [] && t[0] == PLUS then ToInt(Decimal(LeadingDigits(t[1..])))
    else ToInt(Decimal(LeadingDigits(t)))
  }

  lemma {:induction false} AllLeading(d: seq<Byte>)
    requires AllDigits(d)
    ensures LeadingDigits(d) == d
  {
    if d != [] {
      AllLeading(d[1..]);
    }
  }

  lemma {:induction false} DigitsThen(d: seq<Byte>, rest: seq<Byte>)
    requires AllDigits(d) && (rest == [] || !IsDigit(rest[0]))
    ensures LeadingDigits(d + rest) == d
  {
    if d == [] {
      assert d + rest == rest;
    } else {
      assert (d + rest)[1..] == d[1..] + rest;
      DigitsThen(d[1..], rest);
    }
  }

  lemma {:induction false} SpaceThen(sp: seq<Byte>, rest: seq<Byte>)
    requires forall k | 0 <= k < |sp| :: IsSpace(sp[k])
    requires rest == [] || !IsSpace(rest[0])
    ensures SkipSpace(sp + rest) == rest
  {
    if sp == [] {
      assert sp + rest == rest;
    } else {
      assert (sp + rest)[1..] == sp[1..] + rest;
      SpaceThen(sp[1..], rest);
    }
  }

  /** atoi passes over whitespace, takes a sign and the digits up to the first other character, and wraps the value. */
  lemma AtoiLaw(sp: seq<Byte>, d: seq<Byte>, rest: seq<Byte>)
    requires forall k | 0 <= k < |sp| :: IsSpace(sp[k])
    requires AllDigits(d) && (rest == [] || !IsDigit(rest[0]))
    ensures Atoi(sp + ([45] + d + rest)) == ToInt(0 - Decimal(d))
    ensures Atoi(sp + ([43] + d + rest)) == ToInt(Decimal(d))
    ensures d != [] || rest == [] || !(IsSpace(rest[0]) || rest[0] in {43, 45}) ==>
              Atoi(sp + (d + rest)) == ToInt(Decimal(d))
  {
    hide *;
    SignedLaw(sp, 45, d, rest);
    SignedLaw(sp, 43, d, rest);
    if d != [] || rest == [] || !(IsSpace(rest[0]) || rest[0] in {43, 45}) {
      PlainLaw(sp, d, rest);
    }
  }

  lemma SignedLaw(sp: seq<Byte>, sign: Byte, d: seq<Byte>, rest: seq<Byte>)
    requires forall k | 0 <= k < |sp| :: IsSpace(sp[k])
    requires AllDigits(d) && (rest == [] || !IsDigit(rest[0])) && sign in {43, 45}
    ensures Atoi(sp + ([sign] + d + rest)) == ToInt(if sign == 45 then 0 - Decimal(d) else Decimal(d))
  {
    hide SkipSpace, LeadingDigits, Decimal, ToInt, AllDigits;
    var u := [sign] + d + rest;
    SpaceThen(sp, u);
    assert u[0] == sign && u[1..] == d + rest;
    DigitsThen(d, rest);
  }

  lemma PlainLaw(sp: seq<Byte>, d: seq<Byte>, rest: seq<Byte>)
    requires forall k | 0 <= k < |sp| :: IsSpace(sp[k])
    requires AllDigits(d) && (rest == [] || !IsDigit(rest[0]))
    requires d != [] || rest == [] || !(IsSpace(rest[0]) || rest[0] in {43, 45})
    ensures Atoi(sp + (d + rest)) == ToInt(Decimal(d))
  {
    hide SkipSpace, LeadingDigits, Decimal, ToInt;
    var u := d + rest;
    assert d != [] ==> u[0] == d[0] && IsDigit(d[0]);
    assert d == [] ==> u == rest;
    SpaceThen(sp, u);
    DigitsThen(d, rest);
  }

  /** atoi reads back a sign and digits. */
  lemma AtoiReads(d: seq<Byte>)
    requires d != [] && AllDigits(d) && Decimal(d) < 0x8000_0000
    ensures Atoi(d) == Decimal(d) && Atoi([MINUS] + d) == 0 - Decimal(d)
  {
    AllLeading(d);
    assert IsDigit(d[0]);
    assert ([MINUS] + d)[1..] == d;
  }
}
