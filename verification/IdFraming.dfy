/**
 The text framing of udp/client.c and udp/udp.c: a client's id is nine
 characters, sent once after "!connect!" and then in front of every message.
 */
module IdFraming {
  import opened Bytes
  import opened Ascii

  const BUFSZ := 256
  const IDSZ := 10
  const HELLO: seq<Byte> := [33, 104, 101, 108, 108, 111, 33]
  const CONNECT: seq<Byte> := [33, 99, 111, 110, 110, 101, 99, 116, 33]
  const QUIT: seq<Byte> := [113, 117, 105, 116, 10]

  /** "!hello!", "!connect!" and "quit\n" */
  lemma Words()
    ensures HELLO == [33, 104, 101, 108, 108, 111, 33]
    ensures CONNECT == [33, 99, 111, 110, 110, 101, 99, 116, 33]
    ensures QUIT == [113, 117, 105, 116, 10]
  {
  }

  function Zeros(n: nat): (z: seq<Byte>)
    ensures |z| == n && forall k | 0 <= k < n :: z[k] == 0
  {
    seq(n, i => 0)
  }

  /** The first n bytes of s, with NULs up to that length. */
  function Padded(s: seq<Byte>, n: nat): (b: seq<Byte>)
    ensures |b| == n
    ensures forall k | 0 <= k < n :: b[k] == if k < |s| then s[k] else 0
  {
    if |s| >= n then s[..n] else s + Zeros(n - |s|)
  }

  // ------------------------------------------------------------------- ids

  /** gen_id: at most nine characters of the number and of the zeros after it. */
  function GenId(rid: int): (id: seq<Byte>)
    ensures |id| == IDSZ - 1
  {
    (Printed(rid) + seq(IDSZ, i => ZERO))[..IDSZ - 1]
  }

  function Pow10(w: nat): (p: nat)
    ensures p > 0
  {
    if w == 0 then 1 else 10 * Pow10(w - 1)
  }

  /** n multiplied or divided by ten until it has w digits. */
  function Scaled(n: nat, w: nat): (v: nat)
    requires w > 0
    ensures v < Pow10(w) && (v == 0 <==> n == 0) && (n > 0 ==> v >= Pow10(w - 1))
    decreases n >= Pow10(w), if n >= Pow10(w) then n else Pow10(w) - n
  {
    if n >= Pow10(w) then Scaled(n / 10, w)
    else if 0 < n < Pow10(w - 1) then Scaled(10 * n, w)
    else n
  }

  /** The number a client is known by. */
  function IdOf(rid: int): int {
    if rid < 0 then 0 - Scaled(-rid, 8) else Scaled(rid, 9)
  }

  lemma DigitsOfTenfold(n: nat)
    requires n > 0
    ensures Digits(10 * n) == Digits(n) + [ZERO]
  {
    assert (10 * n) / 10 == n && (10 * n) % 10 == 0;
  }

  lemma {:induction false} DigitCount(n: nat, w: nat)
    requires w > 0
    ensures n < Pow10(w) <==> |Digits(n)| <= w
    decreases w
  {
    if n >= 10 {
      if w == 1 {
        assert Pow10(1) == 10 * Pow10(0);
      } else {
        DigitCount(n / 10, w - 1);
      }
    } else {
      Pow10Grows(w);
    }
  }

  lemma {:induction false} Pow10Grows(w: nat)
    requires w > 0
    ensures Pow10(w) >= 10
  {
    if w > 1 {
      Pow10Grows(w - 1);
    }
  }

  /** The first w characters of the digits of n and z zeros. */
  function Shown(n: nat, z: nat, w: nat): seq<Byte>
    requires w <= |Digits(n)| + z
  {
    (Digits(n) + seq(z, i => ZERO))[..w]
  }

  lemma ShownShrinks(n: nat, z: nat, w: nat)
    requires w < |Digits(n)|
    ensures w <= |Digits(n / 10)| && Shown(n, z, w) == Shown(n / 10, z, w)
  {
    if w > 0 {
      assert Digits(n) == Digits(n / 10) + [ZERO + n % 10];
    }
  }

  lemma ShownGrows(n: nat, z: nat, w: nat)
    requires n > 0 && |Digits(n)| < w <= |Digits(n)| + z
    ensures w <= |Digits(10 * n)| + (z - 1) && Shown(n, z, w) == Shown(10 * n, z - 1, w)
  {
    DigitsOfTenfold(n);
    assert Digits(n) + seq(z, i => ZERO) == Digits(10 * n) + seq(z - 1, i => ZERO);
  }

  /** Writing zeros after the digits and keeping w characters scales the number. */
  lemma {:induction false} ScaledIsRead(n: nat, w: nat, z: nat)
    requires 0 < w <= |Digits(n)| + z
    ensures AllDigits(Shown(n, z, w)) && Decimal(Shown(n, z, w)) == Scaled(n, w)
    decreases n >= Pow10(w), if n >= Pow10(w) then n else Pow10(w) - n
  {
    DigitCount(n, w);
    if w > 1 {
      DigitCount(n, w - 1);
    }
    if n >= Pow10(w) {
      Pow10Grows(w);
      ShownShrinks(n, z, w);
      ScaledIsRead(n / 10, w, z);
    } else if 0 < n < Pow10(w - 1) {
      ShownGrows(n, z, w);
      ScaledIsRead(10 * n, w, z - 1);
    } else if n == 0 {
      ZerosAreZero(Shown(n, z, w));
    } else {
      assert Shown(n, z, w) == Digits(n);
    }
  }

  lemma {:induction false} ZerosAreZero(d: seq<Byte>)
    requires forall k | 0 <= k < |d| :: d[k] == ZERO
    ensures AllDigits(d) && Decimal(d) == 0
  {
    if d != [] {
      ZerosAreZero(d[..|d| - 1]);
    }
  }

  lemma PowersOfTen()
    ensures Pow10(7) == 10_000_000 && Pow10(8) == 100_000_000 && Pow10(9) == 1_000_000_000
  {
    assert Pow10(3) == 1000;
    assert Pow10(5) == 10 * (10 * Pow10(3));
    assert Pow10(7) == 10 * (10 * Pow10(5));
  }

  /** The nine characters: a sign, if there is one, and scaled digits. */
  lemma IdShape(rid: int)
    ensures rid < 0 ==>
              && GenId(rid) == [MINUS] + Shown(-rid, IDSZ, 8)
              && AllDigits(Shown(-rid, IDSZ, 8)) && Decimal(Shown(-rid, IDSZ, 8)) == Scaled(-rid, 8)
    ensures rid >= 0 ==>
              && GenId(rid) == Shown(rid, IDSZ, 9)
              && AllDigits(Shown(rid, IDSZ, 9)) && Decimal(Shown(rid, IDSZ, 9)) == Scaled(rid, 9)
  {
    if rid < 0 {
      ScaledIsRead(-rid, 8, IDSZ);
      assert GenId(rid) == [MINUS] + Shown(-rid, IDSZ, 8);
    } else {
      ScaledIsRead(rid, 9, IDSZ);
    }
  }

  /** The nine characters are an optional minus sign and digits that atoi reads as IdOf. */
  lemma IdIsRead(rid: int)
    ensures Atoi(GenId(rid)) == IdOf(rid)
    ensures forall k | 0 <= k < 9 :: IsDigit(GenId(rid)[k]) || (k == 0 && GenId(rid)[k] == MINUS)
  {
    PowersOfTen();
    IdShape(rid);
    hide GenId, Atoi, Decimal;
    if rid < 0 {
      AtoiReads(Shown(-rid, IDSZ, 8));
    } else {
      AtoiReads(Shown(rid, IDSZ, 9));
    }
  }

  /** No number but 0 gets an id that the server takes for a free slot or for an error. */
  lemma IdIsUsable(rid: int)
    ensures IdOf(rid) == 0 <==> rid == 0
    ensures -100_000_000 < IdOf(rid) < 1_000_000_000
    ensures rid != 0 ==> IdOf(rid) >= 10_000_000 || IdOf(rid) <= -10_000_000
  {
    PowersOfTen();
  }

  // ------------------------------------------------------------ collisions

  lemma {:induction false} SameDecimal(d: seq<Byte>, e: seq<Byte>)
    requires |d| == |e| && AllDigits(d) && AllDigits(e) && Decimal(d) == Decimal(e)
    ensures d == e
  {
    if d != [] {
      var m, n := d[|d| - 1] - ZERO, e[|e| - 1] - ZERO;
      assert 10 * Decimal(d[..|d| - 1]) + m == 10 * Decimal(e[..|e| - 1]) + n;
      SameDecimal(d[..|d| - 1], e[..|e| - 1]);
      assert d == d[..|d| - 1] + [d[|d| - 1]] && e == e[..|e| - 1] + [e[|e| - 1]];
    }
  }

  /** Two clients' ids are the same text exactly if they are the same number. */
  lemma SameTextSameId(a: int, b: int)
    ensures GenId(a) == GenId(b) <==> IdOf(a) == IdOf(b)
  {
    IdIsRead(a);
    IdIsRead(b);
    IdShape(a);
    IdShape(b);
    hide GenId, Scaled, Decimal, Atoi, Shown;
    if IdOf(a) == IdOf(b) {
      assert (a < 0) == (b < 0);
      if a < 0 {
        SameDecimal(Shown(-a, IDSZ, 8), Shown(-b, IDSZ, 8));
      } else {
        SameDecimal(Shown(a, IDSZ, 9), Shown(b, IDSZ, 9));
      }
    }
  }

  /** The first w digits of n, or all of them. */
  function Leading(n: nat, w: nat): (v: nat)
    requires w > 0
    ensures v < Pow10(w) && (v == 0 <==> n == 0) && (n < Pow10(w) ==> v == n)
  {
    if n < Pow10(w) then n else Pow10Grows(w); Leading(n / 10, w)
  }

  lemma {:induction false} ScaledLeading(n: nat, w: nat)
    requires w > 0
    ensures Scaled(n, w) == Scaled(Leading(n, w), w)
  {
    if n >= Pow10(w) {
      Pow10Grows(w);
      ScaledLeading(n / 10, w);
    }
  }

  lemma {:induction false} ScaledTenfold(x: nat, w: nat, k: nat)
    requires w > 0 && 0 < x && x * Pow10(k) < Pow10(w)
    ensures Scaled(x * Pow10(k), w) == Scaled(x, w)
    decreases k
  {
    if k > 0 {
      var y := x * Pow10(k - 1);
      assert x * Pow10(k) == 10 * y;
      assert y > 0;
      ScaledTenfold(x, w, k - 1);
    }
  }

  lemma {:induction false} ScaledIsTenfold(x: nat, w: nat) returns (k: nat)
    requires w > 0 && 0 < x < Pow10(w)
    ensures Scaled(x, w) == x * Pow10(k)
    decreases Pow10(w) - x
  {
    if x < Pow10(w - 1) {
      k := ScaledIsTenfold(10 * x, w);
      assert 10 * x * Pow10(k) == x * Pow10(k + 1);
      k := k + 1;
    } else {
      k := 0;
    }
  }

  lemma {:induction false} Pow10Plus(i: nat, j: nat)
    ensures Pow10(i + j) == Pow10(i) * Pow10(j)
  {
    if i > 0 {
      Pow10Plus(i - 1, j);
      assert Pow10(i + j) == 10 * (Pow10(i - 1) * Pow10(j));
    }
  }

  /** One of the two numbers is the other with zeros appended. */
  ghost predicate Tenfolds(x: nat, y: nat) {
    exists k: nat :: y == x * Pow10(k) || x == y * Pow10(k)
  }

  lemma TenfoldsBy(x: nat, y: nat, i: nat, j: nat)
    requires i >= j && x * Pow10(i) == y * Pow10(j)
    ensures y == x * Pow10(i - j)
  {
    Pow10Plus(i - j, j);
    var z, p := x * Pow10(i - j), Pow10(j);
    assert z * p == y * p;
    Cancel(z, y, p);
  }

  lemma Cancel(z: nat, y: nat, p: nat)
    requires p > 0 && z * p == y * p
    ensures z == y
  {
    assert z < y ==> (y - z) * p >= p;
    assert z > y ==> (z - y) * p >= p;
  }

  lemma SameScaled(x: nat, y: nat, w: nat)
    requires w > 0 && 0 < x < Pow10(w) && 0 < y < Pow10(w)
    ensures Scaled(x, w) == Scaled(y, w) <==> Tenfolds(x, y)
  {
    if Scaled(x, w) == Scaled(y, w) {
      var i := ScaledIsTenfold(x, w);
      var j := ScaledIsTenfold(y, w);
      if i >= j {
        TenfoldsBy(x, y, i, j);
      } else {
        TenfoldsBy(y, x, j, i);
      }
    }
    if Tenfolds(x, y) {
      var k: nat :| y == x * Pow10(k) || x == y * Pow10(k);
      if y == x * Pow10(k) {
        ScaledTenfold(x, w, k);
      } else {
        ScaledTenfold(y, w, k);
      }
    }
  }

  lemma ZeroTenfolds(x: nat)
    ensures Tenfolds(0, x) <==> x == 0
    ensures Tenfolds(x, 0) <==> x == 0
  {
    assert 0 == 0 * Pow10(0);
  }

  lemma SameLeading(m: nat, n: nat, w: nat)
    requires w > 0
    ensures Scaled(m, w) == Scaled(n, w) <==> Tenfolds(Leading(m, w), Leading(n, w))
  {
    ScaledLeading(m, w);
    ScaledLeading(n, w);
    ZeroTenfolds(Leading(m, w));
    ZeroTenfolds(Leading(n, w));
    hide Leading, Tenfolds;
    if m != 0 && n != 0 {
      SameScaled(Leading(m, w), Leading(n, w), w);
    }
  }

  /**
   Ids do not tell all clients apart. Two random numbers give the same id exactly
   if they have the same sign and their first nine digits, eight behind a minus
   sign, differ by zeros at the end.
   */
  lemma IdsCollideExactly(a: int, b: int)
    ensures GenId(a) == GenId(b)
       <==> (a < 0) == (b < 0) && if a < 0 then Tenfolds(Leading(-a, 8), Leading(-b, 8))
                                  else Tenfolds(Leading(a, 9), Leading(b, 9))
  {
    SameTextSameId(a, b);
    hide GenId, Tenfolds, Leading, Scaled, Pow10;
    if (a < 0) == (b < 0) {
      if a < 0 {
        SameLeading(-a, -b, 8);
      } else {
        SameLeading(a, b, 9);
      }
    } else {
      IdIsUsable(a);
      IdIsUsable(b);
      IdSign(a);
      IdSign(b);
    }
  }

  lemma IdSign(rid: int)
    ensures IdOf(rid) < 0 <==> rid < 0
  {
  }

  lemma AtLeastItself(n: nat, k: nat)
    ensures n * Pow10(k) >= n
  {
    assert n * (Pow10(k) - 1) >= 0;
  }

  lemma LongerTenfold(m: nat, n: nat)
    requires 0 < m <= n
    ensures Tenfolds(m, n) <==> exists k: nat :: n == m * Pow10(k)
  {
    if Tenfolds(m, n) {
      var k: nat :| n == m * Pow10(k) || m == n * Pow10(k);
      if m == n * Pow10(k) {
        AtLeastItself(n, k);
        k := 0;
      }
      assert n == m * Pow10(k);
    }
    forall k: nat | n == m * Pow10(k)
      ensures Tenfolds(m, n)
    {
    }
  }

  /** For numbers no longer than that: exactly if the longer one is the other with zeros appended. */
  lemma ShortIdsCollide(a: int, b: int)
    requires 0 < a <= b < Pow10(9) || 0 > a >= b > 0 - Pow10(8)
    ensures GenId(a) == GenId(b) <==> exists k: nat :: b == a * Pow10(k)
  {
    hide GenId, Tenfolds, Pow10;
    IdsCollideExactly(a, b);
    if a > 0 {
      assert Leading(a, 9) == a && Leading(b, 9) == b;
      LongerTenfold(a, b);
    } else {
      assert Leading(-a, 8) == -a && Leading(-b, 8) == -b;
      LongerTenfold(-a, -b);
      Negated(a, b);
    }
  }

  lemma Negated(a: int, b: int)
    ensures (exists k: nat :: -b == -a * Pow10(k)) <==> exists k: nat :: b == a * Pow10(k)
  {
    forall k: nat
      ensures -b == -a * Pow10(k) <==> b == a * Pow10(k)
    {
      assert -a * Pow10(k) == -(a * Pow10(k));
    }
  }

  lemma PrintedTenfold(n: nat)
    requires n > 0
    ensures (Digits(10 * n) + seq(IDSZ, i => ZERO))[..9] == (Digits(n) + seq(IDSZ, i => ZERO))[..9]
    ensures ([MINUS] + Digits(10 * n) + seq(IDSZ, i => ZERO))[..9] == ([MINUS] + Digits(n) + seq(IDSZ, i => ZERO))[..9]
  {
    DigitsOfTenfold(n);
    hide Digits;
    assert Digits(10 * n) + seq(IDSZ, i => ZERO) == Digits(n) + seq(IDSZ + 1, i => ZERO);
  }

  /** A number and its tenfold get the same id, whatever their length. */
  lemma IdsCollide(rid: int)
    ensures GenId(10 * rid) == GenId(rid) && IdOf(10 * rid) == IdOf(rid)
  {
    hide Scaled, Pow10, IdOf, Atoi, Digits;
    if rid > 0 {
      PrintedTenfold(rid);
    } else if rid < 0 {
      PrintedTenfold(-rid);
      assert -(10 * rid) == 10 * -rid;
    }
    IdIsRead(rid);
    IdIsRead(10 * rid);
  }

  // ------------------------------------------------------------- messages

  /** What the server takes a datagram for. */
  datatype Message = Hello | Connect(id: int) | Data(id: int, payload: seq<Byte>)

  /** The server's zeroed buffer after recvfrom. */
  function Received(datagram: seq<Byte>): (b: seq<Byte>)
    ensures |b| == BUFSZ + IDSZ
  {
    Padded(datagram, BUFSZ + IDSZ)
  }

  /** The dispatch of server_handler, with the parsing of com_connect and decypher. */
  function Classify(buffer: seq<Byte>): Message
    requires |buffer| == BUFSZ + IDSZ
  {
    if UpToNul(buffer) == HELLO then Hello
    else if CONNECT <= buffer then Connect(Atoi(UpToNul(buffer[|CONNECT|..|CONNECT| + IDSZ])))
    else Data(Atoi(UpToNul(buffer[..IDSZ - 1])), UpToNul(buffer[IDSZ - 1..]))
  }

  /** snprintf of an id and a string into a zeroed buffer, which is sent whole. */
  function Frame(id: seq<Byte>, s: seq<Byte>): seq<Byte> {
    Padded(Padded(id + UpToNul(s), BUFSZ - 1), BUFSZ)
  }

  /** What the string functions keep of s behind an id. */
  function Kept(s: seq<Byte>): (p: seq<Byte>)
    ensures |p| <= 246 && p <= UpToNul(s) && 0 !in p
  {
    if |UpToNul(s)| <= 246 then UpToNul(s) else UpToNul(s)[..246]
  }

  /**
   What the server makes of any text that fits its buffer, with NULs after it or
   not: a greeting, a connection under up to ten characters, or a payload behind
   up to nine.
   */
  lemma ClassifyLaw(s: seq<Byte>, n: nat)
    requires 0 !in s && |s| <= 266
    ensures var m := Classify(Received(s + Zeros(n)));
      if s == [33, 104, 101, 108, 108, 111, 33] then m == Hello
      else if [33, 99, 111, 110, 110, 101, 99, 116, 33] <= s then
        m == Connect(Atoi(s[9..if |s| < 19 then |s| else 19]))
      else if |s| < 9 then m == Data(Atoi(s), [])
      else m == Data(Atoi(s[..9]), s[9..])
  {
    hide Atoi, UpToNul;
    var b := Received(s + Zeros(n));
    assert s <= b && (|s| < 266 ==> b[|s|] == 0);
    UpToNulIs(b, s);
    ConnectPrefix(b, s);
    if |s| >= 9 {
      UpToNulIs(b[9..], s[9..]);
      UpToNulIs(b[..9], s[..9]);
      var end := if |s| < 19 then |s| else 19;
      assert b[9..19][..end - 9] == s[9..end];
      UpToNulIs(b[9..19], s[9..end]);
    } else {
      assert b[..9][..|s|] == s;
      UpToNulIs(b[..9], s);
      assert b[9] == 0 || |s| == 9;
      UpToNulIs(b[9..], []);
    }
  }

  lemma ConnectPrefix(b: seq<Byte>, s: seq<Byte>)
    requires s <= b && 0 !in s && |b| == 266 && (|s| < 266 ==> b[|s|] == 0)
    ensures CONNECT <= b <==> CONNECT <= s
  {
    assert |s| < 9 ==> b[|s|] != CONNECT[|s|];
  }

  lemma HelloIsHeard(n: nat)
    ensures Classify(Received(HELLO + Zeros(n))) == Hello
  {
    var b := Received(HELLO + Zeros(n));
    assert HELLO <= b;
    UpToNulIs(b, HELLO);
  }

  /** Connecting and sending under an id give the server the same number, whatever the payload. */
  lemma FramingRoundTrip(rid: int, s: seq<Byte>)
    ensures Classify(Received(CONNECT + GenId(rid))) == Connect(IdOf(rid))
    ensures Classify(Received(Frame(GenId(rid), s))) == Data(IdOf(rid), Kept(s))
  {
    IdIsRead(rid);
    ConnectIsRead(GenId(rid));
    DataIsRead(GenId(rid), s);
  }

  lemma ConnectIsRead(id: seq<Byte>)
    requires |id| == 9 && 0 !in id
    ensures Classify(Received(CONNECT + id)) == Connect(Atoi(id))
  {
    var b := Received(CONNECT + id);
    assert CONNECT <= b;
    assert b[1] == CONNECT[1] && HELLO[1] != CONNECT[1];
    var field := b[9..19];
    assert field == id + [0];
    UpToNulIs(field, id);
  }

  lemma FrameIsReceived(id: seq<Byte>, s: seq<Byte>)
    requires |id| == 9
    ensures Received(Frame(id, s)) == id + Kept(s) + Zeros(257 - |Kept(s)|)
  {
    hide UpToNul;
    var b, e := Received(Frame(id, s)), id + Kept(s) + Zeros(257 - |Kept(s)|);
    forall k | 0 <= k < 266
      ensures b[k] == e[k]
    {
    }
  }

  lemma DataIsRead(id: seq<Byte>, s: seq<Byte>)
    requires |id| == 9 && 0 !in id && id[0] != 33
    ensures Classify(Received(Frame(id, s))) == Data(Atoi(id), Kept(s))
  {
    hide UpToNul, Received, Frame, Atoi, Kept;
    FrameIsReceived(id, s);
    var b, p := Received(Frame(id, s)), Kept(s);
    assert b[..9] == id;
    UpToNulIs(b[..9], id);
    assert b[9..] == p + Zeros(257 - |p|);
    UpToNulIs(b[9..], p);
    NotACommand(b, id[0]);
  }

  lemma NotACommand(b: seq<Byte>, c: Byte)
    requires b != [] && b[0] == c != 33
    ensures UpToNul(b) != HELLO && !(CONNECT <= b)
  {
    assert CONNECT[0] == 33 && HELLO[0] == 33;
  }
}
