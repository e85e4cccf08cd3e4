/**
 The scanner of bizbuzz/bizzbuzz.c: one pass over the input that replaces each
 whitespace-delimited decimal numeral by bizz, buzz or bizzbuzz, going back to
 the token's start when it has to be copied.
 */
module BizzBuzz {
  import opened Arithmetic
  import opened Ascii
  import opened Bytes

  const BIZZ: seq<Byte> := [98, 105, 122, 122]
  const BUZZ: seq<Byte> := [98, 117, 122, 122]

  // ---------------------------------------------------------------- reference

  predicate NoSpace(t: seq<Byte>) {
    forall k | 0 <= k < |t| :: !IsSpace(t[k])
  }

  /** A token without its leading minus sign. */
  function Magnitude(t: seq<Byte>): seq<Byte> {
    if t != [] && t[0] == MINUS then t[1..] else t
  }

  /** The tokens -?[0-9]+ */
  predicate IsNumeral(t: seq<Byte>) {
    Magnitude(t) != [] && AllDigits(Magnitude(t))
  }

  function Value(t: seq<Byte>): int
    requires IsNumeral(t)
  {
    var v: int := Decimal(Magnitude(t));
    if t[0] == MINUS then -v else v
  }

  function Replace(t: seq<Byte>): seq<Byte> {
    if !IsNumeral(t) then t
    else if Value(t) % 3 == 0 && Value(t) % 5 == 0 then BIZZ + BUZZ
    else if Value(t) % 3 == 0 then BIZZ
    else if Value(t) % 5 == 0 then BUZZ
    else t
  }

  /** The bytes that are written for a numeral: bizz for 3, buzz for 5, both in this order for 15. */
  lemma WordsForNumeral(t: seq<Byte>)
    requires IsNumeral(t)
    ensures Value(t) % 3 == 0 && Value(t) % 5 != 0 ==> Replace(t) == [98, 105, 122, 122]
    ensures Value(t) % 3 != 0 && Value(t) % 5 == 0 ==> Replace(t) == [98, 117, 122, 122]
    ensures Value(t) % 3 == 0 && Value(t) % 5 == 0 ==> Replace(t) == [98, 105, 122, 122, 98, 117, 122, 122]
    ensures Value(t) % 3 != 0 && Value(t) % 5 != 0 ==> Replace(t) == t
  {
  }

  /** Numerals are an optional minus sign and digits, and nothing else is; the value is the decimal one. */
  lemma Numerals(t: seq<Byte>)
    ensures var d := if t != [] && t[0] == 45 then t[1..] else t;
      && (IsNumeral(t) <==> d != [] && forall k | 0 <= k < |d| :: 48 <= d[k] <= 57)
      && (IsNumeral(t) ==> Value(t) == if d == t then Decimal(d) else 0 - Decimal(d))
    ensures !IsNumeral(t) ==> Replace(t) == t
  {
  }

  /** The length of the token a text begins with. */
  function TokenLength(s: seq<Byte>): (n: nat)
    ensures n <= |s| && NoSpace(s[..n]) && (n < |s| ==> IsSpace(s[n]))
  {
    if s == [] || IsSpace(s[0]) then 0 else 1 + TokenLength(s[1..])
  }

  /** Every token replaced, every whitespace byte kept. */
  function MapTokens(s: seq<Byte>): seq<Byte>
    decreases |s|
  {
    if s == [] then []
    else if IsSpace(s[0]) then [s[0]] + MapTokens(s[1..])
    else
      var n := TokenLength(s);
      Replace(s[..n]) + MapTokens(s[n..])
  }

  predicate EndsInSpace(s: seq<Byte>) {
    s == [] || IsSpace(s[|s| - 1])
  }

  /** The longest prefix that ends in whitespace. */
  function Terminated(s: seq<Byte>): (p: seq<Byte>)
    ensures p <= s && EndsInSpace(p) && NoSpace(s[|p|..])
  {
    if EndsInSpace(s) then s else
    var p := Terminated(s[..|s| - 1]);
    assert s[|p|..] == s[..|s| - 1][|p|..] + [s[|s| - 1]];
    p
  }

  // ---------------------------------------------------------- laws of the reference

  lemma {:induction false} TokenLengthOf(t: seq<Byte>, rest: seq<Byte>)
    requires NoSpace(t) && (rest == [] || IsSpace(rest[0]))
    ensures TokenLength(t + rest) == |t|
  {
    if t == [] {
      assert t + rest == rest;
    } else {
      assert (t + rest)[0] == t[0] && (t + rest)[1..] == t[1..] + rest;
      TokenLengthOf(t[1..], rest);
    }
  }

  lemma MapTokensToken(t: seq<Byte>, rest: seq<Byte>)
    requires t != [] && NoSpace(t) && (rest == [] || IsSpace(rest[0]))
    ensures MapTokens(t + rest) == Replace(t) + MapTokens(rest)
  {
    TokenLengthOf(t, rest);
    assert (t + rest)[0] == t[0];
    assert (t + rest)[..|t|] == t && (t + rest)[|t|..] == rest;
  }

  lemma ConcatSpace(p: seq<Byte>, rest: seq<Byte>)
    requires p != [] && IsSpace(p[0])
    requires MapTokens(p[1..] + rest) == MapTokens(p[1..]) + MapTokens(rest)
    ensures MapTokens(p + rest) == MapTokens(p) + MapTokens(rest)
  {
    hide MapTokens;
    MapTokensSpace(p[0], p[1..] + rest);
    MapTokensSpace(p[0], p[1..]);
    assert [p[0]] + p[1..] == p;
    assert [p[0]] + (p[1..] + rest) == p + rest;
  }

  lemma MapTokensNil()
    ensures MapTokens([]) == []
  {
  }

  lemma MapTokensSpace(c: Byte, rest: seq<Byte>)
    requires IsSpace(c)
    ensures MapTokens([c] + rest) == [c] + MapTokens(rest)
  {
    assert ([c] + rest)[1..] == rest;
  }

  lemma ConcatToken(t: seq<Byte>, tail: seq<Byte>, rest: seq<Byte>)
    requires t != [] && NoSpace(t) && tail != [] && IsSpace(tail[0])
    requires MapTokens(tail + rest) == MapTokens(tail) + MapTokens(rest)
    ensures MapTokens(t + tail + rest) == MapTokens(t + tail) + MapTokens(rest)
  {
    hide MapTokens, Replace;
    assert t + tail + rest == t + (tail + rest);
    MapTokensToken(t, tail + rest);
    MapTokensToken(t, tail);
  }

  /** Cutting the text after a whitespace byte cuts the result. */
  lemma {:induction false} MapTokensConcat(p: seq<Byte>, rest: seq<Byte>)
    requires EndsInSpace(p)
    ensures MapTokens(p + rest) == MapTokens(p) + MapTokens(rest)
    decreases |p|
  {
    hide MapTokens, TokenLength;
    if p == [] {
      MapTokensNil();
      assert p + rest == rest;
    } else if IsSpace(p[0]) {
      MapTokensConcat(p[1..], rest);
      ConcatSpace(p, rest);
    } else {
      var n := TokenBefore(p);
      MapTokensConcat(p[n..], rest);
      ConcatToken(p[..n], p[n..], rest);
      assert p[..n] + p[n..] == p;
    }
  }

  /** A text that starts with a token and ends in whitespace has whitespace after the token. */
  lemma TokenBefore(p: seq<Byte>) returns (n: nat)
    requires p != [] && !IsSpace(p[0]) && EndsInSpace(p)
    ensures 0 < n < |p| && n == TokenLength(p) && NoSpace(p[..n]) && IsSpace(p[n]) && EndsInSpace(p[n..])
  {
    n := TokenLength(p);
    assert !IsSpace(p[..n][0]);
    if n == |p| {
      assert false;
    }
    assert p[n..][|p| - n - 1] == p[|p| - 1];
  }

  lemma ReplaceTwice(t: seq<Byte>)
    ensures Replace(Replace(t)) == Replace(t)
    ensures t != [] && NoSpace(t) ==> Replace(t) != [] && NoSpace(Replace(t))
  {
    forall w | w == BIZZ || w == BUZZ || w == BIZZ + BUZZ
      ensures !IsNumeral(w)
    {
      assert !IsDigit(w[0]);
    }
  }

  /** A second pass changes nothing. */
  lemma {:induction false} MapTokensIdempotent(s: seq<Byte>)
    ensures MapTokens(MapTokens(s)) == MapTokens(s)
    ensures s != [] && IsSpace(s[0]) ==> MapTokens(s) != [] && IsSpace(MapTokens(s)[0])
    decreases |s|
  {
    if s == [] {
    } else if IsSpace(s[0]) {
      MapTokensIdempotent(s[1..]);
      assert MapTokens(s)[1..] == MapTokens(s[1..]);
    } else {
      var n := TokenLength(s);
      MapTokensIdempotent(s[n..]);
      ReplaceTwice(s[..n]);
      MapTokensToken(Replace(s[..n]), MapTokens(s[n..]));
    }
  }

  // ------------------------------------------------------------- divisibility

  function DigitSum(d: seq<Byte>): int {
    if d == [] then 0 else DigitSum(d[..|d| - 1]) + (d[|d| - 1] - ZERO)
  }

  /** What the scanner looks at decides divisibility by 3 and by 5. */
  lemma {:induction false} DivisibilityRules(d: seq<Byte>)
    requires AllDigits(d)
    ensures Decimal(d) % 3 == DigitSum(d) % 3
    ensures d != [] ==> (Decimal(d) % 5 == 0 <==> (d[|d| - 1] - ZERO) % 5 == 0)
  {
    if d != [] {
      DivisibilityRules(d[..|d| - 1]);
      NextDigit(Decimal(d[..|d| - 1]), DigitSum(d[..|d| - 1]), d[|d| - 1] - ZERO);
    }
  }

  lemma NextDigit(v: nat, sum: int, digit: nat)
    requires v % 3 == sum % 3
    ensures (10 * v + digit) % 3 == (sum + digit) % 3
    ensures (10 * v + digit) % 5 == digit % 5
  {
    assert 10 * v + digit - (sum + digit) == 3 * (3 * v + v / 3 - sum / 3);
    assert (10 * v + digit) % 5 == (digit + 5 * (2 * v)) % 5;
  }

  lemma RunningSum(sum: int, c: Byte)
    requires c >= ZERO
    ensures CRem(sum % 3 + c - 48, 3) == (sum + (c - ZERO)) % 3
  {
    assert sum + (c - ZERO) == sum % 3 + (c - ZERO) + 3 * (sum / 3);
  }

  // ------------------------------------------------------------------ scanner

  /** The scanner's `flag` is raised exactly on tokens outside -?[0-9]* */
  predicate Clean(t: seq<Byte>) {
    AllDigits(Magnitude(t))
  }

  lemma CleanSnoc(t: seq<Byte>, c: Byte)
    requires !IsSpace(c)
    ensures NoSpace(t) ==> NoSpace(t + [c])
    ensures Clean(t + [c]) <==> Clean(t) && (IsDigit(c) || (c == MINUS && t == []))
    ensures Clean(t + [c]) ==>
              DigitSum(Magnitude(t + [c])) == DigitSum(Magnitude(t)) + if c == MINUS then 0 else c - ZERO
  {
    if t == [] {
      assert t + [c] == [c];
      assert c == MINUS ==> Magnitude([c]) == [];
      assert c != MINUS ==> Magnitude([c]) == [c] && [c][..0] == [];
    } else {
      assert Magnitude(t + [c]) == Magnitude(t) + [c];
      var d := Magnitude(t) + [c];
      assert d[..|d| - 1] == Magnitude(t);
      assert d[|d| - 1] == c;
    }
  }

  lemma SignIsIrrelevant(v: int)
    ensures (-v) % 3 == 0 <==> v % 3 == 0
    ensures (-v) % 5 == 0 <==> v % 5 == 0
  {
    NegatedDivisible(v, 3);
    NegatedDivisible(v, 5);
  }

  lemma NumeralShape(t: seq<Byte>)
    requires t != []
    ensures IsNumeral(t) <==> Clean(t) && t[|t| - 1] != MINUS
    ensures IsNumeral(t) ==> Magnitude(t)[|Magnitude(t)| - 1] == t[|t| - 1]
  {
    var d := Magnitude(t);
    if d != [] {
      assert d[|d| - 1] == t[|t| - 1];
    }
  }

  /** At the end of a token the scanner's variables decide the replacement. */
  lemma Decides(t: seq<Byte>)
    requires t != []
    ensures IsNumeral(t) <==> Clean(t) && t[|t| - 1] != MINUS
    ensures !IsNumeral(t) ==> Replace(t) == t
    ensures IsNumeral(t) ==>
              var by3, by5 := DigitSum(Magnitude(t)) % 3 == 0, (t[|t| - 1] - ZERO) % 5 == 0;
              Replace(t) == if by3 || by5 then (if by3 then BIZZ else []) + (if by5 then BUZZ else []) else t
  {
    NumeralShape(t);
    hide Decimal, DigitSum, AllDigits, Clean;
    if IsNumeral(t) {
      DivisibilityRules(Magnitude(t));
      SignIsIrrelevant(Decimal(Magnitude(t)));
    }
  }

  /** Terminated, by the bytes: its last one is whitespace, and none is left out. */
  lemma TerminatedBytes(s: seq<Byte>)
    ensures var p := Terminated(s);
      && p <= s && (p == [] || p[|p| - 1] in {9, 10, 11, 12, 13, 32})
      && forall k | |p| <= k < |s| :: s[k] !in {9, 10, 11, 12, 13, 32}
  {
    var p := Terminated(s);
    forall k | |p| <= k < |s|
      ensures !IsSpace(s[k])
    {
      assert !IsSpace(s[|p|..][k - |p|]);
    }
  }

  /** A text is mapped token by token, and the six whitespace bytes are kept. */
  lemma TextLaw(t: seq<Byte>, c: Byte, rest: seq<Byte>)
    requires forall k | 0 <= k < |t| :: t[k] !in {9, 10, 11, 12, 13, 32}
    requires c in {9, 10, 11, 12, 13, 32}
    ensures MapTokens(t + [c] + rest) == Replace(t) + [c] + MapTokens(rest)
    ensures t != [] ==> MapTokens(t) == Replace(t)
  {
    hide MapTokens, Replace;
    MapTokensSpace(c, rest);
    MapTokensNil();
    assert t + ([c] + rest) == t + [c] + rest && t + [] == t;
    assert Replace(t) + ([c] + MapTokens(rest)) == Replace(t) + [c] + MapTokens(rest);
    if t == [] {
      NoToken();
      assert t + [c] + rest == [c] + rest;
    } else {
      MapTokensToken(t, [c] + rest);
      MapTokensToken(t, []);
      assert Replace(t) + [] == Replace(t);
    }
  }

  lemma NoToken()
    ensures Replace([]) == []
  {
  }

  lemma EmptyToken()
    ensures NoSpace([]) && EndsInSpace([]) && Clean([]) && DigitSum(Magnitude([])) == 0
  {
    assert Magnitude([]) == [];
  }

  lemma TokenDone(data: seq<Byte>, sp: nat, i: nat)
    requires sp <= i < |data| && EndsInSpace(data[..sp]) && NoSpace(data[sp..i]) && IsSpace(data[i])
    ensures EndsInSpace(data[..i + 1])
    ensures MapTokens(data[..i + 1])
         == MapTokens(data[..sp]) + (if sp == i then [] else Replace(data[sp..i])) + [data[i]]
  {
    hide MapTokens, Replace, NoSpace;
    var tail := data[sp..i] + [data[i]];
    assert data[..i + 1] == data[..sp] + tail;
    MapTokensConcat(data[..sp], tail);
    assert [data[i]] + [] == [data[i]];
    MapTokensSpace(data[i], []);
    MapTokensNil();
    if sp == i {
      assert tail == [data[i]];
    } else {
      MapTokensToken(data[sp..i], [data[i]]);
    }
  }

  lemma {:induction false} TerminatedIs(s: seq<Byte>, p: seq<Byte>)
    requires p <= s && EndsInSpace(p) && NoSpace(s[|p|..])
    ensures Terminated(s) == p
  {
    if |p| < |s| {
      assert !IsSpace(s[|p|..][|s| - 1 - |p|]);
      TerminatedIs(s[..|s| - 1], p);
    }
  }

  /** The inner loop: goes back to the token's start and copies it up to the whitespace at `here`. */
  method CopyToken(fd1: InFile, fd2: OutFile, lastSp: int, len: nat, ghost here: nat) returns (i: nat, cur: Byte)
    requires -1 <= lastSp && lastSp + 1 < here < len == |fd1.data|
    requires NoSpace(fd1.data[lastSp + 1..here]) && IsSpace(fd1.data[here])
    requires fd2.Valid()
    modifies fd1, fd2
    ensures fd2.Valid() && fd2.written == old(fd2.written) + fd1.data[lastSp + 1..here]
    ensures i == here && cur == fd1.data[here] && fd1.pos == here + 1
  {
    var n;
    i, cur := lastSp + 1, 0;
    fd1.Seek(lastSp + 1);
    n, cur := fd1.Read(cur);
    while n != 0
      invariant lastSp < i <= here && n == 1 && cur == fd1.data[i] && fd1.pos == i + 1
      invariant fd2.Valid() && fd2.written == old(fd2.written) + fd1.data[lastSp + 1..i]
      decreases here - i
    {
      assert i < here ==> !IsSpace(fd1.data[lastSp + 1..here][i - lastSp - 1]);
      if IsSpace(cur) && i != lastSp {
        break;
      }
      fd2.Write([cur]);
      assert fd1.data[lastSp + 1..i + 1] == fd1.data[lastSp + 1..i] + [cur];
      if i == len - 1 {
        break;
      }
      i := i + 1;
      n, cur := fd1.Read(cur);
    }
  }

  /**
   The whitespace after a token was read: writes the token's replacement, or
   goes back and copies the token. Either way the scanner is left at the same
   whitespace with its digit sum and flag cleared.
   */
  method EndToken(fd1: InFile, fd2: OutFile, lastSp: int, len: nat, here: nat, ws: Byte, buf: Byte,
                  sum0: int, flag0: int)
    returns (i: nat, cur: Byte, summa: int, flag: int)
    requires -1 <= lastSp && lastSp + 1 < here < len == |fd1.data| && fd1.pos == here + 1
    requires NoSpace(fd1.data[lastSp + 1..here]) && IsSpace(fd1.data[here]) && ws == fd1.data[here]
    requires buf == fd1.data[here - 1]
    requires flag0 == if IsNumeral(fd1.data[lastSp + 1..here]) then 0 else 1
    requires flag0 == 0 ==> sum0 == DigitSum(Magnitude(fd1.data[lastSp + 1..here])) % 3
    requires fd2.Valid()
    modifies fd1, fd2
    ensures fd2.Valid() && fd2.written == old(fd2.written) + Replace(fd1.data[lastSp + 1..here])
    ensures i == here && cur == ws && fd1.pos == here + 1 && summa == 0 && flag == 0
    ensures var t := fd1.data[lastSp + 1..here];
      IsNumeral(t) ==>
        && (Value(t) % 3 == 0 && Value(t) % 5 != 0 ==> fd2.written == old(fd2.written) + [98, 105, 122, 122])
        && (Value(t) % 3 != 0 && Value(t) % 5 == 0 ==> fd2.written == old(fd2.written) + [98, 117, 122, 122])
        && (Value(t) % 3 == 0 && Value(t) % 5 == 0 ==>
              fd2.written == old(fd2.written) + [98, 105, 122, 122, 98, 117, 122, 122])
  {
    hide Replace, DigitSum, IsNumeral, NoSpace, Magnitude, Value, Overlay;
    Decides(fd1.data[lastSp + 1..here]);
    if IsNumeral(fd1.data[lastSp + 1..here]) {
      WordsForNumeral(fd1.data[lastSp + 1..here]);
    }
    i, cur, summa, flag := here, ws, sum0, flag0;
    if CRem(summa, 3) == 0 && flag == 0 {
      fd2.Write(BIZZ);
      flag, summa := 0, 0;
    }
    if CRem(buf - 48, 5) == 0 && flag == 0 {
      fd2.Write(BUZZ);
      flag, summa := 0, 0;
    }
    if flag == 1 || summa != 0 {
      summa := 0;
      i, cur := CopyToken(fd1, fd2, lastSp, len, here);
      flag := 0;
    }
  }

  /**
   Reads the whole input and writes the token-wise image of its longest
   whitespace-terminated prefix. Bytes the output file already held past that
   length stay.
   */
  method Transfer(fd1: InFile, fd2: OutFile, len: nat)
    requires fd1.pos == 0 && len == |fd1.data|
    requires fd2.Valid() && fd2.written == []
    modifies fd1, fd2
    ensures fd2.Valid() && fd2.written == MapTokens(Terminated(fd1.data))
    ensures fd2.contents == Overlay(MapTokens(Terminated(fd1.data)), old(fd2.contents))
    ensures MapTokens(Terminated(fd1.data)) <= fd2.contents
    ensures forall k | |MapTokens(Terminated(fd1.data))| <= k < |fd2.contents| ::
              k < |old(fd2.contents)| && fd2.contents[k] == old(fd2.contents)[k]
  {
    hide MapTokens, Terminated, Replace, DigitSum, Clean, IsNumeral, NoSpace, EndsInSpace, Magnitude, CRem;
    var data := fd1.data;
    var cur: Byte, buf: Byte := 0, 0;
    var i, lastSp, summa, flag := 0, -1, 0, 0;
    EmptyToken();
    MapTokensNil();
    ghost var tok := [];
    while i < len
      invariant -1 <= lastSp < i <= len && fd1.pos == i
      invariant fd2.Valid() && fd2.written == MapTokens(data[..lastSp + 1])
      invariant tok == data[lastSp + 1..i] && NoSpace(tok) && EndsInSpace(data[..lastSp + 1])
      invariant buf == (if i == 0 then 0 else data[i - 1]) && (tok == [] <==> i == 0 || IsSpace(buf))
      invariant flag == if Clean(tok) then 0 else 1
      invariant flag == 0 ==> summa == DigitSum(Magnitude(tok)) % 3
    {
      var n;
      n, cur := fd1.Read(cur);
      if (!IsSpace(cur) && (cur != MINUS || (i != lastSp + 1 && i != 0)) && (cur < 48 || cur > 57))
         || (buf == MINUS && IsSpace(cur)) {
        flag := 1;
      }
      if !IsSpace(cur) && cur != MINUS {
        buf := cur;
        summa := CRem(summa + buf - 48, 3);
      }
      if !IsSpace(cur) {
        CleanSnoc(tok, cur);
        if IsDigit(cur) {
          RunningSum(DigitSum(Magnitude(tok)), cur);
        }
      } else {
        TokenDone(data, lastSp + 1, i);
        if tok != [] {
          NumeralShape(tok);
        }
      }
      if IsSpace(cur) && i != lastSp && i != 0 && !IsSpace(buf) {
        i, cur, summa, flag := EndToken(fd1, fd2, lastSp, len, i, cur, buf, summa, flag);
        buf, lastSp := cur, i;
      }
      if IsSpace(cur) {
        fd2.Write([cur]);
        lastSp := i;
      }
      buf := cur;
      i := i + 1;
      tok := if IsSpace(cur) then [] else tok + [cur];
    }
    assert data[lastSp + 1..len] == data[lastSp + 1..];
    TerminatedIs(data, data[..lastSp + 1]);
  }
}
