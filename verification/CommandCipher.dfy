/**
 The XOR of udp/my_server.h over whole 256-byte buffers, and the way of a typed
 line through it: XORed with its padding, cut at the first NUL and at 246
 characters by the string functions, padded again and XORed back.
 */
module CommandCipher {
  import opened Arithmetic
  import opened Bytes
  import opened IdFraming

  const BROADCAST: seq<Byte> := [98, 114, 111, 97, 100, 99, 97, 115, 116]

  // ------------------------------------------------------------------- xor

  function XorByte(x: Byte, k: Byte): (y: Byte)
    ensures y == Xor(x, k)
  {
    assert Pow2(8) == 256 by {
      assert Pow2(4) == 16;
    }
    XorFits(x, k, 8);
    Xor(x, k)
  }

  /** XOR with k undoes itself, and gives 0 only for k. */
  lemma XorByteInverse(x: Byte, k: Byte)
    ensures XorByte(XorByte(x, k), k) == x
    ensures XorByte(x, k) == 0 <==> x == k
    ensures XorByte(0, k) == k && XorByte(x, 0) == x
  {
    XorTwice(x, k);
    XorCancels(k);
    XorCancels(x);
  }

  function Masked(b: seq<Byte>, k: Byte): (m: seq<Byte>)
    ensures |m| == |b| && forall i | 0 <= i < |b| :: m[i] == XorByte(b[i], k)
  {
    seq(|b|, i requires 0 <= i < |b| => XorByte(b[i], k))
  }

  lemma MaskedTwice(b: seq<Byte>, k: Byte)
    ensures Masked(Masked(b, k), k) == b
  {
    forall i | 0 <= i < |b|
      ensures Masked(Masked(b, k), k)[i] == b[i]
    {
      XorByteInverse(b[i], k);
    }
  }

  /** crypto */
  method Crypto(buffer: array<Byte>, k: Byte)
    requires buffer.Length == BUFSZ
    modifies buffer
    ensures buffer[..] == Masked(old(buffer[..]), k)
  {
    var i := 0;
    while i < BUFSZ
      invariant 0 <= i <= BUFSZ
      invariant buffer[..i] == Masked(old(buffer[..i]), k)
      invariant buffer[i..] == old(buffer[i..])
    {
      buffer[i] := XorByte(buffer[i], k);
      i := i + 1;
    }
    assert buffer[..i] == buffer[..];
    assert old(buffer[..i]) == old(buffer[..]);
  }

  // ------------------------------------------------------- a line's journey

  /**
   A zeroed buffer after bytes were read into it and it was XORed: the client's
   with a typed line, the child's with a payload from the pipe.
   */
  function Ciphered(bytes: seq<Byte>, k: Byte): (b: seq<Byte>)
    ensures |b| == BUFSZ
  {
    Masked(Padded(bytes, BUFSZ), k)
  }

  /** What the server takes from the client's message and writes to the pipe. */
  function Payload(line: seq<Byte>, k: Byte): (p: seq<Byte>)
    ensures |p| <= 246
  {
    Kept(Ciphered(line, k))
  }

  /** The command the child executes; None if its buffer holds no terminated string. */
  function Decoded(payload: seq<Byte>, k: Byte): Option<seq<Byte>> {
    if 0 in Ciphered(payload, k) then Some(UpToNul(Ciphered(payload, k))) else None
  }

  /** Payload, position by position. */
  lemma PayloadShape(line: seq<Byte>, k: Byte)
    requires k != 0
    ensures var p, b := Payload(line, k), Padded(line, BUFSZ);
      && (forall i | 0 <= i < |p| :: p[i] == XorByte(b[i], k) && b[i] != k)
      && (|p| < 246 ==> b[|p|] == k)
  {
    var p, e, b := Payload(line, k), Ciphered(line, k), Padded(line, BUFSZ);
    assert p <= UpToNul(e) <= e;
    forall i | 0 <= i < |p|
      ensures p[i] == XorByte(b[i], k) && b[i] != k
    {
      assert p[i] == e[i] && p[i] in UpToNul(e);
      XorByteInverse(b[i], k);
    }
    if |p| < 246 {
      assert e[|p|] == 0;
      XorByteInverse(b[|p|], k);
    }
  }

  /** The child's buffer shows the line as far as the payload goes, and the key after it. */
  lemma ChildSees(line: seq<Byte>, k: Byte)
    requires k != 0
    ensures var p, b, c := Payload(line, k), Padded(line, BUFSZ), Ciphered(Payload(line, k), k);
      forall i | 0 <= i < BUFSZ :: c[i] == if i < |p| then b[i] else k
  {
    var p, b, c := Payload(line, k), Padded(line, BUFSZ), Ciphered(Payload(line, k), k);
    PayloadShape(line, k);
    forall i | 0 <= i < BUFSZ
      ensures c[i] == if i < |p| then b[i] else k
    {
      XorByteInverse(b[i], k);
    }
  }

  /** A payload that ends early ends at the key; so it passes the end of a short string without the key. */
  lemma PayloadReaches(line: seq<Byte>, k: Byte)
    requires k != 0 && |line| <= BUFSZ
    ensures var t := UpToNul(line);
      if |t| <= 245 && k !in t then |Payload(line, k)| > |t| else |Payload(line, k)| <= |t|
  {
    var t, p, b := UpToNul(line), Payload(line, k), Padded(line, BUFSZ);
    PayloadShape(line, k);
    assert forall i | 0 <= i < |t| :: b[i] == t[i] && t[i] in t;
    if |t| <= 245 && k !in t {
      assert b[|t|] == 0;
    } else if k in t {
      var j :| 0 <= j < |t| && t[j] == k;
      assert |p| <= j;
    }
  }

  /**
   The child decodes exactly the string the client typed if that has at most 245
   characters and not the key among them; otherwise it gets no string at all.
   */
  lemma CommandRoundTrip(line: seq<Byte>, k: Byte)
    requires k != 0 && |line| <= BUFSZ
    ensures Decoded(Payload(line, k), k)
         == if |UpToNul(line)| <= 245 && k !in UpToNul(line) then Some(UpToNul(line)) else None
  {
    hide Payload, Ciphered;
    var t, p := UpToNul(line), Payload(line, k);
    var b, c := Padded(line, BUFSZ), Ciphered(p, k);
    ChildSees(line, k);
    PayloadReaches(line, k);
    assert forall i | 0 <= i < |t| :: b[i] == t[i] && t[i] in t;
    if |t| <= 245 && k !in t {
      assert c[|t|] == 0;
      assert t <= c;
      UpToNulIs(c, t);
    } else {
      forall i | 0 <= i < BUFSZ
        ensures c[i] != 0
      {
        assert i < |p| ==> c[i] == t[i];
      }
    }
  }

  /** A line read by the client broadcasts instead if and only if it begins with the XOR of "broadcast". */
  lemma BroadcastExactly(line: seq<Byte>, k: Byte)
    ensures BROADCAST == [98, 114, 111, 97, 100, 99, 97, 115, 116]
    ensures BROADCAST <= Ciphered(line, k) <==> Masked(BROADCAST, k) <= Padded(line, BUFSZ)
  {
    var b := Padded(line, BUFSZ);
    forall i | 0 <= i < 9
      ensures XorByte(b[i], k) == BROADCAST[i] <==> b[i] == XorByte(BROADCAST[i], k)
    {
      XorByteInverse(b[i], k);
      XorByteInverse(BROADCAST[i], k);
    }
    PrefixByPlace(BROADCAST, Ciphered(line, k));
    PrefixByPlace(Masked(BROADCAST, k), b);
  }

  lemma PrefixByPlace(s: seq<Byte>, t: seq<Byte>)
    requires |s| <= |t|
    ensures s <= t <==> forall i | 0 <= i < |s| :: s[i] == t[i]
  {
  }

  /** With the program's key no line without a NUL ever broadcasts, "broadcast" included. */
  lemma NeverBroadcasts(line: seq<Byte>)
    requires 0 !in line
    ensures !(BROADCAST <= Ciphered(line, 97))
  {
    var b := Padded(line, BUFSZ);
    BroadcastExactly(line, 97);
    XorByteInverse(97, 97);
    XorOfD();
    var m := Masked(BROADCAST, 97);
    PrefixByPlace(m, b);
    assert m[3] == 0 && m[4] == 5;
    assert |line| > 3 ==> b[3] == line[3] && line[3] in line;
    assert b[3] != m[3] || b[4] != m[4];
  }

  lemma XorOfD()
    ensures XorByte(100, 97) == 5
  {
    assert Xor(6, 6) == 0 by { XorCancels(6); }
    assert Xor(12, 12) == 0 by { XorCancels(12); }
    assert Xor(25, 24) == 1;
    assert Xor(50, 48) == 2;
    assert Xor(100, 97) == 5;
  }

  /** The server frees a client's slot exactly for lines that begin with the XOR of "quit\n" and the key itself. */
  lemma FreesExactly(line: seq<Byte>, k: Byte)
    requires k != 0 && k !in QUIT
    ensures Payload(line, k) == QUIT <==> Masked(QUIT, k) + [k] <= Padded(line, BUFSZ)
  {
    var p, b := Payload(line, k), Padded(line, BUFSZ);
    PayloadShape(line, k);
    forall i | 0 <= i < 5
      ensures XorByte(b[i], k) == QUIT[i] <==> b[i] == XorByte(QUIT[i], k)
      ensures XorByte(QUIT[i], k) != 0
      ensures XorByte(QUIT[i], k) != k
    {
      XorByteInverse(b[i], k);
      XorByteInverse(QUIT[i], k);
      XorByteInverse(XorByte(QUIT[i], k), k);
    }
    PrefixByPlace(Masked(QUIT, k) + [k], b);
    if Masked(QUIT, k) + [k] <= b {
      assert forall i | 0 <= i < 6 :: b[i] == (Masked(QUIT, k) + [k])[i];
      assert b[5] == k;
      assert |p| == 5;
    }
  }

  /** So no command that reaches the child frees the slot, in particular not "quit\n". */
  lemma NoCommandFrees(line: seq<Byte>, k: Byte)
    requires k != 0 && k !in QUIT && k !in UpToNul(line)
    ensures Payload(line, k) != QUIT
  {
    FreesExactly(line, k);
    var b, t, freeing := Padded(line, BUFSZ), UpToNul(line), Masked(QUIT, k) + [k];
    PrefixByPlace(freeing, b);
    forall i | 0 <= i < 6
      ensures freeing[i] != 0
    {
      if i < 5 {
        XorByteInverse(QUIT[i], k);
      }
    }
    assert |t| < BUFSZ ==> b[|t|] == 0;
    assert |t| > 5 ==> t[5] == b[5] && t[5] in t;
    assert |t| <= 5 ==> b[|t|] != freeing[|t|];
  }

  /** Nor does an interrupted client's last message, which carries "quit" in the clear and without a line end. */
  lemma InterruptFreesNothing(rid: int)
    ensures Classify(Received(Frame(GenId(rid), [113, 117, 105, 116]))) == Data(IdOf(rid), [113, 117, 105, 116])
    ensures QUIT == [113, 117, 105, 116, 10]
  {
    FramingRoundTrip(rid, [113, 117, 105, 116]);
    UpToNulIs([113, 117, 105, 116], [113, 117, 105, 116]);
  }

  // ------------------------------------------------------------ the client

  datatype Outcome = Broadcasts | Sends(datagram: seq<Byte>)

  /** One line of `sender`: what goes out, and whether the client then exits. */
  method Sender(id: seq<Byte>, k: Byte, line: seq<Byte>) returns (out: Outcome, exits: bool)
    requires |line| <= BUFSZ
    ensures out == if BROADCAST <= Ciphered(line, k) then Broadcasts else Sends(Frame(id, Ciphered(line, k)))
    ensures exits <==> out.Sends? && |line| >= 4 && line[..4] == [113, 117, 105, 116]
  {
    var buffer := new Byte[BUFSZ](i => 0);
    var i := 0;
    while i < |line|
      invariant 0 <= i <= |line| && buffer[..] == Padded(line[..i], BUFSZ)
    {
      buffer[i] := line[i];
      i := i + 1;
    }
    assert line[..i] == line;
    Crypto(buffer, k);
    var sendbuf := Frame(id, buffer[..]);
    if buffer[..9] == BROADCAST {
      assert BROADCAST <= buffer[..];
      return Broadcasts, false;
    }
    out := Sends(sendbuf);
    Crypto(buffer, k);
    MaskedTwice(Padded(line, BUFSZ), k);
    exits := buffer[..4] == QUIT[..4];
    assert |line| >= 4 ==> buffer[..4] == line[..4];
    assert |line| < 4 ==> buffer[..4][|line|] == 0;
    assert QUIT[..4] == [113, 117, 105, 116];
  }

  /** One command of the server's child, from the pipe to what it executes. */
  method ChildReads(payload: seq<Byte>, k: Byte) returns (command: Option<seq<Byte>>)
    ensures command == Decoded(payload, k)
  {
    var chunk := Padded(payload, BUFSZ);
    var childBuf := new Byte[BUFSZ](i requires 0 <= i < BUFSZ => chunk[i]);
    assert childBuf[..] == chunk;
    Crypto(childBuf, k);
    command := if 0 in childBuf[..] then Some(UpToNul(childBuf[..])) else None;
  }
}
