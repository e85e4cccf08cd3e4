/**
 A whole client session of udp/client.c against the server of udp/udp.c: from
 the random number behind the id to the commands the server's child decodes.
 */
module ClientSession {
  import opened Bytes
  import opened IdFraming
  import opened CommandCipher
  import KeyAgreement
  import opened SessionServer

  const KEY: Byte := 97

  /** The key message: one character behind the id. */
  function KeyFrame(rid: int): seq<Byte> {
    Frame(GenId(rid), [KeyAgreement.Key(KeyAgreement.G, KeyAgreement.B_SECRET, KeyAgreement.P)])
  }

  /** The message of a typed line, as the server sees it. */
  function LineMessage(rid: int, line: seq<Byte>): Message {
    Classify(Received(Frame(GenId(rid), Ciphered(line, KEY))))
  }

  /** The messages a client sends after connecting: its key, and the lines that do not make it broadcast. */
  function Sent(rid: int, lines: seq<seq<Byte>>): seq<Message>
    decreases |lines|
  {
    if lines == [] then [Classify(Received(KeyFrame(rid)))]
    else Sent(rid, lines[..|lines| - 1]) + [LineMessage(rid, lines[|lines| - 1])]
  }

  /** The messages of one client among those of all. */
  function Own(log: seq<Message>, id: int): seq<Message>
    decreases |log|
  {
    if log == [] then [] else
    var m := log[|log| - 1];
    Own(log[..|log| - 1], id) + if m.Data? && m.id == id then [m] else []
  }

  /** What one read of the terminal returns, unless it makes the server free the slot. */
  predicate Carried(line: seq<Byte>) {
    |line| <= BUFSZ && Payload(line, KEY) != QUIT
  }

  /** What the child gets to execute of a line: its string, if that is short enough and has no 'a', the key. */
  function Heard(line: seq<Byte>): Option<seq<Byte>> {
    if |UpToNul(line)| <= 245 && KEY !in UpToNul(line) then Some(UpToNul(line)) else None
  }

  /** A line that gets through unchanged. */
  predicate Sendable(line: seq<Byte>) {
    |line| <= 245 && 0 !in line && KEY !in line
  }

  /** The pipe of a session that has sent these lines. */
  function Written(lines: seq<seq<Byte>>): (w: seq<seq<Byte>>)
    ensures |w| == |lines| + 1 && |w[0]| == 1
  {
    [[71]] + seq(|lines|, j requires 0 <= j < |lines| => Payload(lines[j], KEY))
  }

  lemma KeyMessage(rid: int)
    ensures Classify(Received(KeyFrame(rid))) == Data(IdOf(rid), [71])
  {
    KeyAgreement.ProgramKeys();
    FramingRoundTrip(rid, [71]);
    UpToNulIs([71], [71]);
  }

  lemma WholeText(line: seq<Byte>)
    requires 0 !in line
    ensures UpToNul(line) == line
  {
    UpToNulIs(line, line);
  }

  lemma LineIsPayload(rid: int, line: seq<Byte>)
    ensures LineMessage(rid, line) == Data(IdOf(rid), Payload(line, KEY))
  {
    hide Classify, Received, Frame, GenId, Ciphered, Kept;
    FramingRoundTrip(rid, Ciphered(line, KEY));
  }

  lemma LineDecodes(line: seq<Byte>)
    requires Sendable(line)
    ensures Carried(line) && Heard(line) == Some(line)
  {
    hide Payload, UpToNul;
    WholeText(line);
    NoCommandFrees(line, KEY);
  }

  lemma LineIsHeard(line: seq<Byte>)
    requires Carried(line)
    ensures Decoded(Payload(line, KEY), KEY) == Heard(line)
  {
    hide Payload, Decoded, UpToNul;
    CommandRoundTrip(line, KEY);
  }

  lemma PayloadsSnoc(log: seq<Message>, m: Message, id: int)
    ensures PayloadsOf(log + [m], id) == PayloadsOf(log, id) + if m.Data? && m.id == id then [m.payload] else []
  {
    assert (log + [m])[..|log|] == log;
  }

  lemma {:induction false} SentIsWritten(rid: int, lines: seq<seq<Byte>>)
    ensures PayloadsOf(Sent(rid, lines), IdOf(rid)) == Written(lines)
    ensures Data(IdOf(rid), QUIT) in Sent(rid, lines) <==> exists line <- lines :: Payload(line, KEY) == QUIT
    decreases |lines|
  {
    hide Payload, LineMessage, PayloadsOf, KeyFrame, Classify, Received, IdOf;
    var id := IdOf(rid);
    if lines == [] {
      KeyMessage(rid);
      PayloadsSnoc([], Data(id, [71]), id);
      PayloadsOfNone(id);
      assert [] + [Data(id, [71])] == Sent(rid, lines);
    } else {
      var less, line := lines[..|lines| - 1], lines[|lines| - 1];
      SentIsWritten(rid, less);
      LineIsPayload(rid, line);
      assert lines == less + [line];
      PayloadsSnoc(Sent(rid, less), LineMessage(rid, line), id);
      assert Written(lines) == Written(less) + [Payload(line, KEY)];
    }
  }

  lemma PayloadsOfNone(id: int)
    ensures PayloadsOf([], id) == []
  {
  }

  lemma {:induction false} OwnPayloads(log: seq<Message>, id: int)
    ensures PayloadsOf(Own(log, id), id) == PayloadsOf(log, id)
    decreases |log|
  {
    if log != [] {
      var less, m := log[..|log| - 1], log[|log| - 1];
      OwnPayloads(less, id);
      assert PayloadsOf(log, id) == PayloadsOf(less, id) + if m.Data? && m.id == id then [m.payload] else [];
      hide PayloadsOf;
      PayloadsSnoc(Own(less, id), m, id);
      assert Own(less, id) + [] == Own(less, id) && PayloadsOf(less, id) + [] == PayloadsOf(less, id);
    }
  }

  lemma {:induction false} OwnKeeps(log: seq<Message>, m: Message, id: int)
    requires m in log && m.Data? && m.id == id
    ensures m in Own(log, id)
    decreases |log|
  {
    var less, last := log[..|log| - 1], log[|log| - 1];
    assert log == less + [last];
    if m != last {
      OwnKeeps(less, m, id);
    }
  }

  /**
   Whatever the other clients do meanwhile: once a client's connection has been
   accepted, both sides have the same key, the client's slot is its own, and its
   pipe holds the key message and the lines it sent, in order. Of each line the
   child decodes the string that was typed if and only if that has at most 245
   characters and not the key among them.
   */
  lemma EndToEnd(room: nat, log: seq<Message>, k: nat, rid: int, lines: seq<seq<Byte>>)
    requires rid != 0 && forall line <- lines :: Carried(line)
    requires ProperRun(room, log) && k < |log|
    requires log[k] == Classify(Received(CONNECT + GenId(rid)))
    requires |AllSessions(room, log[..k])| < room
    requires Own(log[k + 1..], IdOf(rid)) == Sent(rid, lines)
    ensures var t := ServeAll(room, log);
      && Valid(t) && Find(t.mas, IdOf(rid)) < room
      && t.pipes[Find(t.mas, IdOf(rid))] == Some(Written(lines))
    ensures KeyAgreement.Key(Written(lines)[0][0], KeyAgreement.A_SECRET, KeyAgreement.P) == KEY
    ensures forall j | 0 <= j < |lines| :: Decoded(Written(lines)[j + 1], KEY) == Heard(lines[j])
  {
    hide *;
    Accepted(room, log, k, rid, lines);
    Routing(room, log, k, IdOf(rid));
    SentIsWritten(rid, lines);
    OwnPayloads(log[k + 1..], IdOf(rid));
    KeyIsShared(lines);
    forall j | 0 <= j < |lines|
      ensures Decoded(Written(lines)[j + 1], KEY) == Heard(lines[j])
    {
      LineIsHeard(lines[j]);
      WrittenAt(lines, j);
    }
  }

  /** So lines of at most 245 characters without a NUL and without the key all arrive as typed. */
  lemma CommandsArrive(room: nat, log: seq<Message>, k: nat, rid: int, lines: seq<seq<Byte>>)
    requires rid != 0 && forall line <- lines :: Sendable(line)
    requires ProperRun(room, log) && k < |log|
    requires log[k] == Classify(Received(CONNECT + GenId(rid)))
    requires |AllSessions(room, log[..k])| < room
    requires Own(log[k + 1..], IdOf(rid)) == Sent(rid, lines)
    ensures var t := ServeAll(room, log);
      && Valid(t) && Find(t.mas, IdOf(rid)) < room
      && t.pipes[Find(t.mas, IdOf(rid))] == Some(Written(lines))
    ensures forall j | 0 <= j < |lines| :: Decoded(Written(lines)[j + 1], KEY) == Some(lines[j])
  {
    hide *;
    forall line <- lines
      ensures Carried(line) && Heard(line) == Some(line)
    {
      LineDecodes(line);
    }
    EndToEnd(room, log, k, rid, lines);
  }

  /** A line that does make the server free the slot ends the session, unless the id connects again. */
  lemma FreeingLine(room: nat, log: seq<Message>, k: nat, rid: int, lines: seq<seq<Byte>>)
    requires exists line <- lines :: Payload(line, KEY) == QUIT
    requires ProperRun(room, log) && k <= |log| && rid != 0
    requires Own(log[k..], IdOf(rid)) == Sent(rid, lines) && Connect(IdOf(rid)) !in log[k..]
    ensures var t := ServeAll(room, log); Valid(t) && IdOf(rid) !in t.mas
  {
    hide AllSessions, Classify, Received, GenId, Sent, Own, IdOf, Payload, SessionsOf, Live, ServeAll;
    var id := IdOf(rid);
    SentIsWritten(rid, lines);
    OwnIsAmong(log[k..], Data(id, QUIT), id);
    IdIsUsable(rid);
    SessionIsGone(room, log, k, id);
    RunRefines(room, log);
    IsLive(ServeAll(room, log).mas, id);
    NotFound(ServeAll(room, log).mas, id);
  }

  lemma NotFound(mas: seq<int>, id: int)
    requires Find(mas, id) == |mas|
    ensures id !in mas
  {
  }

  lemma {:induction false} OwnIsAmong(log: seq<Message>, m: Message, id: int)
    requires m in Own(log, id)
    ensures m in log
    decreases |log|
  {
    if m != log[|log| - 1] {
      OwnIsAmong(log[..|log| - 1], m, id);
    }
  }

  lemma {:induction false} SentIsOwn(rid: int, lines: seq<seq<Byte>>)
    ensures forall m <- Sent(rid, lines) :: m.Data?
    ensures Own(Sent(rid, lines), IdOf(rid)) == Sent(rid, lines)
    decreases |lines|
  {
    hide Classify, Received, Frame, GenId, IdOf, Payload, LineMessage, KeyFrame;
    var id := IdOf(rid);
    if lines == [] {
      KeyMessage(rid);
      assert Sent(rid, lines)[..0] == [];
    } else {
      var less, line := lines[..|lines| - 1], lines[|lines| - 1];
      SentIsOwn(rid, less);
      LineIsPayload(rid, line);
      assert Sent(rid, lines)[..|Sent(rid, less)|] == Sent(rid, less);
    }
  }

  lemma ConnectsFirst(room: nat, id: int, rest: seq<Message>)
    requires id != 0 && forall m <- rest :: m.Data?
    ensures ProperRun(room, [Connect(id)] + rest)
  {
    var log := [Connect(id)] + rest;
    forall k | 0 <= k < |log|
      ensures Proper(AllSessions(room, log[..k]), log[k])
    {
      if k == 0 {
        assert AllSessions(room, log[..0]) == map[];
      } else {
        assert log[k] == rest[k - 1] && rest[k - 1] in rest;
      }
    }
  }

  /** In particular a client that is alone with the server gets through. */
  lemma LoneClient(room: nat, rid: int, lines: seq<seq<Byte>>)
    requires rid != 0 && room > 0 && forall line <- lines :: Carried(line)
    ensures var t := ServeAll(room, [Classify(Received(CONNECT + GenId(rid)))] + Sent(rid, lines));
      Find(t.mas, IdOf(rid)) < room && t.pipes[Find(t.mas, IdOf(rid))] == Some(Written(lines))
  {
    hide *;
    var log := [Classify(Received(CONNECT + GenId(rid)))] + Sent(rid, lines);
    FramingRoundTrip(rid, []);
    IdIsUsable(rid);
    SentIsOwn(rid, lines);
    ConnectsFirst(room, IdOf(rid), Sent(rid, lines));
    assert log[1..] == Sent(rid, lines) && log[..0] == [];
    NoSessions(room);
    EndToEnd(room, log, 0, rid, lines);
  }

  lemma NoSessions(room: nat)
    ensures |AllSessions(room, [])| == 0
  {
  }

  lemma Accepted(room: nat, log: seq<Message>, k: nat, rid: int, lines: seq<seq<Byte>>)
    requires rid != 0 && forall line <- lines :: Carried(line)
    requires k < |log| && log[k] == Classify(Received(CONNECT + GenId(rid)))
    requires |AllSessions(room, log[..k])| < room
    requires Own(log[k + 1..], IdOf(rid)) == Sent(rid, lines)
    ensures Stays(room, log, k, IdOf(rid))
  {
    hide AllSessions, Classify, Received, GenId, Sent, Own, IdOf;
    var id := IdOf(rid);
    FramingRoundTrip(rid, []);
    IdIsUsable(rid);
    SentIsWritten(rid, lines);
    if Data(id, QUIT) in log[k + 1..] {
      OwnKeeps(log[k + 1..], Data(id, QUIT), id);
    }
  }

  lemma WrittenAt(lines: seq<seq<Byte>>, j: nat)
    requires j < |lines|
    ensures |Written(lines)| == |lines| + 1
    ensures Written(lines)[j + 1] == Payload(lines[j], KEY)
  {
  }

  lemma KeyIsShared(lines: seq<seq<Byte>>)
    ensures |Written(lines)| == |lines| + 1 && Written(lines)[0] == [71]
    ensures KeyAgreement.Key(71, KeyAgreement.A_SECRET, KeyAgreement.P) == KEY
  {
    KeyAgreement.ProgramKeys();
  }

  /** The server sends its open key before its child has a key: XOR with 0 leaves it readable. */
  lemma KeysMeet()
    ensures Masked([33], 0) == [33]
    ensures var sent := Masked([33], 0)[0];
      KeyAgreement.Key(sent, KeyAgreement.B_SECRET, KeyAgreement.P) == KEY
    ensures KeyAgreement.Key(KeyAgreement.G, KeyAgreement.A_SECRET, KeyAgreement.P) == 33
  {
    KeyAgreement.ProgramKeys();
    XorByteInverse(33, 0);
  }
}
