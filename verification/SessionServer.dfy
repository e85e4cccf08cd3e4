/**
 The server of udp/udp.c: the table of client ids with its holes, a pipe for
 each slot, and the routing of messages to them, against sessions kept in a map.
 A pipe is the sequence of the payloads written to it since it was opened; the
 child that reads it is not part of the server's state.
 */
module SessionServer {
  import opened Bytes
  import opened IdFraming

  type Pipe = Option<seq<seq<Byte>>>

  /** `mas` and `data_pipe`: the id of each slot, 0 if it is free, and its pipe, None if it is not open. */
  datatype Table = Table(mas: seq<int>, pipes: seq<Pipe>)

  /** The first slot with this id; |mas| if there is none. */
  function Find(mas: seq<int>, id: int): (i: nat)
    ensures i <= |mas| && (i < |mas| ==> mas[i] == id)
    ensures forall k | 0 <= k < i :: mas[k] != id
  {
    if mas == [] || mas[0] == id then 0 else 1 + Find(mas[1..], id)
  }

  /** The first slot that is free or has this id. */
  function Place(mas: seq<int>, id: int): (i: nat)
    ensures i <= |mas| && (i < |mas| ==> mas[i] == 0 || mas[i] == id)
    ensures forall k | 0 <= k < i :: mas[k] != 0 && mas[k] != id
  {
    if mas == [] || mas[0] == 0 || mas[0] == id then 0 else 1 + Place(mas[1..], id)
  }

  lemma FirstIs(mas: seq<int>, id: int, i: nat)
    requires i < |mas| && forall k | 0 <= k < i :: mas[k] != id
    ensures mas[i] == id ==> Find(mas, id) == i
  {
  }

  /** server_handler after its dispatch; false for the error returns, which change nothing. */
  function Serve(t: Table, m: Message): (Table, bool)
    requires |t.pipes| == |t.mas|
  {
    match m
    case Hello => (t, true)
    case Connect(id) =>
      var i := Place(t.mas, id);
      if i == |t.mas| then (t, false)
      else (Table(t.mas[i := id], t.pipes[i := Some([])]), true)
    case Data(id, payload) =>
      var i := Find(t.mas, id);
      if id == -1 || i == |t.mas| || t.pipes[i].None? then (t, false)
      else if payload == QUIT then (Table(t.mas[i := 0], t.pipes[i := None]), true)
      else (t.(pipes := t.pipes[i := Some(t.pipes[i].value + [payload])]), true)
  }

  /** A connection fails exactly if no slot is free or its own; else the first such slot starts afresh. */
  lemma ConnectLaw(t: Table, id: int)
    requires |t.pipes| == |t.mas|
    ensures var (t', ok) := Serve(t, Connect(id));
      && (ok <==> 0 in t.mas || id in t.mas)
      && (!ok ==> t' == t)
      && forall i | 0 <= i < |t.mas| && (t.mas[i] == 0 || t.mas[i] == id)
                    && (forall k | 0 <= k < i :: t.mas[k] != 0 && t.mas[k] != id) ::
           t' == Table(t.mas[i := id], t.pipes[i := Some([])])
  {
    var p := Place(t.mas, id);
    if 0 in t.mas || id in t.mas {
      var i :| 0 <= i < |t.mas| && (t.mas[i] == 0 || t.mas[i] == id);
      assert p <= i;
    }
  }

  /**
   A message fails exactly if its id is -1, or is in no slot, or its first slot
   has no open pipe. Else that pipe gets the payload, and "quit\n" closes it and
   frees the slot. A greeting changes nothing.
   */
  lemma DataLaw(t: Table, id: int, payload: seq<Byte>)
    requires |t.pipes| == |t.mas|
    ensures Serve(t, Hello) == (t, true)
    ensures id == -1 || id !in t.mas ==> Serve(t, Data(id, payload)) == (t, false)
    ensures forall i | 0 <= i < |t.mas| && t.mas[i] == id && id != -1
                       && (forall k | 0 <= k < i :: t.mas[k] != id) ::
      Serve(t, Data(id, payload))
        == match t.pipes[i] {
             case None => (t, false)
             case Some(written) =>
               if payload == [113, 117, 105, 116, 10] then (Table(t.mas[i := 0], t.pipes[i := None]), true)
               else (Table(t.mas, t.pipes[i := Some(written + [payload])]), true)
           }
  {
    var f := Find(t.mas, id);
    forall i | 0 <= i < |t.mas| && t.mas[i] == id && (forall k | 0 <= k < i :: t.mas[k] != id)
      ensures f == i
    {
      FirstIs(t.mas, id, i);
    }
    assert id !in t.mas ==> f == |t.mas|;
  }

  // --------------------------------------------------------------- sessions

  /** The live sessions and what each has received. */
  type Sessions = map<int, seq<seq<Byte>>>

  function SessionServe(room: nat, s: Sessions, m: Message): (Sessions, bool) {
    match m
    case Hello => (s, true)
    case Connect(id) => if |s| < room then (s[id := []], true) else (s, false)
    case Data(id, payload) =>
      if id == -1 || id !in s then (s, false)
      else if payload == QUIT then (s - {id}, true)
      else (s[id := s[id] + [payload]], true)
  }

  /** Live ids lie in distinct slots, and these are the slots with open pipes. */
  ghost predicate Valid(t: Table) {
    && |t.pipes| == |t.mas|
    && (forall i, j | 0 <= i < j < |t.mas| :: t.mas[i] == t.mas[j] ==> t.mas[i] == 0)
    && (forall i | 0 <= i < |t.mas| :: t.mas[i] != 0 <==> t.pipes[i].Some?)
  }

  function Live(mas: seq<int>): set<int> {
    set id <- mas | id != 0
  }

  ghost function SessionsOf(t: Table): (s: Sessions)
    requires Valid(t)
    ensures s.Keys == Live(t.mas)
    ensures forall i | 0 <= i < |t.mas| && t.mas[i] != 0 :: s[t.mas[i]] == t.pipes[i].value
  {
    forall i | 0 <= i < |t.mas| && t.mas[i] != 0
      ensures Find(t.mas, t.mas[i]) == i
    {
      UniqueSlot(t, i);
    }
    map id <- Live(t.mas) :: t.pipes[Find(t.mas, id)].value
  }

  lemma UniqueSlot(t: Table, i: nat)
    requires Valid(t) && i < |t.mas| && t.mas[i] != 0
    ensures Find(t.mas, t.mas[i]) == i
  {
    FirstIs(t.mas, t.mas[i], i);
  }

  /** A session map is known from the slots. */
  lemma SessionsAre(t: Table, s: Sessions)
    requires Valid(t) && s.Keys == Live(t.mas)
    requires forall i | 0 <= i < |t.mas| && t.mas[i] != 0 :: s[t.mas[i]] == t.pipes[i].value
    ensures SessionsOf(t) == s
  {
    var u := SessionsOf(t);
    forall id <- u.Keys
      ensures u[id] == s[id]
    {
      var i :| 0 <= i < |t.mas| && t.mas[i] == id;
    }
  }

  function Holes(mas: seq<int>): nat {
    if mas == [] then 0 else (if mas[|mas| - 1] == 0 then 1 else 0) + Holes(mas[..|mas| - 1])
  }

  lemma {:induction false} LiveAndHoles(mas: seq<int>)
    requires forall i, j | 0 <= i < j < |mas| :: mas[i] == mas[j] ==> mas[i] == 0
    ensures |Live(mas)| + Holes(mas) == |mas|
    ensures Holes(mas) == 0 <==> 0 !in mas
  {
    if mas != [] {
      var less, last := mas[..|mas| - 1], mas[|mas| - 1];
      LiveAndHoles(less);
      assert mas == less + [last];
      if last == 0 {
        assert Live(mas) == Live(less);
      } else {
        assert Live(mas) == Live(less) + {last};
        assert last !in less;
      }
    }
  }

  /** There is a slot for one more session exactly if the table has a hole. */
  lemma RoomIsHole(t: Table, id: int)
    requires Valid(t) && id !in t.mas
    ensures |SessionsOf(t)| < |t.mas| <==> Place(t.mas, id) < |t.mas|
    ensures Place(t.mas, id) < |t.mas| ==> t.mas[Place(t.mas, id)] == 0
  {
    LiveAndHoles(t.mas);
    assert |SessionsOf(t)| == |SessionsOf(t).Keys|;
    var i := Place(t.mas, id);
    if 0 in t.mas {
      var k :| 0 <= k < |t.mas| && t.mas[k] == 0;
      assert i <= k;
    }
  }

  /** A client connects only with an id that is not 0 and not registered. */
  ghost predicate Proper(s: Sessions, m: Message) {
    m.Connect? ==> m.id != 0 && m.id !in s
  }

  lemma LiveUpdate(mas: seq<int>, i: nat, id: int)
    requires i < |mas| && forall j | 0 <= j < |mas| && j != i :: mas[j] == mas[i] ==> mas[i] == 0
    ensures Live(mas[i := id]) == Live(mas) - {mas[i]} + (if id == 0 then {} else {id})
  {
    var now := mas[i := id];
    forall x
      ensures x in Live(now) <==> x in Live(mas) - {mas[i]} + (if id == 0 then {} else {id})
    {
      if x in Live(now) {
        var k :| 0 <= k < |now| && now[k] == x;
        assert k != i ==> mas[k] == x;
      }
      if x in Live(mas) - {mas[i]} {
        var k :| 0 <= k < |mas| && mas[k] == x;
        assert now[k] == x;
      }
      assert now[i] == id;
    }
  }

  lemma ConnectRefines(t: Table, id: int)
    requires Valid(t) && id != 0 && id !in t.mas
    ensures var (t', ok) := Serve(t, Connect(id));
      Valid(t') && (SessionsOf(t'), ok) == SessionServe(|t.mas|, SessionsOf(t), Connect(id))
  {
    hide Live, SessionsOf;
    RoomIsHole(t, id);
    var t', i := Serve(t, Connect(id)).0, Place(t.mas, id);
    if i < |t.mas| {
      LiveUpdate(t.mas, i, id);
      NoZero(t.mas);
      SessionsAre(t', SessionsOf(t)[id := []]);
    }
  }

  lemma NoZero(mas: seq<int>)
    ensures 0 !in Live(mas)
  {
  }

  lemma FreeRefines(t: Table, i: nat)
    requires Valid(t) && i < |t.mas| && t.mas[i] != 0
    ensures var t' := Table(t.mas[i := 0], t.pipes[i := None]);
      Valid(t') && SessionsOf(t') == SessionsOf(t) - {t.mas[i]}
  {
    hide Live, SessionsOf;
    var t' := Table(t.mas[i := 0], t.pipes[i := None]);
    LiveUpdate(t.mas, i, 0);
    var s := SessionsOf(t) - {t.mas[i]};
    assert s.Keys == Live(t'.mas);
    forall j | 0 <= j < |t.mas| && t'.mas[j] != 0
      ensures t'.mas[j] in s && s[t'.mas[j]] == t'.pipes[j].value
    {
      InLive(t.mas, j);
      assert t.mas[j] != t.mas[i];
    }
    SessionsAre(t', s);
  }

  lemma AppendRefines(t: Table, i: nat, payload: seq<Byte>)
    requires Valid(t) && i < |t.mas| && t.mas[i] != 0
    ensures var t', id := t.(pipes := t.pipes[i := Some(t.pipes[i].value + [payload])]), t.mas[i];
      && id in SessionsOf(t)
      && Valid(t') && SessionsOf(t') == SessionsOf(t)[id := SessionsOf(t)[id] + [payload]]
  {
    hide Live, SessionsOf;
    var t', id := t.(pipes := t.pipes[i := Some(t.pipes[i].value + [payload])]), t.mas[i];
    InLive(t.mas, i);
    var s := SessionsOf(t)[id := SessionsOf(t)[id] + [payload]];
    assert s.Keys == SessionsOf(t).Keys + {id} == SessionsOf(t).Keys;
    SessionsAre(t', s);
  }

  lemma InLive(mas: seq<int>, i: nat)
    requires i < |mas| && mas[i] != 0
    ensures mas[i] in Live(mas)
  {
  }

  lemma DataRefines(t: Table, id: int, payload: seq<Byte>)
    requires Valid(t)
    ensures var (t', ok) := Serve(t, Data(id, payload));
      Valid(t') && (SessionsOf(t'), ok) == SessionServe(|t.mas|, SessionsOf(t), Data(id, payload))
  {
    var i := Find(t.mas, id);
    IsLive(t.mas, id);
    hide Live, SessionsOf;
    if id != 0 && i < |t.mas| {
      FreeRefines(t, i);
      AppendRefines(t, i, payload);
    }
  }

  lemma IsLive(mas: seq<int>, id: int)
    ensures id in Live(mas) <==> id != 0 && Find(mas, id) < |mas|
  {
  }

  /** The table does to its sessions what the map does, with the same result, and stays valid. */
  lemma StepRefines(t: Table, m: Message)
    requires Valid(t) && Proper(SessionsOf(t), m)
    ensures var (t', ok) := Serve(t, m);
      && Valid(t') && |t'.mas| == |t.mas|
      && (SessionsOf(t'), ok) == SessionServe(|t.mas|, SessionsOf(t), m)
  {
    match m {
      case Hello =>
      case Connect(id) =>
        IsLive(t.mas, id);
        assert id !in t.mas;
        ConnectRefines(t, id);
      case Data(id, payload) =>
        DataRefines(t, id, payload);
    }
  }

  /**
   Connecting again is safe exactly when the client's own slot comes before the
   first hole; otherwise one id holds two slots. It starts the session afresh.
   */
  lemma ReconnectExactly(t: Table, id: int)
    requires Valid(t) && id in t.mas && id != 0
    ensures var t' := Serve(t, Connect(id)).0;
      && (Valid(t') <==> Find(t.mas, id) < Find(t.mas, 0))
      && (Valid(t') ==> SessionsOf(t') == SessionsOf(t)[id := []])
  {
    hide SessionsOf, Live;
    var t', i, f := Serve(t, Connect(id)).0, Place(t.mas, id), Find(t.mas, id);
    assert t'.mas[i] == id;
    if f < Find(t.mas, 0) {
      assert i == f && t'.mas == t.mas;
      IsLive(t.mas, id);
      UniqueSlot(t, f);
      SessionsAre(t', SessionsOf(t)[id := []]);
    } else {
      assert i < f && t'.mas[f] == id;
    }
  }

  // ------------------------------------------------------------- whole runs

  function Empty(room: nat): Table {
    Table(seq(room, i => 0), seq(room, i => None))
  }

  lemma EmptyIsValid(room: nat)
    ensures Valid(Empty(room)) && SessionsOf(Empty(room)) == map[]
  {
    SessionsAre(Empty(room), map[]);
  }

  /** The table after a log of messages. */
  function ServeAll(room: nat, log: seq<Message>): (t: Table)
    ensures |t.mas| == |t.pipes| == room
    decreases |log|
  {
    if log == [] then Empty(room) else Serve(ServeAll(room, log[..|log| - 1]), log[|log| - 1]).0
  }

  function AllSessions(room: nat, log: seq<Message>): Sessions
    decreases |log|
  {
    if log == [] then map[] else SessionServe(room, AllSessions(room, log[..|log| - 1]), log[|log| - 1]).0
  }

  ghost predicate ProperRun(room: nat, log: seq<Message>) {
    forall k | 0 <= k < |log| :: Proper(AllSessions(room, log[..k]), log[k])
  }

  /** After every proper run the table is valid and holds the sessions of the map. */
  lemma {:induction false} RunRefines(room: nat, log: seq<Message>)
    requires ProperRun(room, log)
    ensures Valid(ServeAll(room, log)) && SessionsOf(ServeAll(room, log)) == AllSessions(room, log)
    decreases |log|
  {
    if log == [] {
      EmptyIsValid(room);
    } else {
      var before, m := log[..|log| - 1], log[|log| - 1];
      ProperPrefix(room, log);
      RunRefines(room, before);
      StepRefines(ServeAll(room, before), m);
    }
  }

  lemma ProperPrefix(room: nat, log: seq<Message>)
    requires ProperRun(room, log) && log != []
    ensures ProperRun(room, log[..|log| - 1])
    ensures Proper(AllSessions(room, log[..|log| - 1]), log[|log| - 1])
  {
    var before := log[..|log| - 1];
    forall k | 0 <= k < |before|
      ensures Proper(AllSessions(room, before[..k]), before[k])
    {
      assert before[..k] == log[..k];
    }
  }

  /** The payloads sent under an id, in order. */
  function PayloadsOf(log: seq<Message>, id: int): seq<seq<Byte>>
    decreases |log|
  {
    if log == [] then [] else
    var m := log[|log| - 1];
    PayloadsOf(log[..|log| - 1], id) + if m.Data? && m.id == id then [m.payload] else []
  }

  /** A client whose connection was accepted and who has not been freed since. */
  ghost predicate Stays(room: nat, log: seq<Message>, k: nat, id: int) {
    && k < |log| && log[k] == Connect(id) && id != 0 && id != -1
    && |AllSessions(room, log[..k])| < room
    && Data(id, QUIT) !in log[k + 1..]
  }

  lemma StaysPrefix(room: nat, log: seq<Message>, k: nat, id: int)
    requires Stays(room, log, k, id) && k + 1 < |log|
    ensures var before, m := log[..|log| - 1], log[|log| - 1];
      && Stays(room, before, k, id) && m != Data(id, QUIT)
      && PayloadsOf(log[k + 1..], id)
         == PayloadsOf(before[k + 1..], id) + if m.Data? && m.id == id then [m.payload] else []
  {
    hide AllSessions;
    var before, m, since := log[..|log| - 1], log[|log| - 1], log[k + 1..];
    assert before[..k] == log[..k];
    assert before[k + 1..] == since[..|since| - 1];
    assert since[|since| - 1] == m && m in since;
    assert forall x <- before[k + 1..] :: x in since;
  }

  lemma SessionStep(room: nat, s: Sessions, m: Message, id: int)
    requires id in s && id != -1 && m != Data(id, QUIT) && Proper(s, m)
    ensures var s' := SessionServe(room, s, m).0;
      id in s' && s'[id] == s[id] + if m.Data? && m.id == id then [m.payload] else []
  {
  }

  lemma {:induction false} SessionIsHistory(room: nat, log: seq<Message>, k: nat, id: int)
    requires ProperRun(room, log) && Stays(room, log, k, id)
    ensures id in AllSessions(room, log)
    ensures AllSessions(room, log)[id] == PayloadsOf(log[k + 1..], id)
    decreases |log|
  {
    if k == |log| - 1 {
      assert log[k + 1..] == [];
    } else {
      hide PayloadsOf, Stays, ProperRun, Proper, SessionServe;
      StaysPrefix(room, log, k, id);
      ProperPrefix(room, log);
      SessionIsHistory(room, log[..|log| - 1], k, id);
      NotAFreeId(room, log, k, id);
      SessionStep(room, AllSessions(room, log[..|log| - 1]), log[|log| - 1], id);
    }
  }

  lemma NotAFreeId(room: nat, log: seq<Message>, k: nat, id: int)
    requires Stays(room, log, k, id)
    ensures id != -1
  {
  }

  /** A session that was freed is gone until its id connects again. */
  lemma {:induction false} SessionIsGone(room: nat, log: seq<Message>, k: nat, id: int)
    requires k <= |log| && id != -1 && Data(id, QUIT) in log[k..] && Connect(id) !in log[k..]
    ensures id !in AllSessions(room, log)
    decreases |log|
  {
    var before, m := log[..|log| - 1], log[|log| - 1];
    assert log[k..] == before[k..] + [m];
    if m != Data(id, QUIT) {
      SessionIsGone(room, before, k, id);
    }
  }

  /** Each live client's pipe holds, since its connection, exactly what was sent under its id, in order. */
  lemma Routing(room: nat, log: seq<Message>, k: nat, id: int)
    requires ProperRun(room, log) && Stays(room, log, k, id)
    ensures var t := ServeAll(room, log);
      && Valid(t) && Find(t.mas, id) < room
      && t.pipes[Find(t.mas, id)] == Some(PayloadsOf(log[k + 1..], id))
  {
    RunRefines(room, log);
    SessionIsHistory(room, log, k, id);
    var t := ServeAll(room, log);
    IsLive(t.mas, id);
    assert t.mas[Find(t.mas, id)] == id;
  }

  // --------------------------------------------------------------- the server

  class Server {
    const mas: array<int>
    const dataPipe: array<Pipe>

    ghost function View(): (t: Table)
      reads mas, dataPipe
    {
      Table(mas[..], dataPipe[..])
    }

    ghost predicate Allocated()
    {
      dataPipe.Length == mas.Length
    }

    constructor (maxClients: nat)
      ensures Allocated() && View() == Empty(maxClients) && fresh(mas) && fresh(dataPipe)
    {
      mas := new int[maxClients](i => 0);
      dataPipe := new Pipe[maxClients](i => None);
    }

    method ConnectId(id: int) returns (num: int)
      modifies mas
      ensures var i := Place(old(mas[..]), id);
        if i < mas.Length then num == i && mas[..] == old(mas[..])[i := id]
        else num == -1 && mas[..] == old(mas[..])
    {
      var i := 0;
      while i < mas.Length
        invariant 0 <= i <= Place(old(mas[..]), id) && mas[..] == old(mas[..])
      {
        if mas[i] == 0 || mas[i] == id {
          mas[i] := id;
          return i;
        }
        i := i + 1;
      }
      return -1;
    }

    method FindId(id: int) returns (num: int)
      ensures var i := Find(mas[..], id); num == if i < mas.Length then i else -1
    {
      var i := 0;
      while i < mas.Length
        invariant 0 <= i <= Find(mas[..], id)
      {
        if mas[i] == id {
          return i;
        }
        i := i + 1;
      }
      return -1;
    }

    method ComConnect(id: int) returns (ok: bool)
      requires Allocated()
      modifies mas, dataPipe
      ensures (View(), ok) == Serve(old(View()), Connect(id))
    {
      var num := ConnectId(id);
      if num < 0 {
        return false;
      }
      dataPipe[num] := Some([]);
      return true;
    }

    method MasterHandler(id: int, payload: seq<Byte>) returns (ok: bool)
      requires Allocated()
      modifies mas, dataPipe
      ensures (View(), ok) == Serve(old(View()), Data(id, payload))
    {
      if id == -1 {
        return false;
      }
      var num := FindId(id);
      if num < 0 {
        return false;
      }
      match dataPipe[num] {
        case None =>
          return false;
        case Some(written) =>
          dataPipe[num] := Some(written + [payload]);
      }
      if payload == QUIT {
        dataPipe[num] := None;
        mas[num] := 0;
        assert dataPipe[..] == old(dataPipe[..])[num := None];
      }
      return true;
    }

    method ServerHandler(buffer: seq<Byte>) returns (ok: bool)
      requires Allocated() && |buffer| == BUFSZ + IDSZ
      modifies mas, dataPipe
      ensures (View(), ok) == Serve(old(View()), Classify(buffer))
    {
      match Classify(buffer) {
        case Hello => ok := true;
        case Connect(id) => ok := ComConnect(id);
        case Data(id, payload) => ok := MasterHandler(id, payload);
      }
    }
  }
}
