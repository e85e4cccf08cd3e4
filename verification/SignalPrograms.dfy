/**
 The two programs of trans and their signal handlers, changing their variables
 and the pending signals in place, with statements and deliveries interleaved
 in any order; every execution is a run of the machine in SignalTransfer.
 */
module SignalPrograms {
  import opened Bytes
  import opened SignalTransfer

  class Processes {
    const input: seq<Byte>
    // main.c: the statement it is at, the file position and its variables
    var sc: SenderAt
    var sflag: bool
    var off: nat
    var ret: nat
    var buf: Chunk
    // handler.c
    var rc: ReceiverAt
    var rflag: bool
    var more: bool
    var ignition: bool
    var mem: Chunk
    var out: seq<Byte>
    // pending signals
    var ack: bool
    var hello: bool
    var last: bool
    var chunk: Option<Chunk>
    var acks: nat

    ghost var run: seq<State>
    ghost var acts: seq<Action>

    function View(): State
      reads this
    {
      State(Sender(sc, sflag, off, ret, buf), Receiver(rc, rflag, more, ignition, mem, out),
            Signals(ack, hello, last, chunk, acks))
    }

    /** What happened so far is a run of the machine. */
    ghost predicate Valid()
      reads this
    {
      IsRun(input, run, acts) && View() == run[|acts|] && Inv(input, View())
    }

    constructor (input: seq<Byte>, buf: Chunk, mem: Chunk)
      ensures Valid() && this.input == input && Init(View())
    {
      this.input := input;
      sc, sflag, off, ret := ClearFlag, true, 0, CHUNK;
      this.buf, this.mem := buf, mem;
      rc, rflag, more, ignition, out := AwaitSender, true, true, false, [];
      ack, hello, last, chunk, acks := false, false, false, None, 0;
      acts := [];
      new;
      run := [View()];
      InitInv(input, View());
    }

    ghost method Record(s: State, a: Action)
      requires IsRun(input, run, acts) && s == run[|acts|] && Inv(input, s)
      requires CanStep(s, a) && s.snd.off <= |input| && View() == Step(input, s, a)
      modifies `run, `acts
      ensures Valid()
    {
      hide Inv, IsRun, Step, CanStep;
      StepKeepsInv(input, s, a);
      run, acts := Extend(input, run, acts, a);
    }

    ghost predicate Can(a: Action)
      reads this
    {
      CanStep(View(), a) && off <= |input|
    }

    /** One statement of main.c that leaves its buffer alone. */
    method PlainTurn()
      requires Valid() && Can(Send)
      requires sc.ClearFlag? || sc.SayHello? || sc.AwaitHello? || sc.ResetFlag? || sc.AwaitAck? || sc.SayEnd?
      modifies `sc, `sflag, `hello, `last, `run, `acts
      ensures Valid() && View() == SenderStep(input, old(View()))
    {
      hide Inv, IsRun;
      ghost var s := View();
      match sc {
        case ClearFlag =>
          sflag := false;
          sc := SayHello;
        case SayHello =>
          hello := true;
          sc := AwaitHello;
        case AwaitHello =>
          sc := ReadChunk;
        case ResetFlag =>
          sflag := false;
          sc := SayLast;
        case AwaitAck =>
          sc := if ret == CHUNK then ReadChunk else SayEnd;
        case SayEnd =>
          last := true;
          sc := SenderDone;
      }
      Record(s, Send);
    }

    /** One statement of main.c. */
    method SenderTurn()
      requires Valid() && Can(Send)
      modifies `sc, `sflag, `off, `ret, `buf, `hello, `last, `chunk, `run, `acts
      ensures Valid() && View() == SenderStep(input, old(View()))
    {
      hide Inv, IsRun;
      if sc.ClearFlag? || sc.SayHello? || sc.AwaitHello? || sc.ResetFlag? || sc.AwaitAck? || sc.SayEnd? {
        PlainTurn();
        return;
      }
      ghost var s := View();
      match sc {
        case ReadChunk =>
          ret := Min(CHUNK, |input| - off);
          buf := input[off..off + ret] + buf[ret..];
          off := off + ret;
          sc := ResetFlag;
        case SayLast =>
          if ret < CHUNK {
            last := true;
            buf := buf[ret := 0];
          }
          sc := QueueChunk;
        case QueueChunk =>
          if chunk.None? {
            chunk := Some(buf);
          }
          sc := AwaitAck;
      }
      Record(s, Send);
    }

    /** One statement of handler.c. */
    method ReceiverTurn()
      requires Valid() && Can(Receive)
      modifies `rc, `rflag, `out, `ack, `acks, `run, `acts
      ensures Valid() && View() == ReceiverStep(old(View()))
    {
      hide Inv, IsRun, UpToNul;
      ghost var s := View();
      match rc {
        case AwaitSender =>
          rc := ClearReady;
        case ClearReady =>
          rflag := false;
          rc := SendAck;
        case SendAck =>
          ack, acks := true, acks + 1;
          rc := AwaitChunk;
        case AwaitChunk =>
          rc := TestLast;
        case TestLast =>
          rc := if more then WriteChunk else WriteTail;
        case WriteChunk =>
          out := out + mem;
          rc := ClearReady;
        case WriteTail =>
          out := out + UpToNul(mem);
          rc := SendLastAck;
        case SendLastAck =>
          ack, acks := true, acks + 1;
          rc := ReceiverDone;
      }
      Record(s, Receive);
    }

    /** A pending signal's handler: `handler`, `killrest`, `handler_stop`, `shandler_1`. */
    method Deliver(a: Action)
      requires Valid() && Can(a) && a != Send && a != Receive
      modifies `ack, `sflag, `hello, `ignition, `last, `more, `chunk, `mem, `rflag, `run, `acts
      ensures Valid() && View() == Step(input, old(View()), a)
    {
      hide Inv, IsRun;
      ghost var s := View();
      match a {
        case DeliverAck =>
          ack, sflag := false, true;
        case DeliverHello =>
          hello, ignition := false, true;
        case DeliverLast =>
          last, more := false, false;
        case DeliverChunk =>
          mem, chunk, rflag := chunk.value, None, true;
      }
      Record(s, a);
    }

    /** Any one step that is possible. */
    method AnyStep(a: Action)
      requires Valid() && CanStep(View(), a)
      modifies this
      ensures Valid() && Measure(input, View()) < Measure(input, old(View()))
    {
      OffsetFits(input, View());
      MeasureFalls(input, View(), a);
      hide Inv, IsRun, Measure, CanStep, SenderStep, ReceiverStep;
      match a {
        case Send => SenderTurn();
        case Receive => ReceiverTurn();
        case _ => Deliver(a);
      }
    }

    /** Some step that is possible, if there is one; any of them may be taken. */
    method Choose() returns (a: Option<Action>)
      ensures a.Some? ==> CanStep(View(), a.value)
      ensures a.None? ==> forall b :: !CanStep(View(), b)
    {
      var all := [Send, Receive, DeliverAck, DeliverHello, DeliverLast, DeliverChunk];
      var possible := set b | b in all && CanStep(View(), b);
      if b :| b in possible {
        a := Some(b);
      } else {
        a := None;
        forall b
          ensures !CanStep(View(), b)
        {
          InAll(all, b);
          assert b !in possible;
        }
      }
    }

    /**
     Both programs run until neither can go on, in any order of statements and
     deliveries. The file has then arrived, or the last chunk was missed and the
     receiver waits for good.
     */
    method Transfer()
      requires Valid()
      modifies this
      ensures Valid()
      ensures sc == SenderDone && acks == |input| / 8 + 2
      ensures var w := |input| / 8 * 8;
        if Missed(input, View()) then rc == AwaitChunk && |out| == w + 8 && out[..|input|] == input
        else
          && rc == ReceiverDone && out == Expected(input) && out <= input && |out| >= w
          && 0 !in out[w..] && (|out| < |input| ==> input[|out|] == 0)
    {
      hide Inv, IsRun, Measure, CanStep, Missed, Expected;
      while true
        invariant Valid()
        decreases Measure(input, View())
      {
        var a := Choose();
        if a.None? {
          break;
        }
        AnyStep(a.value);
        MeasureIsNatural(input, View());
      }
      NowhereToGo(input, View());
    }
  }

  lemma OffsetFits(input: seq<Byte>, s: State)
    requires Inv(input, s)
    ensures s.snd.off <= |input|
  {
  }

  lemma InAll(all: seq<Action>, b: Action)
    requires all == [Send, Receive, DeliverAck, DeliverHello, DeliverLast, DeliverChunk]
    ensures b in all
  {
    assert all[0] == Send && all[1] == Receive && all[2] == DeliverAck;
    assert all[3] == DeliverHello && all[4] == DeliverLast && all[5] == DeliverChunk;
  }

  lemma NowhereToGo(input: seq<Byte>, s: State)
    requires Inv(input, s) && forall a :: !CanStep(s, a)
    ensures s.snd.sc == SenderDone && s.sig.acks == |input| / 8 + 2
    ensures var out, w := s.rcv.out, |input| / 8 * 8;
      if Missed(input, s) then s.rcv.rc == AwaitChunk && |out| == w + 8 && out[..|input|] == input
      else
        && s.rcv.rc == ReceiverDone && out == Expected(input) && out <= input && |out| >= w
        && 0 !in out[w..] && (|out| < |input| ==> input[|out|] == 0)
  {
    hide Expected, UpToNul;
    if Missed(input, s) {
      MissedEnd(input, s);
    } else {
      if !Finished(s) {
        var a := DeadlockFree(input, s);
      }
      DoneOutput(input, s);
      ExpectedBytes(input);
    }
    AllAnswered(input, s);
  }

  lemma AllAnswered(input: seq<Byte>, s: State)
    requires Inv(input, s) && s.snd.sc == SenderDone
    ensures s.sig.acks == |input| / 8 + 2
  {
    LastChunkHeld(input, s);
    LastStart(input, s);
  }

  lemma LastChunkHeld(input: seq<Byte>, s: State)
    requires Inv(input, s) && s.snd.sc == SenderDone
    ensures InHand(input, s) && s.snd.ret < CHUNK && s.sig.acks == Start(s) / CHUNK + 2
  {
    hide UpToNul;
  }
}
