/**
 The two programs of sh_memory on shared memory that they change in place. Each
 is run to its end while the other process and the delivery of the signal take
 any number of steps between any two of its statements; every execution is a
 run of the machine in SemaphoreTransfer.
 */
module SemaphorePrograms {
  import opened Bytes
  import opened SemaphoreTransfer

  /** The producer waits for sem1. */
  predicate Waits1(input: seq<Byte>, s: State) {
    s.pc == AwaitHello || (s.pc == AwaitAck && WaitsForAck(input, s)) || s.pc == AwaitEnd
  }

  /** While the producer is blocked on sem1 the consumer can go on. */
  lemma ConsumerGoesOn(input: seq<Byte>, s: State)
    requires Inv(input, s) && s.sem1 == 0 && Waits1(input, s)
    ensures CanStep(input, s, Consume)
  {
    if Overrun(input, s) {
      OverrunIsForever(input, s, Consume);
      if s.cc == AwaitByte {
        AwaitedEnd(input, s);
      }
    } else {
      var a := DeadlockFree(input, s);
    }
  }

  class Processes {
    const input: seq<Byte>
    // main.c: the statement it is at, the file position and its variables
    var pc: ProducerAt
    var off: nat
    var i: nat
    var buf: Byte
    var pid: int
    // shared memory and semaphores
    var pidCell: int
    var cell: Byte
    var sem1: nat
    var sem2: nat
    // hand.c, its pending signal and its output
    var cc: ConsumerAt
    var flag: bool
    var killed: bool
    var out: seq<Byte>

    ghost var run: seq<State>
    ghost var acts: seq<Action>

    function View(): State
      reads this
    {
      State(pc, off, i, buf, pid, pidCell, cell, sem1, sem2, cc, flag, killed, out)
    }

    /** What happened so far is a run of the machine. */
    ghost predicate Valid()
      reads this
    {
      IsRun(input, run, acts) && View() == run[|acts|] && Inv(input, View())
    }

    constructor (input: seq<Byte>, pidCell: int, cell: Byte)
      ensures Valid() && this.input == input && Init(View())
    {
      this.input := input;
      pc, off, i, buf, pid := AwaitHello, 0, 0, 0, 0;
      this.pidCell, this.cell, sem1, sem2 := pidCell, cell, 0, 0;
      cc, flag, killed, out := StorePid, true, false, [];
      acts := [];
      new;
      run := [View()];
      InitInv(input, View());
    }

    ghost method Record(s: State, a: Action)
      requires IsRun(input, run, acts) && s == run[|acts|] && Inv(input, s)
      requires CanStep(input, s, a) && View() == Step(input, s, a)
      modifies `run, `acts
      ensures Valid()
    {
      hide Inv, IsRun, Step, CanStep;
      StepKeepsInv(input, s, a);
      run, acts := Extend(input, run, acts, a);
    }

    /** One statement of the loop of main.c. */
    method LoopTurn()
      requires Valid() && CanStep(input, View(), Produce)
      requires pc.ReadByte? || pc.StoreByte? || pc.PostByte? || pc.AwaitAck?
      modifies `pc, `off, `i, `buf, `cell, `sem1, `sem2, `run, `acts
      ensures Valid() && View() == ProducerStep(input, old(View()))
    {
      hide Inv, IsRun;
      ghost var s := View();
      match pc {
        case ReadByte =>
          if off < |input| {
            buf, off := input[off], off + 1;
            pc := StoreByte;
          } else {
            pc := Kill;
          }
        case StoreByte =>
          cell := buf;
          pc := PostByte;
        case PostByte =>
          sem2 := sem2 + 1;
          pc := AwaitAck;
        case AwaitAck =>
          if i < |input| - 1 {
            sem1 := sem1 - 1;
          }
          i := i + 1;
          pc := ReadByte;
      }
      Record(s, Produce);
    }

    /** One statement of main.c. */
    method ProducerTurn()
      requires Valid() && CanStep(input, View(), Produce)
      modifies `pc, `off, `i, `buf, `pid, `cell, `sem1, `sem2, `killed, `run, `acts
      ensures Valid() && View() == ProducerStep(input, old(View()))
    {
      hide Inv, IsRun;
      if pc.ReadByte? || pc.StoreByte? || pc.PostByte? || pc.AwaitAck? {
        LoopTurn();
        return;
      }
      ghost var s := View();
      match pc {
        case AwaitHello =>
          sem1 := sem1 - 1;
          pc := ReadPid;
        case ReadPid =>
          pid := pidCell;
          pc := ReadByte;
        case Kill =>
          killed := killed || pid == CONSUMER;
          pc := PostStop;
        case PostStop =>
          sem2 := sem2 + 1;
          pc := AwaitEnd;
        case AwaitEnd =>
          sem1 := sem1 - 1;
          pc := ProducerDone;
      }
      Record(s, Produce);
    }

    /** One statement of hand.c. */
    method ConsumerTurn()
      requires Valid() && CanStep(input, View(), Consume)
      modifies `pidCell, `sem1, `sem2, `cc, `out, `run, `acts
      ensures Valid() && View() == ConsumerStep(old(View()))
    {
      hide Inv, IsRun;
      ghost var s := View();
      match cc {
        case StorePid =>
          pidCell := CONSUMER;
          cc := PostHello;
        case PostHello =>
          sem1 := sem1 + 1;
          cc := AwaitByte;
        case AwaitByte =>
          sem2 := sem2 - 1;
          cc := TestFlag;
        case TestFlag =>
          cc := if flag then WriteByte else PostEnd;
        case WriteByte =>
          out := out + [cell];
          cc := PostAck;
        case PostAck =>
          sem1 := sem1 + 1;
          cc := AwaitByte;
        case PostEnd =>
          sem1 := sem1 + 1;
          cc := ConsumerDone;
      }
      Record(s, Consume);
    }

    /** shandler_1 */
    method Handler()
      requires Valid() && killed && cc != ConsumerDone
      modifies `flag, `killed, `run, `acts
      ensures Valid() && View() == Step(input, old(View()), Deliver)
    {
      hide Inv, IsRun;
      ghost var s := View();
      killed := false;
      flag := false;
      Record(s, Deliver);
    }

    /** The consumer takes a step if it can, or a pending signal is delivered first. */
    method ConsumerSide() returns (moved: bool)
      requires Valid()
      modifies `pidCell, `sem1, `sem2, `cc, `out, `flag, `killed, `run, `acts
      ensures Valid()
      ensures moved ==> Measure(input, View()) < Measure(input, old(View()))
      ensures !moved ==> View() == old(View()) && !CanStep(input, View(), Consume)
    {
      hide Inv, IsRun, Measure, ConsumerStep, ProducerStep;
      var deliver: bool :| true;
      if deliver && killed && cc != ConsumerDone {
        MeasureFalls(input, View(), Deliver);
        Handler();
        moved := true;
      } else {
        moved := if cc == AwaitByte then sem2 > 0 else cc != ConsumerDone;
        if moved {
          MeasureFalls(input, View(), Consume);
          ConsumerTurn();
        }
      }
    }

    /** main.c returns in every execution, whatever the consumer does meanwhile. */
    method Producer()
      requires Valid()
      modifies this
      ensures Valid() && pc == ProducerDone
      ensures |out| >= |input| - 1 && off == |input|
      ensures cc == ConsumerDone || (|out| >= |input| && out[..|input|] == input)
    {
      hide Inv, IsRun, Measure, ConsumerStep, ProducerStep;
      while pc != ProducerDone
        invariant Valid()
        decreases Measure(input, View())
      {
        MeasureIsNatural(input, View());
        var turn: bool :| true;
        var moved := false;
        if turn {
          moved := ConsumerSide();
        }
        if !moved {
          if sem1 == 0 && Waits1(input, View()) {
            ConsumerGoesOn(input, View());
            moved := ConsumerSide();
          } else {
            MeasureFalls(input, View(), Produce);
            ProducerTurn();
          }
        }
        MeasureIsNatural(input, View());
      }
      AtTheEnd(input, View());
      ReturnedState(input, View());
    }

    /**
     hand.c returns with the whole input written or all but its last byte, or it
     blocks for good after writing one byte too many.
     */
    method Consumer() returns (returned: bool)
      requires Valid()
      modifies this
      ensures Valid() && returned == (cc == ConsumerDone)
      ensures if returned then out == input || (input != [] && out == input[..|input| - 1])
              else |out| == |input| + 1 && out[..|input|] == input
    {
      hide Inv, IsRun, Measure, ConsumerStep, ProducerStep, CanStep;
      while cc != ConsumerDone
        invariant Valid()
        decreases Measure(input, View())
      {
        MeasureIsNatural(input, View());
        var turn: bool :| true;
        var moved := false;
        if turn {
          moved := ProducerSide();
        }
        if !moved {
          moved := ConsumerSide();
        }
        if !moved {
          moved := ProducerSide();
          if !moved {
            Stuck(input, View());
            return false;
          }
        }
        MeasureIsNatural(input, View());
      }
      AtTheReturn(input, View());
      return true;
    }

    /** The producer takes a step if it can. */
    method ProducerSide() returns (moved: bool)
      requires Valid()
      modifies `pc, `off, `i, `buf, `pid, `cell, `sem1, `sem2, `killed, `run, `acts
      ensures Valid()
      ensures moved ==> Measure(input, View()) < Measure(input, old(View()))
      ensures !moved ==> View() == old(View()) && !CanStep(input, View(), Produce)
    {
      hide Inv, IsRun, Measure, ConsumerStep, ProducerStep;
      moved := pc != ProducerDone && !(Waits1(input, View()) && sem1 == 0);
      if moved {
        MeasureFalls(input, View(), Produce);
        ProducerTurn();
      }
    }
  }

  lemma AtTheEnd(input: seq<Byte>, s: State)
    requires Inv(input, s) && s.pc == ProducerDone
    ensures |s.out| >= |input| - 1
  {
    hide Conserved, CellState, OutState;
  }

  lemma AtTheReturn(input: seq<Byte>, s: State)
    requires Inv(input, s) && s.cc == ConsumerDone
    ensures s.out == input || (input != [] && s.out == input[..|input| - 1])
  {
    FinishedCount(input, s);
    hide ProducerState, Conserved, CellState;
  }

  /** A consumer that is not done and cannot go on, and whose producer cannot either, has overrun. */
  lemma Stuck(input: seq<Byte>, s: State)
    requires Inv(input, s) && s.cc != ConsumerDone
    requires !CanStep(input, s, Produce) && !CanStep(input, s, Consume)
    ensures |s.out| == |input| + 1 && s.out[..|input|] == input
  {
    if !Overrun(input, s) {
      var a := DeadlockFree(input, s);
    }
    OverrunIsForever(input, s, Consume);
  }
}
