/**
 The file transfer of sh_memory: a producer (main.c) and a consumer (hand.c)
 share one byte, two semaphores and a stop signal. Each step below is one
 atomic action of one process; the stop signal is delivered by a step of its
 own, any time after it was sent. `sem_wait` is a step that is enabled only
 while the semaphore is positive, and a wait interrupted by the handler is
 resumed.

 The producer does not wait for the last byte to be acknowledged, so the stop
 signal races with the consumer of that byte.
 */
module SemaphoreTransfer {
  import opened Bytes

  datatype ProducerAt =
    | AwaitHello | ReadPid | ReadByte | StoreByte | PostByte | AwaitAck | Kill | PostStop | AwaitEnd | ProducerDone

  datatype ConsumerAt =
    | StorePid | PostHello | AwaitByte | TestFlag | WriteByte | PostAck | PostEnd | ConsumerDone

  datatype State = State(
    // producer
    pc: ProducerAt, off: nat, i: nat, buf: Byte, pid: int,
    // shared memory and semaphores
    pidCell: int, cell: Byte, sem1: nat, sem2: nat,
    // consumer
    cc: ConsumerAt, flag: bool, killed: bool, out: seq<Byte>)

  datatype Action = Produce | Consume | Deliver

  const CONSUMER: int := 1

  ghost predicate Init(s: State) {
    && s.pc == AwaitHello && s.off == 0 && s.i == 0
    && s.sem1 == 0 && s.sem2 == 0
    && s.cc == StorePid && s.flag && !s.killed && s.out == []
  }

  predicate Enabled(s: State, a: Action) {
    match a
    case Produce =>
      match s.pc {
        case AwaitHello => s.sem1 > 0
        case AwaitEnd => s.sem1 > 0
        case ProducerDone => false
        case _ => true
      }
    case Consume => if s.cc == AwaitByte then s.sem2 > 0 else s.cc != ConsumerDone
    case Deliver => s.killed && s.cc != ConsumerDone
  }

  /** Before the last byte the producer waits for the consumer; st_size is the input's length. */
  predicate WaitsForAck(input: seq<Byte>, s: State) {
    s.i < |input| - 1
  }

  predicate CanStep(input: seq<Byte>, s: State, a: Action) {
    Enabled(s, a) && (a == Produce && s.pc == AwaitAck && WaitsForAck(input, s) ==> s.sem1 > 0)
  }

  function Step(input: seq<Byte>, s: State, a: Action): State
    requires CanStep(input, s, a)
  {
    match a
    case Produce => ProducerStep(input, s)
    case Consume => ConsumerStep(s)
    case Deliver => s.(killed := false, flag := false)
  }

  function ProducerStep(input: seq<Byte>, s: State): State
    requires CanStep(input, s, Produce)
  {
    match s.pc
    case AwaitHello => s.(sem1 := s.sem1 - 1, pc := ReadPid)
    case ReadPid => s.(pid := s.pidCell, pc := ReadByte)
    case ReadByte =>
      if s.off < |input| then s.(buf := input[s.off], off := s.off + 1, pc := StoreByte)
      else s.(pc := Kill)
    case StoreByte => s.(cell := s.buf, pc := PostByte)
    case PostByte => s.(sem2 := s.sem2 + 1, pc := AwaitAck)
    case AwaitAck =>
      if WaitsForAck(input, s) then s.(sem1 := s.sem1 - 1, i := s.i + 1, pc := ReadByte)
      else s.(i := s.i + 1, pc := ReadByte)
    case Kill => s.(killed := s.killed || s.pid == CONSUMER, pc := PostStop)
    case PostStop => s.(sem2 := s.sem2 + 1, pc := AwaitEnd)
    case AwaitEnd => s.(sem1 := s.sem1 - 1, pc := ProducerDone)
  }

  function ConsumerStep(s: State): State
    requires Enabled(s, Consume)
  {
    match s.cc
    case StorePid => s.(pidCell := CONSUMER, cc := PostHello)
    case PostHello => s.(sem1 := s.sem1 + 1, cc := AwaitByte)
    case AwaitByte => s.(sem2 := s.sem2 - 1, cc := TestFlag)
    case TestFlag => s.(cc := if s.flag then WriteByte else PostEnd)
    case WriteByte => s.(out := s.out + [s.cell], cc := PostAck)
    case PostAck => s.(sem1 := s.sem1 + 1, cc := AwaitByte)
    case PostEnd => s.(sem1 := s.sem1 + 1, cc := ConsumerDone)
  }

  // --------------------------------------------------------------- invariant

  /** Bytes handed over so far: posted on sem2, the final post not counted. */
  function Posted(input: seq<Byte>, s: State): int {
    match s.pc
    case StoreByte => s.off - 1
    case PostByte => s.off - 1
    case Kill => |input|
    case PostStop => |input|
    case AwaitEnd => |input|
    case ProducerDone => |input|
    case _ => s.off
  }

  function Stopped(s: State): int {
    if s.pc == AwaitEnd || s.pc == ProducerDone then 1 else 0
  }

  /** Tokens the consumer took from sem2. */
  function Taken(s: State): int {
    match s.cc
    case TestFlag => |s.out| + 1
    case WriteByte => |s.out| + 1
    case PostEnd => |s.out| + 1
    case ConsumerDone => |s.out| + 1
    case _ => |s.out|
  }

  function PostsOfSem1(s: State): int {
    (if s.cc == StorePid || s.cc == PostHello then 0 else 1)
    + |s.out| - (if s.cc == PostAck then 1 else 0)
    + (if s.cc == ConsumerDone then 1 else 0)
  }

  function WaitsOfSem1(input: seq<Byte>, s: State): int {
    (if s.pc == AwaitHello then 0 else 1)
    + (if s.i < |input| || |input| == 0 then s.i else |input| - 1)
    + (if s.pc == ProducerDone then 1 else 0)
  }

  predicate Conserved(input: seq<Byte>, s: State) {
    && s.sem2 == Posted(input, s) + Stopped(s) - Taken(s)
    && s.sem1 == PostsOfSem1(s) - WaitsOfSem1(input, s)
  }

  predicate ProducerState(input: seq<Byte>, s: State) {
    && s.off <= |input|
    && match s.pc {
      case AwaitHello => s.off == 0 && s.i == 0
      case ReadPid => s.off == 0 && s.i == 0 && s.pidCell == CONSUMER
      case ReadByte => s.i == s.off && s.pid == CONSUMER
      case StoreByte => s.off == s.i + 1 && s.buf == input[s.i] && s.pid == CONSUMER
      case PostByte => s.off == s.i + 1 && s.cell == input[s.i] && s.pid == CONSUMER
      case AwaitAck => s.off == s.i + 1 && s.pid == CONSUMER
      case _ => s.off == s.i == |input| && s.pid == CONSUMER && |s.out| >= |input| - 1
    }
  }

  predicate SignalState(s: State) {
    && (s.pc.PostStop? || s.pc.AwaitEnd? || s.pc.ProducerDone? ==> s.killed == s.flag)
    && (!(s.pc.PostStop? || s.pc.AwaitEnd? || s.pc.ProducerDone?) ==> s.flag && !s.killed)
    && (s.cc == PostEnd || s.cc == ConsumerDone ==> !s.flag)
    && (s.cc == StorePid || s.pidCell == CONSUMER)
    && (s.cc == StorePid || s.cc == PostHello ==> s.out == [])
  }

  /** The byte in the cell is the one that was posted and not yet written. */
  predicate CellState(input: seq<Byte>, s: State) {
    var posted := Posted(input, s);
    && (0 < posted <= |input| && s.pc != PostByte ==> s.cell == input[posted - 1])
    && (s.pc == PostByte ==> |s.out| == posted)
  }

  predicate OutState(input: seq<Byte>, s: State) {
    if |s.out| <= |input| then s.out <= input
    else |s.out| == |input| + 1 && s.out[..|input|] == input
  }

  /** The consumer found the flag still set after it had taken the final token. */
  predicate Overrun(input: seq<Byte>, s: State) {
    |s.out| > |input| || (s.cc == WriteByte && |s.out| == |input|)
  }

  predicate Inv(input: seq<Byte>, s: State) {
    && ProducerState(input, s)
    && Conserved(input, s)
    && SignalState(s)
    && CellState(input, s)
    && OutState(input, s)
  }

  lemma InitInv(input: seq<Byte>, s: State)
    requires Init(s)
    ensures Inv(input, s)
  {
  }

  predicate Control(input: seq<Byte>, s: State) {
    ProducerState(input, s) && Conserved(input, s) && SignalState(s)
  }

  predicate Data(input: seq<Byte>, s: State) {
    CellState(input, s) && OutState(input, s)
  }

  lemma ProducerConserves(input: seq<Byte>, s: State)
    requires Control(input, s) && CanStep(input, s, Produce)
    ensures Conserved(input, Step(input, s, Produce))
  {
  }

  lemma ProducerKeepsState(input: seq<Byte>, s: State)
    requires Control(input, s) && CanStep(input, s, Produce)
    ensures ProducerState(input, Step(input, s, Produce)) && SignalState(Step(input, s, Produce))
  {
  }

  /** A consumer's step counts one post or one wait, and nothing of the producer's changes. */
  lemma ConsumerCounts(s: State)
    requires Enabled(s, Consume)
    ensures var t := ConsumerStep(s);
      && PostsOfSem1(t) - PostsOfSem1(s) == t.sem1 - s.sem1
      && Taken(t) - Taken(s) == s.sem2 - t.sem2
      && t.pc == s.pc && t.off == s.off && t.i == s.i
  {
  }

  lemma ProducerAlongside(input: seq<Byte>, s: State, t: State)
    requires t.pc == s.pc && t.off == s.off && t.i == s.i
    ensures Posted(input, t) == Posted(input, s) && Stopped(t) == Stopped(s)
    ensures WaitsOfSem1(input, t) == WaitsOfSem1(input, s)
  {
  }

  lemma ConsumerConserves(input: seq<Byte>, s: State)
    requires Control(input, s) && CanStep(input, s, Consume)
    ensures Conserved(input, Step(input, s, Consume))
  {
    hide ConsumerStep, Posted, Stopped, Taken, PostsOfSem1, WaitsOfSem1, ProducerState, SignalState;
    ConsumerCounts(s);
    ProducerAlongside(input, s, ConsumerStep(s));
  }

  lemma ConsumerKeepsState(input: seq<Byte>, s: State)
    requires Control(input, s) && CanStep(input, s, Consume)
    ensures ProducerState(input, Step(input, s, Consume)) && SignalState(Step(input, s, Consume))
  {
    hide Conserved;
  }

  /** At most one byte is on its way, and only if its acknowledgement is awaited or skipped. */
  lemma OneInFlight(input: seq<Byte>, s: State)
    requires Control(input, s)
    ensures |s.out| <= Posted(input, s) + Stopped(s)
    ensures Posted(input, s) <= |s.out| + 1
    ensures s.pc == StoreByte || s.pc == PostByte ==> |s.out| == Posted(input, s)
  {
  }

  lemma ProducerKeepsData(input: seq<Byte>, s: State)
    requires Control(input, s) && Data(input, s) && CanStep(input, s, Produce)
    ensures Data(input, Step(input, s, Produce))
  {
    OneInFlight(input, s);
    hide Conserved, SignalState;
  }

  lemma ConsumerKeepsData(input: seq<Byte>, s: State)
    requires Control(input, s) && Data(input, s) && CanStep(input, s, Consume)
    ensures Data(input, Step(input, s, Consume))
  {
    OneInFlight(input, s);
    hide Conserved, SignalState;
  }

  lemma StepKeepsInv(input: seq<Byte>, s: State, a: Action)
    requires Inv(input, s) && CanStep(input, s, a)
    ensures Inv(input, Step(input, s, a))
  {
    match a {
      case Produce =>
        ProducerConserves(input, s);
        ProducerKeepsState(input, s);
        ProducerKeepsData(input, s);
      case Consume =>
        ConsumerConserves(input, s);
        ConsumerKeepsState(input, s);
        ConsumerKeepsData(input, s);
      case Deliver =>
    }
  }

  // ----------------------------------------------------------------- all runs

  /** A finite run: `acts[k]` leads from `run[k]` to `run[k + 1]`. */
  ghost predicate IsRun(input: seq<Byte>, run: seq<State>, acts: seq<Action>) {
    && |run| == |acts| + 1 && Init(run[0])
    && forall k | 0 <= k < |acts| :: CanStep(input, run[k], acts[k]) && run[k + 1] == Step(input, run[k], acts[k])
  }

  lemma {:induction false} RunInv(input: seq<Byte>, run: seq<State>, acts: seq<Action>, k: nat)
    requires IsRun(input, run, acts) && k < |run|
    ensures Inv(input, run[k])
  {
    hide Inv, CanStep, Step, Init;
    if k == 0 {
      InitInv(input, run[0]);
    } else {
      RunInv(input, run, acts, k - 1);
      StepKeepsInv(input, run[k - 1], acts[k - 1]);
    }
  }

  /** What the output may be: a prefix of the input at all times, unless the consumer overran. */
  lemma OutputInEveryRun(input: seq<Byte>, run: seq<State>, acts: seq<Action>, k: nat)
    requires IsRun(input, run, acts) && k < |run|
    ensures !Overrun(input, run[k]) ==> run[k].out <= input
    ensures run[k].out[..if |run[k].out| < |input| then |run[k].out| else |input|] <= input
    ensures |run[k].out| <= |input| + 1
  {
    RunInv(input, run, acts, k);
  }

  /**
   A consumer that finishes has written the whole input or all but its last
   byte. The last byte is missing exactly when its token was left on sem2.
   */
  lemma FinishedOutput(input: seq<Byte>, run: seq<State>, acts: seq<Action>, k: nat)
    requires IsRun(input, run, acts) && k < |run| && run[k].cc == ConsumerDone
    ensures run[k].out == input || (input != [] && run[k].out == input[..|input| - 1])
    ensures run[k].pc == ProducerDone ==> (run[k].out == input <==> run[k].sem2 == 0)
    ensures run[k].pc == ProducerDone && run[k].out != input ==> run[k].sem2 == 1
  {
    RunInv(input, run, acts, k);
    OneInFlight(input, run[k]);
    FinishedCount(input, run[k]);
  }

  /**
   When the producer returns, and removes the shared memory, the consumer has
   returned or has written the whole input at least.
   */
  lemma ProducerReturns(input: seq<Byte>, run: seq<State>, acts: seq<Action>, k: nat)
    requires IsRun(input, run, acts) && k < |run| && run[k].pc == ProducerDone
    ensures run[k].cc == ConsumerDone || (|run[k].out| >= |input| && run[k].out[..|input|] == input)
    ensures run[k].off == |input|
  {
    RunInv(input, run, acts, k);
    ReturnedState(input, run[k]);
  }

  lemma ReturnedState(input: seq<Byte>, s: State)
    requires Inv(input, s) && s.pc == ProducerDone
    ensures s.cc == ConsumerDone || (|s.out| >= |input| && s.out[..|input|] == input)
    ensures s.off == |input|
  {
    hide CellState;
  }

  lemma FinishedCount(input: seq<Byte>, s: State)
    requires Inv(input, s) && s.cc == ConsumerDone
    ensures |input| - 1 <= |s.out| <= |input|
    ensures s.pc == ProducerDone ==> s.sem2 == |input| - |s.out|
  {
    hide CellState, OutState;
  }

  /**
   The loop is left in one way only: the consumer reads the flag after the
   signal was delivered, whenever it took its token. The last byte is lost if
   that token was the last byte's.
   */
  lemma LostByte(input: seq<Byte>, s: State, a: Action)
    requires Inv(input, s) && CanStep(input, s, a)
    requires s.cc != PostEnd && Step(input, s, a).cc == PostEnd
    ensures a == Consume && s.cc == TestFlag && !s.flag && s.pc in {PostStop, AwaitEnd, ProducerDone}
    ensures |s.out| < |input| <==> Taken(s) == |input|
  {
    OneInFlight(input, s);
    hide CellState, OutState;
  }

  /** The consumer overruns exactly if it tests the flag for the final token while the signal is pending. */
  lemma OverrunExactly(input: seq<Byte>, s: State, a: Action)
    requires Inv(input, s) && CanStep(input, s, a) && !Overrun(input, s)
    ensures Overrun(input, Step(input, s, a)) <==>
              a == Consume && s.cc == TestFlag && s.killed && Taken(s) == |input| + 1
  {
    OneInFlight(input, s);
    hide CellState, OutState;
  }

  /** After an overrun the consumer is never woken again. */
  lemma OverrunIsForever(input: seq<Byte>, s: State, a: Action)
    requires Inv(input, s) && Overrun(input, s)
    ensures s.cc in {WriteByte, PostAck, AwaitByte} && s.sem2 == 0 && s.pc in {AwaitEnd, ProducerDone}
    ensures CanStep(input, s, a) ==> Overrun(input, Step(input, s, a))
  {
    OneInFlight(input, s);
    hide CellState;
  }

  /** If every `kill` is delivered before the producer's final post, no run overruns. */
  lemma {:induction false} PromptDelivery(input: seq<Byte>, run: seq<State>, acts: seq<Action>, k: nat)
    requires IsRun(input, run, acts) && k < |run|
    requires forall j | 0 <= j < |acts| :: acts[j] == Produce && run[j].pc == PostStop ==> !run[j].killed
    ensures !Overrun(input, run[k]) && run[k].out <= input
    ensures Stopped(run[k]) == 1 ==> !run[k].killed
  {
    RunInv(input, run, acts, k);
    if k > 0 {
      PromptDelivery(input, run, acts, k - 1);
      RunInv(input, run, acts, k - 1);
      PromptStep(input, run[k - 1], acts[k - 1]);
    }
  }

  lemma PromptStep(input: seq<Byte>, s: State, a: Action)
    requires Inv(input, s) && CanStep(input, s, a) && !Overrun(input, s)
    requires Stopped(s) == 1 ==> !s.killed
    requires a == Produce && s.pc == PostStop ==> !s.killed
    ensures !Overrun(input, Step(input, s, a))
    ensures Stopped(Step(input, s, a)) == 1 ==> !Step(input, s, a).killed
  {
    OverrunExactly(input, s, a);
    OneInFlight(input, s);
    hide CellState, OutState;
  }

  lemma Extend(input: seq<Byte>, run: seq<State>, acts: seq<Action>, a: Action)
    returns (run': seq<State>, acts': seq<Action>)
    requires IsRun(input, run, acts) && CanStep(input, run[|acts|], a)
    ensures IsRun(input, run', acts') && run'[|acts'|] == Step(input, run[|acts|], a)
  {
    run', acts' := run + [Step(input, run[|acts|], a)], acts + [a];
  }

  /** A one-byte file: the byte was posted and the signal sent, the consumer is still waiting. */
  lemma HandedOver(b: Byte, start: State) returns (run: seq<State>, acts: seq<Action>)
    requires Init(start)
    ensures IsRun([b], run, acts)
    ensures run[|acts|] == State(PostStop, 1, 1, b, CONSUMER, CONSUMER, b, 0, 1, AwaitByte, true, true, [])
  {
    run, acts := [start], [];
    hide IsRun;
    run, acts := Extend([b], run, acts, Consume);
    run, acts := Extend([b], run, acts, Consume);
    run, acts := Extend([b], run, acts, Produce);
    run, acts := Extend([b], run, acts, Produce);
    run, acts := Extend([b], run, acts, Produce);
    run, acts := Extend([b], run, acts, Produce);
    run, acts := Extend([b], run, acts, Produce);
    run, acts := Extend([b], run, acts, Produce);
    run, acts := Extend([b], run, acts, Produce);
    run, acts := Extend([b], run, acts, Produce);
  }

  /** The race is real: the only byte of a file can be lost. */
  lemma LossHappens(b: Byte, start: State) returns (run: seq<State>, acts: seq<Action>)
    requires Init(start)
    ensures IsRun([b], run, acts) && run[|acts|].cc == ConsumerDone && run[|acts|].out == []
  {
    run, acts := HandedOver(b, start);
    hide IsRun;
    run, acts := Extend([b], run, acts, Deliver);
    run, acts := Extend([b], run, acts, Consume);
    run, acts := Extend([b], run, acts, Consume);
    run, acts := Extend([b], run, acts, Consume);
  }

  /** With a late delivery it can be written twice. */
  lemma OverrunHappens(b: Byte, start: State) returns (run: seq<State>, acts: seq<Action>)
    requires Init(start)
    ensures IsRun([b], run, acts) && run[|acts|].out == [b, b]
  {
    run, acts := HandedOver(b, start);
    hide IsRun;
    run, acts := Extend([b], run, acts, Produce);
    run, acts := Extend([b], run, acts, Consume);
    run, acts := Extend([b], run, acts, Consume);
    run, acts := Extend([b], run, acts, Consume);
    run, acts := Extend([b], run, acts, Consume);
    run, acts := Extend([b], run, acts, Consume);
    run, acts := Extend([b], run, acts, Consume);
    run, acts := Extend([b], run, acts, Consume);
  }

  // ------------------------------------------------------ progress, termination

  predicate Finished(s: State) {
    s.pc == ProducerDone && s.cc == ConsumerDone
  }

  /** A reachable unfinished state is never stuck, unless the consumer overran. */
  lemma DeadlockFree(input: seq<Byte>, s: State) returns (a: Action)
    requires Inv(input, s) && !Finished(s) && !Overrun(input, s)
    ensures CanStep(input, s, a)
  {
    OneInFlight(input, s);
    hide CellState, OutState;
    a := if CanStep(input, s, Produce) then Produce else Consume;
  }

  function Measure(input: seq<Byte>, s: State): int {
    2 * (8 * (|input| - s.off) + ProducerRank(s.pc) + 8 * (|input| + 2 - Taken(s)) + ConsumerRank(s.cc))
    + (if s.killed then 1 else 0)
  }

  function ProducerRank(pc: ProducerAt): nat {
    match pc
    case AwaitHello => 10
    case ReadPid => 9
    case StoreByte => 8
    case PostByte => 7
    case AwaitAck => 6
    case ReadByte => 5
    case Kill => 4
    case PostStop => 3
    case AwaitEnd => 2
    case ProducerDone => 1
  }

  function ConsumerRank(cc: ConsumerAt): nat {
    match cc
    case StorePid => 8
    case TestFlag => 7
    case WriteByte => 6
    case PostHello => 5
    case PostAck => 5
    case AwaitByte => 4
    case PostEnd => 3
    case ConsumerDone => 2
  }

  lemma ProducerMeasureFalls(input: seq<Byte>, s: State)
    requires Control(input, s) && CanStep(input, s, Produce)
    ensures Measure(input, Step(input, s, Produce)) < Measure(input, s)
  {
    ProducerRankFalls(input, s);
    hide ProducerStep, ProducerState, Conserved, SignalState, ProducerRank;
  }

  lemma ProducerRankFalls(input: seq<Byte>, s: State)
    requires CanStep(input, s, Produce)
    ensures var t := ProducerStep(input, s);
      && ProducerRank(t.pc) - 8 * t.off < ProducerRank(s.pc) - 8 * s.off
      && t.cc == s.cc && t.out == s.out && (t.killed ==> s.killed || s.pc == Kill)
  {
  }

  lemma ConsumerMeasureFalls(input: seq<Byte>, s: State)
    requires CanStep(input, s, Consume)
    ensures Measure(input, Step(input, s, Consume)) < Measure(input, s)
  {
  }

  /** Every step lowers a natural number, so no process steps forever. */
  lemma MeasureFalls(input: seq<Byte>, s: State, a: Action)
    requires Inv(input, s) && CanStep(input, s, a)
    ensures Measure(input, Step(input, s, a)) < Measure(input, s)
  {
    match a {
      case Produce => ProducerMeasureFalls(input, s);
      case Consume => ConsumerMeasureFalls(input, s);
      case Deliver =>
    }
  }

  lemma MeasureIsNatural(input: seq<Byte>, s: State)
    requires Inv(input, s)
    ensures Measure(input, s) >= 0
  {
    OneInFlight(input, s);
    hide Conserved, SignalState, CellState, OutState;
  }

  lemma {:induction false} RunMeasure(input: seq<Byte>, run: seq<State>, acts: seq<Action>, k: nat)
    requires IsRun(input, run, acts) && k < |run|
    ensures k + Measure(input, run[k]) <= Measure(input, run[0])
  {
    hide Inv, CanStep, Step, Init, Measure;
    if k > 0 {
      RunMeasure(input, run, acts, k - 1);
      RunInv(input, run, acts, k - 1);
      MeasureFalls(input, run[k - 1], acts[k - 1]);
    }
  }

  lemma InitMeasure(input: seq<Byte>, s: State)
    requires Init(s)
    ensures Measure(input, s) <= 32 * |input| + 69
  {
  }

  /**
   Every run ends, and a run that cannot be continued has finished with the
   whole input or all but its last byte, or has overrun by one byte with the
   consumer waiting forever.
   */
  lemma EveryRunEnds(input: seq<Byte>, run: seq<State>, acts: seq<Action>)
    requires IsRun(input, run, acts)
    ensures |acts| <= 32 * |input| + 69
    ensures (forall a :: !CanStep(input, run[|acts|], a)) ==>
              var last := run[|acts|];
              if Finished(last) then last.out == input || (input != [] && last.out == input[..|input| - 1])
              else
                && last.pc == ProducerDone && last.cc == AwaitByte
                && |last.out| == |input| + 1 && last.out[..|input|] == input
  {
    var last := run[|acts|];
    RunMeasure(input, run, acts, |acts|);
    InitMeasure(input, run[0]);
    RunInv(input, run, acts, |acts|);
    MeasureIsNatural(input, last);
    if forall a :: !CanStep(input, last, a) {
      if Finished(last) {
        FinishedOutput(input, run, acts, |acts|);
      } else {
        StuckState(input, last);
      }
    }
  }

  lemma StuckState(input: seq<Byte>, s: State)
    requires Inv(input, s) && !Finished(s)
    requires forall a :: !CanStep(input, s, a)
    ensures s.pc == ProducerDone && s.cc == AwaitByte && |s.out| == |input| + 1 && s.out[..|input|] == input
  {
    if !Overrun(input, s) {
      var a := DeadlockFree(input, s);
    }
    OverrunIsForever(input, s, Consume);
    assert !CanStep(input, s, Consume) && !CanStep(input, s, Produce);
    if s.pc == AwaitEnd {
      AwaitedEnd(input, s);
    }
  }

  lemma AwaitedEnd(input: seq<Byte>, s: State)
    requires Control(input, s) && s.cc == AwaitByte && |s.out| > |input| && s.pc == AwaitEnd
    ensures s.sem1 > 0
  {
  }
}
