/**
 The file transfer of trans: a sender (main.c) hands the file to a receiver
 (handler.c) in 8-byte chunks, each carried by a queued SIGUSR1 and answered by
 a plain one; SIGTERM announces the last chunk. One step is one statement of a
 process or one delivery of a pending signal. Spin loops are steps enabled only
 once the awaited flag is set. A standard signal that is already pending is
 not queued again (section 2.4 of POSIX.1-2017 System Interfaces), and pending
 signals are delivered in any order, at any time.

 The receiver is taken to wait for its sender, with its handlers installed,
 when the sender starts.
 */
module SignalTransfer {
  import opened Bytes

  /** The value of `sizeof(void*)`. */
  const CHUNK: nat := 8

  type Chunk = s: seq<Byte> | |s| == CHUNK witness [0, 0, 0, 0, 0, 0, 0, 0]

  datatype SenderAt =
    | ClearFlag | SayHello | AwaitHello | ReadChunk | ResetFlag | SayLast | QueueChunk | AwaitAck | SayEnd | SenderDone

  datatype ReceiverAt =
    | AwaitSender | ClearReady | SendAck | AwaitChunk | TestLast | WriteChunk | WriteTail | SendLastAck | ReceiverDone

  /** Program counter, flag, file offset, result of the last read, buffer. */
  datatype Sender = Sender(sc: SenderAt, sflag: bool, off: nat, ret: nat, buf: Chunk)

  /** Program counter, flag, `i` (more chunks follow), ignition, mem and the output file. */
  datatype Receiver = Receiver(rc: ReceiverAt, rflag: bool, more: bool, ignition: bool, mem: Chunk, out: seq<Byte>)

  /**
   Pending signals: SIGUSR1 at the sender; SIGCHLD, SIGTERM and SIGUSR1 with its
   value at the receiver. `acks` counts the SIGUSR1s sent by the receiver.
   */
  datatype Signals = Signals(ack: bool, hello: bool, last: bool, chunk: Option<Chunk>, acks: nat)

  datatype State = State(snd: Sender, rcv: Receiver, sig: Signals)

  datatype Action = Send | Receive | DeliverAck | DeliverHello | DeliverLast | DeliverChunk

  ghost predicate Init(s: State) {
    && s.snd.sc == ClearFlag && s.snd.off == 0 && s.snd.ret == CHUNK
    && s.rcv.rc == AwaitSender && s.rcv.more && !s.rcv.ignition && s.rcv.out == []
    && !s.sig.ack && !s.sig.hello && !s.sig.last && s.sig.chunk == None && s.sig.acks == 0
  }

  predicate CanStep(s: State, a: Action) {
    match a
    case Send =>
      if s.snd.sc == AwaitHello || s.snd.sc == AwaitAck then s.snd.sflag else s.snd.sc != SenderDone
    case Receive =>
      if s.rcv.rc == AwaitSender then s.rcv.ignition
      else if s.rcv.rc == AwaitChunk then s.rcv.rflag
      else s.rcv.rc != ReceiverDone
    case DeliverAck => s.sig.ack && s.snd.sc != SenderDone
    case DeliverHello => s.sig.hello && s.rcv.rc != ReceiverDone
    case DeliverLast => s.sig.last && s.rcv.rc != ReceiverDone
    case DeliverChunk => s.sig.chunk.Some? && s.rcv.rc != ReceiverDone
  }

  function Min(a: nat, b: nat): nat {
    if a < b then a else b
  }

  function Step(input: seq<Byte>, s: State, a: Action): State
    requires CanStep(s, a) && s.snd.off <= |input|
  {
    match a
    case Send => SenderStep(input, s)
    case Receive => ReceiverStep(s)
    case DeliverAck => s.(sig := s.sig.(ack := false), snd := s.snd.(sflag := true))
    case DeliverHello => s.(sig := s.sig.(hello := false), rcv := s.rcv.(ignition := true))
    case DeliverLast => s.(sig := s.sig.(last := false), rcv := s.rcv.(more := false))
    case DeliverChunk => s.(sig := s.sig.(chunk := None), rcv := s.rcv.(mem := s.sig.chunk.value, rflag := true))
  }

  function SenderStep(input: seq<Byte>, s: State): State
    requires CanStep(s, Send) && s.snd.off <= |input|
  {
    var me, sig := s.snd, s.sig;
    match me.sc
    case ClearFlag => s.(snd := me.(sflag := false, sc := SayHello))
    case SayHello => s.(sig := sig.(hello := true), snd := me.(sc := AwaitHello))
    case AwaitHello => s.(snd := me.(sc := ReadChunk))
    case ReadChunk =>
      var n := Min(CHUNK, |input| - me.off);
      var filled := input[me.off..me.off + n] + me.buf[n..];
      s.(snd := me.(ret := n, off := me.off + n, buf := filled, sc := ResetFlag))
    case ResetFlag => s.(snd := me.(sflag := false, sc := SayLast))
    case SayLast =>
      if me.ret < CHUNK then s.(snd := me.(buf := me.buf[me.ret := 0], sc := QueueChunk), sig := sig.(last := true))
      else s.(snd := me.(sc := QueueChunk))
    case QueueChunk =>
      s.(snd := me.(sc := AwaitAck), sig := if sig.chunk.Some? then sig else sig.(chunk := Some(me.buf)))
    case AwaitAck => s.(snd := me.(sc := if me.ret == CHUNK then ReadChunk else SayEnd))
    case SayEnd => s.(sig := sig.(last := true), snd := me.(sc := SenderDone))
  }

  function ReceiverStep(s: State): State
    requires CanStep(s, Receive)
  {
    var me, sig := s.rcv, s.sig;
    match me.rc
    case AwaitSender => s.(rcv := me.(rc := ClearReady))
    case ClearReady => s.(rcv := me.(rflag := false, rc := SendAck))
    case SendAck => s.(sig := sig.(ack := true, acks := sig.acks + 1), rcv := me.(rc := AwaitChunk))
    case AwaitChunk => s.(rcv := me.(rc := TestLast))
    case TestLast => s.(rcv := me.(rc := if me.more then WriteChunk else WriteTail))
    case WriteChunk => s.(rcv := me.(out := me.out + me.mem, rc := ClearReady))
    case WriteTail => s.(rcv := me.(out := me.out + UpToNul(me.mem), rc := SendLastAck))
    case SendLastAck => s.(sig := sig.(ack := true, acks := sig.acks + 1), rcv := me.(rc := ReceiverDone))
  }

  // ------------------------------------------------------------ specification

  /** The length of the part made of full chunks. */
  function Whole(input: seq<Byte>): (n: nat)
    ensures n <= |input| < n + CHUNK && n % CHUNK == 0
  {
    |input| / CHUNK * CHUNK
  }

  /** What arrives: every full chunk, then the rest up to its first NUL. */
  function Expected(input: seq<Byte>): seq<Byte> {
    input[..Whole(input)] + UpToNul(input[Whole(input)..])
  }

  /** Byte by byte: the input up to the first NUL that comes after its last full chunk of 8 bytes. */
  lemma ExpectedBytes(input: seq<Byte>)
    ensures var out, w := Expected(input), |input| / 8 * 8;
      && out <= input && |out| >= w && 0 !in out[w..]
      && (|out| < |input| ==> input[|out|] == 0)
  {
    var w, out := Whole(input), Expected(input);
    assert input[..w] + input[w..] == input;
    assert out[w..] == UpToNul(input[w..]);
  }

  lemma ArrivesIntact(input: seq<Byte>)
    ensures Expected(input) == input <==> 0 !in input[Whole(input)..]
    ensures |input| % 8 == 0 ==> Expected(input) == input
  {
    var w := Whole(input);
    assert input[..w] + input[w..] == input;
    assert Expected(input)[w..] == UpToNul(input[w..]);
  }

  // ---------------------------------------------------------------- invariant

  /** Offset of the chunk in hand. */
  function Start(s: State): int {
    s.snd.off - s.snd.ret
  }

  /** Neither a greeting nor a chunk nor an acknowledgement is on its way. */
  predicate Calm(s: State) {
    !s.sig.hello && !s.sig.ack && s.sig.chunk == None
  }

  /** The sender holds the bytes it read at `Start`; only the last chunk is short. */
  predicate InHand(input: seq<Byte>, s: State) {
    && s.snd.ret <= s.snd.off <= |input| && s.snd.ret <= CHUNK && Start(s) % CHUNK == 0
    && (s.snd.ret == CHUNK || s.snd.off == |input|)
    && s.snd.buf[..s.snd.ret] == input[Start(s)..s.snd.off]
  }

  predicate Sealed(s: State) {
    s.snd.ret < CHUNK ==> s.snd.buf[s.snd.ret] == 0
  }

  /** The file before the chunk in hand is written; one SIGUSR1 was sent for each chunk awaited. */
  predicate Before(input: seq<Byte>, s: State) {
    InHand(input, s) && s.rcv.out == input[..Start(s)] && s.sig.acks == Start(s) / CHUNK + 1
  }

  /** SIGTERM was sent if the chunk is the last one, and the receiver's `i` is cleared once it is delivered. */
  predicate Announced(s: State) {
    s.rcv.more == (s.snd.ret == CHUNK || s.sig.last) && (s.sig.last ==> s.snd.ret < CHUNK)
  }

  /** The chunk was written whole. For the last chunk that is a mistake. */
  predicate WroteChunk(input: seq<Byte>, s: State) {
    && InHand(input, s) && s.rcv.out == input[..Start(s)] + s.snd.buf
    && (s.snd.ret == CHUNK ==> s.rcv.more && !s.sig.last)
  }

  predicate WroteTail(input: seq<Byte>, s: State) {
    InHand(input, s) && Sealed(s) && s.snd.ret < CHUNK && s.rcv.out == input[..Start(s)] + UpToNul(s.snd.buf)
  }

  predicate AtStart(s: State) {
    s.snd.off == 0 && s.snd.ret == CHUNK && s.rcv.out == [] && s.rcv.more && !s.sig.last && s.sig.chunk == None
  }

  predicate Greeting(s: State) {
    && AtStart(s)
    && match s.rcv.rc {
      case AwaitSender => !s.snd.sflag && !s.sig.ack && s.sig.hello != s.rcv.ignition && s.sig.acks == 0
      case ClearReady => !s.snd.sflag && Calm(s) && s.sig.acks == 0
      case SendAck => !s.snd.sflag && !s.rcv.rflag && Calm(s) && s.sig.acks == 0
      case AwaitChunk => !s.rcv.rflag && !s.sig.hello && s.sig.ack != s.snd.sflag && s.sig.acks == 1
      case _ => false
    }
  }

  predicate Exchange(input: seq<Byte>, s: State) {
    var snd, rcv, sig := s.snd, s.rcv, s.sig;
    var arriving := sig.chunk.Some? || rcv.rflag;
    && !sig.hello
    && (rcv.rc != ReceiverDone && (rcv.rc == AwaitChunk ==> arriving) ==> !snd.sflag && !sig.ack)
    && (rcv.rc != AwaitChunk ==> sig.chunk == None)
    && match rcv.rc {
      case AwaitSender => false
      case AwaitChunk =>
        if arriving then
          && sig.chunk.Some? != rcv.rflag && (if rcv.rflag then rcv.mem else sig.chunk.value) == snd.buf
          && Before(input, s) && Sealed(s) && Announced(s)
        else sig.ack != snd.sflag && WroteChunk(input, s) && sig.acks == Start(s) / CHUNK + 2
      case TestLast => rcv.mem == snd.buf && Before(input, s) && Sealed(s) && Announced(s)
      case WriteChunk => rcv.mem == snd.buf && Before(input, s) && (snd.ret == CHUNK ==> rcv.more && !sig.last)
      case WriteTail => rcv.mem == snd.buf && Before(input, s) && Sealed(s) && snd.ret < CHUNK
      case ClearReady => WroteChunk(input, s) && sig.acks == Start(s) / CHUNK + 1
      case SendAck => !rcv.rflag && WroteChunk(input, s) && sig.acks == Start(s) / CHUNK + 1
      case SendLastAck => WroteTail(input, s) && sig.acks == Start(s) / CHUNK + 1
      case ReceiverDone => sig.ack != snd.sflag && WroteTail(input, s) && sig.acks == Start(s) / CHUNK + 2
    }
  }

  /** The sender left its loop: the receiver is done, or waits for good after a mistake. */
  predicate Over(input: seq<Byte>, s: State) {
    && Calm(s) && s.snd.ret < CHUNK && s.sig.acks == Start(s) / CHUNK + 2
    && if s.rcv.rc == ReceiverDone then WroteTail(input, s) else Idle(s) && WroteChunk(input, s)
  }

  /** The receiver waits for a chunk that has not been sent. */
  predicate Idle(s: State) {
    Calm(s) && s.rcv.rc == AwaitChunk && !s.rcv.rflag
  }

  predicate NotGreeted(s: State) {
    AtStart(s) && Calm(s) && s.rcv.rc == AwaitSender && !s.rcv.ignition && s.sig.acks == 0
  }

  predicate Inv(input: seq<Byte>, s: State) {
    var snd, rcv, sig := s.snd, s.rcv, s.sig;
    snd.off <= |input| && snd.ret <= CHUNK
    && match snd.sc {
      case ClearFlag => NotGreeted(s)
      case SayHello => NotGreeted(s) && !snd.sflag
      case AwaitHello => Greeting(s)
      case ReadChunk =>
        && Idle(s) && rcv.more && !sig.last && snd.ret == CHUNK
        && snd.off % CHUNK == 0 && rcv.out == input[..snd.off] && sig.acks == snd.off / CHUNK + 1
      case ResetFlag => Idle(s) && rcv.more && !sig.last && Before(input, s)
      case SayLast => Idle(s) && rcv.more && !sig.last && Before(input, s) && !snd.sflag
      case QueueChunk => Idle(s) && Announced(s) && Sealed(s) && Before(input, s) && !snd.sflag
      case AwaitAck => Exchange(input, s)
      case SayEnd => Over(input, s)
      case SenderDone => Over(input, s)
    }
  }

  lemma InitInv(input: seq<Byte>, s: State)
    requires Init(s)
    ensures Inv(input, s)
  {
  }

  lemma ReadKeepsInv(input: seq<Byte>, s: State)
    requires Inv(input, s) && s.snd.sc == ReadChunk
    ensures Inv(input, SenderStep(input, s))
  {
    var n := Min(CHUNK, |input| - s.snd.off);
    var t := SenderStep(input, s);
    assert t.snd.buf[..n] == input[s.snd.off..s.snd.off + n];
  }

  lemma SealKeepsInv(input: seq<Byte>, s: State)
    requires Inv(input, s) && s.snd.sc == SayLast
    ensures Inv(input, SenderStep(input, s))
  {
    if s.snd.ret < CHUNK {
      assert s.snd.buf[s.snd.ret := 0][..s.snd.ret] == s.snd.buf[..s.snd.ret];
    }
  }

  lemma AcknowledgedKeepsInv(input: seq<Byte>, s: State)
    requires Inv(input, s) && s.snd.sc == AwaitAck && CanStep(s, Send)
    ensures Inv(input, SenderStep(input, s))
  {
    if s.snd.ret == CHUNK {
      assert s.snd.buf[..CHUNK] == s.snd.buf;
      assert input[..Start(s)] + input[Start(s)..s.snd.off] == input[..s.snd.off];
    }
  }

  lemma SendKeepsInv(input: seq<Byte>, s: State)
    requires Inv(input, s) && CanStep(s, Send)
    ensures Inv(input, SenderStep(input, s))
  {
    hide Inv, SenderStep;
    if s.snd.sc == ReadChunk {
      ReadKeepsInv(input, s);
    } else if s.snd.sc == SayLast {
      SealKeepsInv(input, s);
    } else if s.snd.sc == AwaitAck {
      AcknowledgedKeepsInv(input, s);
    } else {
      PlainSendKeepsInv(input, s);
    }
  }

  lemma PlainSendKeepsInv(input: seq<Byte>, s: State)
    requires Inv(input, s) && CanStep(s, Send) && !(s.snd.sc in {ReadChunk, SayLast, AwaitAck})
    ensures Inv(input, SenderStep(input, s))
  {
    hide InHand, UpToNul;
    InHandAlongside(input, s, SenderStep(input, s));
  }

  lemma ReceiveKeepsInv(input: seq<Byte>, s: State)
    requires Inv(input, s) && CanStep(s, Receive)
    ensures Inv(input, ReceiverStep(s))
  {
    if s.snd.sc == AwaitAck {
      ExchangeKept(input, s);
      hide Exchange;
    } else {
      assert s.snd.sc == AwaitHello;
      hide Exchange;
    }
  }

  lemma ExchangeKept(input: seq<Byte>, s: State)
    requires Exchange(input, s) && s.snd.sc == AwaitAck && CanStep(s, Receive)
    ensures Exchange(input, ReceiverStep(s))
  {
    InHandAlongside(input, s, ReceiverStep(s));
    hide InHand, UpToNul;
  }

  lemma InHandAlongside(input: seq<Byte>, s: State, t: State)
    requires t.snd.off == s.snd.off && t.snd.ret == s.snd.ret && t.snd.buf == s.snd.buf
    ensures InHand(input, t) == InHand(input, s)
  {
  }

  lemma DeliveryKeepsInv(input: seq<Byte>, s: State, a: Action)
    requires Inv(input, s) && CanStep(s, a) && a != Send && a != Receive
    ensures Inv(input, Step(input, s, a))
  {
    InHandAlongside(input, s, Step(input, s, a));
    hide InHand, UpToNul;
  }

  lemma StepKeepsInv(input: seq<Byte>, s: State, a: Action)
    requires Inv(input, s) && CanStep(s, a)
    ensures Inv(input, Step(input, s, a))
  {
    hide Greeting, Exchange, Over;
    match a {
      case Send => SendKeepsInv(input, s);
      case Receive => ReceiveKeepsInv(input, s);
      case _ => DeliveryKeepsInv(input, s, a);
    }
  }

  // ----------------------------------------------------------------- all runs

  /** A finite run: `acts[k]` leads from `run[k]` to `run[k + 1]`. */
  ghost predicate IsRun(input: seq<Byte>, run: seq<State>, acts: seq<Action>) {
    && |run| == |acts| + 1 && Init(run[0])
    && forall k | 0 <= k < |acts| ::
         run[k].snd.off <= |input| && CanStep(run[k], acts[k]) && run[k + 1] == Step(input, run[k], acts[k])
  }

  lemma {:induction false} RunInv(input: seq<Byte>, run: seq<State>, acts: seq<Action>, k: nat)
    requires IsRun(input, run, acts) && k < |run|
    ensures Inv(input, run[k])
  {
    hide Inv, CanStep, Step, Init;
    if k == 0 {
      InitInv(input, run[0]);
    } else {
      RunInv(input, run, acts, k - 1);
      StepKeepsInv(input, run[k - 1], acts[k - 1]);
    }
  }

  lemma {:induction false} UpToNulCut(s: seq<Byte>, n: nat)
    requires n < |s| && s[n] == 0
    ensures UpToNul(s) == UpToNul(s[..n])
  {
    if n > 0 && s[0] != 0 {
      UpToNulCut(s[1..], n - 1);
      assert s[1..][..n - 1] == s[..n][1..];
    }
  }

  lemma LastStart(input: seq<Byte>, s: State)
    requires InHand(input, s) && s.snd.ret < CHUNK
    ensures Start(s) == Whole(input) && Start(s) / CHUNK == |input| / CHUNK
  {
  }

  lemma TailIsExpected(input: seq<Byte>, s: State)
    requires WroteTail(input, s)
    ensures s.rcv.out == Expected(input)
  {
    LastStart(input, s);
    UpToNulCut(s.snd.buf, s.snd.ret);
    assert input[Start(s)..s.snd.off] == input[Start(s)..];
  }

  /**
   Under every interleaving, a receiver that finishes has written the expected
   file and has sent one SIGUSR1 for each chunk, full or last, and one more.
   */
  lemma FinishedOutput(input: seq<Byte>, run: seq<State>, acts: seq<Action>, k: nat)
    requires IsRun(input, run, acts) && k < |run| && run[k].rcv.rc == ReceiverDone
    ensures run[k].rcv.out == Expected(input)
    ensures run[k].sig.acks == |input| / 8 + 2
    ensures var out, w := run[k].rcv.out, |input| / 8 * 8;
      && out <= input && |out| >= w && 0 !in out[w..]
      && (|out| < |input| ==> input[|out|] == 0)
    ensures run[k].rcv.out == input <==> 0 !in input[|input| / 8 * 8..]
  {
    ExpectedBytes(input);
    RunInv(input, run, acts, k);
    DoneOutput(input, run[k]);
    ArrivesIntact(input);
  }

  lemma DoneOutput(input: seq<Byte>, s: State)
    requires Inv(input, s) && s.rcv.rc == ReceiverDone
    ensures s.rcv.out == Expected(input) && s.sig.acks == |input| / CHUNK + 2
  {
    assert WroteTail(input, s) && s.sig.acks == Start(s) / CHUNK + 2;
    LastStart(input, s);
    TailIsExpected(input, s);
  }

  /** Whatever has been written before the last chunk is a prefix of the input made of full chunks. */
  lemma WrittenSoFar(input: seq<Byte>, s: State)
    requires Inv(input, s) && !Missed(input, s) && s.rcv.rc != ReceiverDone && s.rcv.rc != SendLastAck
    ensures s.rcv.out <= input && |s.rcv.out| % CHUNK == 0
  {
    if s.snd.sc == AwaitAck && s.snd.ret == CHUNK {
      assert s.snd.buf[..CHUNK] == s.snd.buf;
    }
    hide UpToNul;
  }

  /** The last chunk was taken for a full one. */
  predicate Missed(input: seq<Byte>, s: State) {
    |s.rcv.out| > |input| || (s.rcv.rc == WriteChunk && s.snd.ret < CHUNK)
  }

  /**
   When the receiver tests `i` it is 1 for every full chunk, and 0 for the last
   one unless SIGTERM is still pending.
   */
  lemma LastChunkIsKnown(input: seq<Byte>, s: State)
    requires Inv(input, s) && s.rcv.rc == TestLast
    ensures s.snd.ret == CHUNK ==> s.rcv.more
    ensures s.snd.ret < CHUNK ==> s.rcv.more == s.sig.last
  {
    hide InHand;
  }

  /** The last chunk is mistaken for a full one exactly when the test runs while SIGTERM is pending. */
  lemma MissedExactly(input: seq<Byte>, s: State, a: Action)
    requires Inv(input, s) && CanStep(s, a) && !Missed(input, s)
    ensures Missed(input, Step(input, s, a)) <==> a == Receive && s.rcv.rc == TestLast && s.sig.last
  {
    if a == Receive && s.rcv.rc == WriteTail {
      DoneLength(input, s);
    }
    hide UpToNul;
  }

  lemma DoneLength(input: seq<Byte>, s: State)
    requires Inv(input, s) && s.rcv.rc == WriteTail
    ensures |s.rcv.out| + |UpToNul(s.rcv.mem)| <= |input|
  {
    UpToNulCut(s.snd.buf, s.snd.ret);
  }

  /** SIGTERM is sent with the last chunk and again at the end, and at no other time. */
  lemma StopsSent(input: seq<Byte>, s: State)
    requires CanStep(s, Send) && s.snd.off <= |input|
    ensures SenderStep(input, s).sig.last
       <==> s.sig.last || (s.snd.sc == SayLast && s.snd.ret < 8) || s.snd.sc == SayEnd
  {
  }

  // ------------------------------------------------------ signals are not lost

  /**
   No SIGUSR1 is sent while one is pending at the same process, so nothing
   coalesces and no chunk is dropped; the announcing SIGTERM is not dropped either.
   */
  lemma NothingCoalesces(input: seq<Byte>, s: State)
    requires Inv(input, s)
    ensures s.snd.sc == QueueChunk ==> s.sig.chunk == None
    ensures s.rcv.rc == SendAck || s.rcv.rc == SendLastAck ==> !s.sig.ack
    ensures s.snd.sc == SayHello ==> !s.sig.hello
    ensures s.snd.sc == SayLast ==> !s.sig.last
  {
    hide InHand, UpToNul;
  }

  /**
   A flag is cleared only while the peer still has to act before it can answer:
   no wake-up is pending, and none can be sent before the flag is clear.
   */
  lemma NoWakeupErased(input: seq<Byte>, s: State)
    requires Inv(input, s)
    ensures s.snd.sc == ResetFlag || s.snd.sc == ClearFlag ==> !s.sig.ack && !CanStep(s, Receive)
    ensures s.rcv.rc == ClearReady ==> s.sig.chunk == None && !CanStep(s, Send)
    ensures s.rcv.rc == ClearReady || s.rcv.rc == SendAck ==> !s.sig.ack
  {
    hide InHand, UpToNul;
  }

  // ------------------------------------------------------ progress, termination

  predicate Finished(s: State) {
    s.snd.sc == SenderDone && s.rcv.rc == ReceiverDone
  }

  /** A reachable unfinished state is never stuck, unless the last chunk was missed. */
  lemma DeadlockFree(input: seq<Byte>, s: State) returns (a: Action)
    requires Inv(input, s) && !Finished(s) && !Missed(input, s)
    ensures CanStep(s, a)
  {
    a := if CanStep(s, Send) then Send else if CanStep(s, Receive) then Receive
         else if CanStep(s, DeliverAck) then DeliverAck
         else if CanStep(s, DeliverHello) then DeliverHello else DeliverChunk;
    hide UpToNul;
  }

  function SenderRank(sc: SenderAt): nat {
    match sc
    case ClearFlag => 9
    case SayHello => 8
    case AwaitHello => 7
    case ResetFlag => 8
    case SayLast => 7
    case QueueChunk => 6
    case AwaitAck => 5
    case ReadChunk => 4
    case SayEnd => 4
    case SenderDone => 3
  }

  function ReceiverRank(rc: ReceiverAt): nat {
    match rc
    case AwaitChunk => 7
    case TestLast => 6
    case WriteChunk => 5
    case WriteTail => 5
    case AwaitSender => 4
    case SendLastAck => 4
    case ClearReady => 3
    case SendAck => 2
    case ReceiverDone => 1
  }

  function Pending(s: State): nat {
    (if s.sig.ack then 1 else 0) + (if s.sig.hello then 1 else 0)
    + (if s.sig.last then 1 else 0) + (if s.sig.chunk.Some? then 1 else 0)
  }

  function SenderWork(input: seq<Byte>, snd: Sender): int {
    8 * (|input| - snd.off + (if snd.ret == CHUNK then 1 else 0)) + SenderRank(snd.sc)
  }

  function ReceiverWork(input: seq<Byte>, rc: ReceiverAt, acks: nat): int {
    8 * (|input| / CHUNK + 2 - acks) + ReceiverRank(rc)
  }

  function Measure(input: seq<Byte>, s: State): int {
    2 * SenderWork(input, s.snd) + 2 * ReceiverWork(input, s.rcv.rc, s.sig.acks) + Pending(s)
  }

  lemma SendMeasureFalls(input: seq<Byte>, s: State)
    requires s.snd.off <= |input| && CanStep(s, Send) && (s.snd.sc == ReadChunk ==> s.snd.ret == CHUNK)
    ensures Measure(input, SenderStep(input, s)) < Measure(input, s)
  {
    hide ReceiverWork;
  }

  lemma ReceiveMeasureFalls(input: seq<Byte>, s: State)
    requires CanStep(s, Receive)
    ensures Measure(input, ReceiverStep(s)) < Measure(input, s)
  {
    OneMorePending(s);
    RankFalls(s);
    hide UpToNul, SenderWork, Pending, ReceiverStep, ReceiverRank;
  }

  lemma RankFalls(s: State)
    requires CanStep(s, Receive)
    ensures ReceiverStep(s).snd == s.snd
    ensures ReceiverRank(ReceiverStep(s).rcv.rc) + 1
         <= ReceiverRank(s.rcv.rc) + 8 * (ReceiverStep(s).sig.acks - s.sig.acks)
  {
    hide UpToNul;
  }

  lemma OneMorePending(s: State)
    requires CanStep(s, Receive)
    ensures Pending(ReceiverStep(s)) <= Pending(s) + 1
  {
    hide UpToNul;
  }

  /** Every step lowers a natural number: no process steps forever. */
  lemma MeasureFalls(input: seq<Byte>, s: State, a: Action)
    requires Inv(input, s) && CanStep(s, a)
    ensures Measure(input, Step(input, s, a)) < Measure(input, s)
  {
    hide Greeting, Exchange, Over, SenderStep, ReceiverStep, SenderRank, ReceiverRank;
    match a {
      case Send => SendMeasureFalls(input, s);
      case Receive => ReceiveMeasureFalls(input, s);
      case _ =>
    }
  }

  lemma AcksBounded(input: seq<Byte>, s: State)
    requires Inv(input, s)
    ensures s.sig.acks <= |input| / CHUNK + 2
  {
    hide UpToNul;
  }

  lemma {:induction false} RunMeasure(input: seq<Byte>, run: seq<State>, acts: seq<Action>, k: nat)
    requires IsRun(input, run, acts) && k < |run|
    ensures k + Measure(input, run[k]) <= Measure(input, run[0])
  {
    hide Inv, CanStep, Step, Init, Measure;
    if k > 0 {
      RunMeasure(input, run, acts, k - 1);
      RunInv(input, run, acts, k - 1);
      MeasureFalls(input, run[k - 1], acts[k - 1]);
    }
  }

  lemma InitMeasure(input: seq<Byte>, s: State)
    requires Init(s)
    ensures Measure(input, s) <= 18 * |input| + 100
  {
  }

  lemma MeasureIsNatural(input: seq<Byte>, s: State)
    requires Inv(input, s)
    ensures Measure(input, s) >= 0
  {
    AcksBounded(input, s);
    hide Greeting, Exchange, Over;
  }

  /**
   Every run ends. One that cannot be continued has finished with the expected
   file, unless the last chunk was missed: then the sender is gone and the
   receiver waits for good.
   */
  lemma EveryRunEnds(input: seq<Byte>, run: seq<State>, acts: seq<Action>)
    requires IsRun(input, run, acts)
    ensures |acts| <= 18 * |input| + 100
    ensures (forall a :: !CanStep(run[|acts|], a)) ==>
              var end := run[|acts|];
              var out, w := end.rcv.out, |input| / 8 * 8;
              && end.snd.sc == SenderDone
              && if Missed(input, end) then
                   end.rcv.rc == AwaitChunk && |out| == w + 8 && out[..|input|] == input
                 else
                   && end.rcv.rc == ReceiverDone && out == Expected(input) && out <= input && |out| >= w
                   && 0 !in out[w..] && (|out| < |input| ==> input[|out|] == 0)
  {
    var end := run[|acts|];
    RunMeasure(input, run, acts, |acts|);
    InitMeasure(input, run[0]);
    RunInv(input, run, acts, |acts|);
    MeasureIsNatural(input, end);
    if forall a :: !CanStep(end, a) {
      if Missed(input, end) {
        MissedEnd(input, end);
      } else {
        if !Finished(end) {
          var a := DeadlockFree(input, end);
        }
        DoneOutput(input, end);
        ExpectedBytes(input);
      }
    }
  }

  lemma MissedEnd(input: seq<Byte>, s: State)
    requires Inv(input, s) && Missed(input, s)
    requires forall a :: !CanStep(s, a)
    ensures s.snd.sc == SenderDone && s.rcv.rc == AwaitChunk
    ensures |s.rcv.out| == |input| / 8 * 8 + 8 && s.rcv.out[..|input|] == input
  {
    assert !CanStep(s, Send) && !CanStep(s, Receive) && !CanStep(s, DeliverAck) && !CanStep(s, DeliverChunk);
    if s.rcv.rc == ReceiverDone {
      DoneOutput(input, s);
      ExpectedIsShort(input);
    } else {
      ChunkTooMany(input, s);
    }
    hide InHand, UpToNul;
  }

  /** A last chunk that was taken for a full one: the whole input, filled up to full chunks. */
  lemma ChunkTooMany(input: seq<Byte>, s: State)
    requires Inv(input, s) && s.snd.sc == SenderDone && s.rcv.rc != ReceiverDone
    ensures |s.rcv.out| == |input| / 8 * 8 + 8 && s.rcv.out[..|input|] == input
  {
    hide UpToNul;
    assert WroteChunk(input, s) && s.snd.ret < CHUNK;
    LastStart(input, s);
    var out, st := s.rcv.out, Start(s);
    assert out[..st] == input[..st] && out[st..|input|] == s.snd.buf[..s.snd.ret];
    assert out[..|input|] == out[..st] + out[st..|input|];
    assert input[..st] + input[st..] == input;
  }

  lemma ExpectedIsShort(input: seq<Byte>)
    ensures |Expected(input)| <= |input|
  {
  }

  /** When the sender returns, the receiver has written all it ever will. */
  lemma SenderReturns(input: seq<Byte>, run: seq<State>, acts: seq<Action>, k: nat)
    requires IsRun(input, run, acts) && k < |run| && run[k].snd.sc == SenderDone
    ensures var out, w := run[k].rcv.out, |input| / 8 * 8;
      if run[k].rcv.rc == ReceiverDone then
        && out == Expected(input) && out <= input && |out| >= w
        && 0 !in out[w..] && (|out| < |input| ==> input[|out|] == 0)
      else run[k].rcv.rc == AwaitChunk && |out| == w + 8 && out[..|input|] == input
  {
    RunInv(input, run, acts, k);
    if run[k].rcv.rc == ReceiverDone {
      DoneOutput(input, run[k]);
      ExpectedBytes(input);
    } else {
      ChunkTooMany(input, run[k]);
    }
    hide InHand, UpToNul, Expected;
  }

  /** A chunk was delivered and `i` has not been read for it. */
  predicate HasChunk(s: State) {
    s.rcv.rc == TestLast || (s.rcv.rc == AwaitChunk && s.rcv.rflag && s.snd.sc == AwaitAck)
  }

  /** If no chunk is delivered while SIGTERM is pending, nothing is ever missed. */
  lemma {:induction false} OrderedDelivery(input: seq<Byte>, run: seq<State>, acts: seq<Action>, k: nat)
    requires IsRun(input, run, acts) && k < |run|
    requires forall j | 0 <= j < |acts| :: acts[j] == DeliverChunk ==> !run[j].sig.last
    ensures !Missed(input, run[k])
    ensures HasChunk(run[k]) ==> !run[k].sig.last
  {
    RunInv(input, run, acts, k);
    if k > 0 {
      OrderedDelivery(input, run, acts, k - 1);
      RunInv(input, run, acts, k - 1);
      OrderedStep(input, run[k - 1], acts[k - 1]);
    } else {
      assert Init(run[0]);
    }
  }

  lemma OrderedStep(input: seq<Byte>, s: State, a: Action)
    requires Inv(input, s) && CanStep(s, a) && !Missed(input, s)
    requires a == DeliverChunk ==> !s.sig.last
    requires HasChunk(s) ==> !s.sig.last
    ensures !Missed(input, Step(input, s, a))
    ensures HasChunk(Step(input, s, a)) ==> !Step(input, s, a).sig.last
  {
    MissedExactly(input, s, a);
    hide InHand, UpToNul, Missed;
  }

  // ------------------------------------------------------------------ the miss

  lemma Extend(input: seq<Byte>, run: seq<State>, acts: seq<Action>, a: Action)
    returns (run': seq<State>, acts': seq<Action>)
    requires IsRun(input, run, acts) && run[|acts|].snd.off <= |input| && CanStep(run[|acts|], a)
    ensures IsRun(input, run', acts') && run'[|acts'|] == Step(input, run[|acts|], a)
  {
    run', acts' := run + [Step(input, run[|acts|], a)], acts + [a];
  }

  /** The greeting is over and the sender may read the empty file. */
  lemma Greeted(start: State) returns (run: seq<State>, acts: seq<Action>)
    requires Init(start)
    ensures IsRun([], run, acts)
    ensures run[|acts|].snd.sc == ReadChunk && run[|acts|].snd.off == 0 && run[|acts|].rcv.rc == AwaitChunk
    ensures run[|acts|].rcv.more && run[|acts|].sig == Signals(false, false, false, None, 1)
  {
    run, acts := [start], [];
    hide IsRun;
    run, acts := Extend([], run, acts, Send);
    run, acts := Extend([], run, acts, Send);
    run, acts := Extend([], run, acts, DeliverHello);
    run, acts := Extend([], run, acts, Receive);
    run, acts := Extend([], run, acts, Receive);
    run, acts := Extend([], run, acts, Receive);
    run, acts := Extend([], run, acts, DeliverAck);
    run, acts := Extend([], run, acts, Send);
  }

  /** With unordered delivery the miss does happen, already for the empty file. */
  lemma MissHappens(start: State) returns (run: seq<State>, acts: seq<Action>)
    requires Init(start)
    ensures IsRun([], run, acts) && Missed([], run[|acts|])
  {
    run, acts := Greeted(start);
    hide IsRun;
    run, acts := Extend([], run, acts, Send);
    run, acts := Extend([], run, acts, Send);
    run, acts := Extend([], run, acts, Send);
    run, acts := Extend([], run, acts, Send);
    run, acts := Extend([], run, acts, DeliverChunk);
    run, acts := Extend([], run, acts, Receive);
    run, acts := Extend([], run, acts, Receive);
  }
}
