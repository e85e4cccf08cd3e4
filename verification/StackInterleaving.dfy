/**
 The calls `push` and `pop` of sh_stack/stack.c, cut into their semaphore
 operations and interleaved arbitrarily by any number of processes. The count
 is read before the mutex is taken, so a call may act on a stale count.

 Two results: the stack is a bounded last-in-first-out sequence as long as no
 call commits while another is between its final read and its own commit; and
 for one pusher and one popper, with no such proviso, memory and semaphores
 stay safe, while the order of the elements is kept exactly when the count
 read is still the count, or the slots happen to agree.
 */
module StackInterleaving {
  import opened SharedStack

  type Pid = nat

  /** Where a process stands in a call; `c` is the count it read last. */
  datatype Local<V> =
    | Idle
    | PushReads(v: V) | PushBlocked(v: V) | PushReady(v: V, c: nat)
    | PushLocked(v: V, c: nat) | PushStored(v: V, c: nat) | PushRaised(v: V)
    | PopReads | PopBlocked | PopReady(c: nat)
    | PopLocked(c: nat) | PopLoaded(c: nat, x: V) | PopLowered(x: V)

  /** The three semaphores and the slots. */
  datatype Shared<V> = Shared(size: nat, count: nat, mutex: nat, slots: seq<V>)

  datatype State<V> = State(mem: Shared<V>, procs: map<Pid, Local<V>>, wait: map<Pid, Wait>)

  /** What a step means to the caller: a commit, or a call that failed. */
  datatype Event<V> = Silent | Pushed(v: V) | Popped(x: V) | Overflow | Underflow

  datatype Action<V> = StartPush(v: V) | StartPop | SetMode(w: Wait) | Go

  /** A semaphore that is 0 blocks; a slot access needs a slot. */
  predicate Ready<V>(l: Local<V>, m: Shared<V>) {
    match l
    case Idle => false
    case PushReady(_, _) => m.mutex > 0
    case PushLocked(_, c) => c < |m.slots|
    case PopReady(_) => m.mutex > 0
    case PopLocked(c) => 0 < c <= |m.slots|
    case PopLoaded(_, _) => m.count > 0
    case _ => true
  }

  function NextLocal<V>(l: Local<V>, w: Wait, m: Shared<V>): Local<V>
    requires Ready(l, m)
  {
    match l
    case PushReads(v) =>
      if m.count != m.size then PushReady(v, m.count) else if w == Now then Idle else PushBlocked(v)
    case PushBlocked(v) =>
      if m.count != m.size then PushReady(v, m.count) else if w == Forever then PushBlocked(v) else Idle
    case PushReady(v, c) => PushLocked(v, c)
    case PushLocked(v, c) => PushStored(v, c)
    case PushStored(v, c) => PushRaised(v)
    case PushRaised(v) => Idle
    case PopReads =>
      if m.count != 0 then PopReady(m.count) else if w == Now then Idle else PopBlocked
    case PopBlocked =>
      if m.count != 0 then PopReady(m.count) else if w == Forever then PopBlocked else Idle
    case PopReady(c) => PopLocked(c)
    case PopLocked(c) => PopLoaded(c, m.slots[c - 1])
    case PopLoaded(c, x) => PopLowered(x)
    case PopLowered(x) => Idle
  }

  function NextShared<V>(l: Local<V>, m: Shared<V>): Shared<V>
    requires Ready(l, m)
  {
    match l
    case PushReady(_, _) => m.(mutex := m.mutex - 1)
    case PushLocked(v, c) => m.(slots := m.slots[c := v])
    case PushStored(_, _) => m.(count := m.count + 1)
    case PushRaised(_) => m.(mutex := m.mutex + 1)
    case PopReady(_) => m.(mutex := m.mutex - 1)
    case PopLoaded(_, _) => m.(count := m.count - 1)
    case PopLowered(_) => m.(mutex := m.mutex + 1)
    case _ => m
  }

  function EventOf<V>(l: Local<V>, w: Wait, m: Shared<V>): Event<V>
    requires Ready(l, m)
  {
    match l
    case PushStored(v, _) => Pushed(v)
    case PopLoaded(_, x) => Popped(x)
    case PushReads(_) => if m.count == m.size && w == Now then Overflow else Silent
    case PushBlocked(_) => if m.count == m.size && w != Forever then Overflow else Silent
    case PopReads => if m.count == 0 && w == Now then Underflow else Silent
    case PopBlocked => if m.count == 0 && w != Forever then Underflow else Silent
    case _ => Silent
  }

  /** An idle process may start a call or set its wait mode; any other goes on with its call. */
  predicate CanStep<V>(s: State<V>, p: Pid, a: Action<V>) {
    && p in s.procs && p in s.wait
    && if a == Go then Ready(s.procs[p], s.mem) else s.procs[p] == Idle
  }

  function Step<V>(s: State<V>, p: Pid, a: Action<V>): State<V>
    requires CanStep(s, p, a)
  {
    match a
    case StartPush(v) => s.(procs := s.procs[p := PushReads(v)])
    case StartPop => s.(procs := s.procs[p := PopReads])
    case SetMode(w) => s.(wait := s.wait[p := w])
    case Go => s.(procs := s.procs[p := NextLocal(s.procs[p], s.wait[p], s.mem)], mem := NextShared(s.procs[p], s.mem))
  }

  // ---------------------------------------------------------------- mutual exclusion

  predicate Holds<V>(l: Local<V>) {
    l.PushLocked? || l.PushStored? || l.PushRaised? || l.PopLocked? || l.PopLoaded? || l.PopLowered?
  }

  /** At most one process is between its down and its up of the mutex. */
  ghost predicate Exclusive<V>(s: State<V>) {
    && s.mem.mutex <= 1
    && (forall p :: p in s.procs && Holds(s.procs[p]) ==> s.mem.mutex == 0)
    && (forall p, q :: p in s.procs && q in s.procs && Holds(s.procs[p]) && Holds(s.procs[q]) ==> p == q)
  }

  lemma HoldsNext<V>(l: Local<V>, w: Wait, m: Shared<V>)
    requires Ready(l, m)
    ensures var taken, freed := l.PushReady? || l.PopReady?, l.PushRaised? || l.PopLowered?;
            && (taken ==>
                  m.mutex > 0 && !Holds(l) && Holds(NextLocal(l, w, m)) && NextShared(l, m).mutex == m.mutex - 1)
            && (freed ==> Holds(l) && !Holds(NextLocal(l, w, m)) && NextShared(l, m).mutex == m.mutex + 1)
            && (!taken && !freed ==> Holds(NextLocal(l, w, m)) == Holds(l) && NextShared(l, m).mutex == m.mutex)
  {
  }

  lemma StepKeepsExclusive<V>(s: State<V>, p: Pid, a: Action<V>)
    requires Exclusive(s) && CanStep(s, p, a)
    ensures Exclusive(Step(s, p, a))
  {
    if a == Go {
      HoldsNext(s.procs[p], s.wait[p], s.mem);
    }
    hide NextLocal, NextShared, Ready;
  }

  // ------------------------------------------- any number of processes, undisturbed calls

  /** Between a call's final read of the count and its commit. */
  predicate InWindow<V>(l: Local<V>) {
    l.PushReady? || l.PushLocked? || l.PushStored? || l.PopReady? || l.PopLocked? || l.PopLoaded?
  }

  /** The step does not commit while another call is between its final read and its commit. */
  ghost predicate Undisturbed<V>(s: State<V>, p: Pid, a: Action<V>) {
    a == Go && p in s.procs && (s.procs[p].PushStored? || s.procs[p].PopLoaded?) ==>
      forall q :: q in s.procs && q != p ==> !InWindow(s.procs[q])
  }

  function Contents<V>(m: Shared<V>): seq<V>
    requires m.count <= |m.slots|
  {
    m.slots[..m.count]
  }

  /** The count a call remembers is the count, and what it stored or loaded is there. */
  ghost predicate Accurate<V>(l: Local<V>, m: Shared<V>) {
    match l
    case PushReady(_, c) => c == m.count < m.size
    case PushLocked(_, c) => c == m.count < m.size
    case PushStored(v, c) => c == m.count < m.size && c < |m.slots| && m.slots[c] == v
    case PopReady(c) => 0 < c == m.count
    case PopLocked(c) => 0 < c == m.count
    case PopLoaded(c, x) => 0 < c == m.count <= |m.slots| && m.slots[c - 1] == x
    case _ => true
  }

  ghost predicate Inv<V>(s: State<V>) {
    && Exclusive(s) && s.mem.count <= s.mem.size == |s.mem.slots|
    && forall p :: p in s.procs ==> Accurate(s.procs[p], s.mem)
  }

  /** The effect of an event on a bounded last-in-first-out sequence. */
  ghost predicate Lifo<V>(cap: nat, before: seq<V>, ev: Event<V>, after: seq<V>) {
    match ev
    case Silent => after == before
    case Pushed(v) => |before| < cap && after == before + [v]
    case Popped(x) => before == after + [x]
    case Overflow => |before| == cap && after == before
    case Underflow => before == [] && after == before
  }

  function StepEvent<V>(s: State<V>, p: Pid, a: Action<V>): Event<V>
    requires CanStep(s, p, a)
  {
    if a == Go then EventOf(s.procs[p], s.wait[p], s.mem) else Silent
  }

  lemma LocalRefines<V>(l: Local<V>, w: Wait, m: Shared<V>)
    requires Ready(l, m) && Accurate(l, m) && m.count <= m.size == |m.slots|
    ensures var m' := NextShared(l, m);
            && Accurate(NextLocal(l, w, m), m') && m'.count <= m'.size == |m'.slots| && m'.size == m.size
            && Lifo(m.size, Contents(m), EventOf(l, w, m), Contents(m'))
  {
  }

  /** What one process does keeps the others' view accurate, unless it commits. */
  lemma OthersAccurate<V>(l: Local<V>, m: Shared<V>, l2: Local<V>)
    requires Ready(l, m) && Accurate(l, m) && Accurate(l2, m) && m.count <= m.size == |m.slots|
    requires Holds(l) ==> !Holds(l2)
    requires l.PushStored? || l.PopLoaded? ==> !InWindow(l2)
    ensures Accurate(l2, NextShared(l, m))
  {
  }

  lemma StepRefines<V>(s: State<V>, p: Pid, a: Action<V>)
    requires Inv(s) && CanStep(s, p, a) && Undisturbed(s, p, a)
    ensures Inv(Step(s, p, a)) && Step(s, p, a).mem.size == s.mem.size
    ensures Lifo(s.mem.size, Contents(s.mem), StepEvent(s, p, a), Contents(Step(s, p, a).mem))
  {
    StepKeepsExclusive(s, p, a);
    if a == Go {
      LocalRefines(s.procs[p], s.wait[p], s.mem);
      forall q | q in s.procs && q != p
        ensures Accurate(s.procs[q], Step(s, p, a).mem)
      {
        OthersAccurate(s.procs[p], s.mem, s.procs[q]);
      }
    }
    hide NextLocal, NextShared, Ready, Lifo, EventOf, Contents;
  }

  /** A run: process `who[k]` does `acts[k]` in `run[k]`. */
  ghost predicate IsRun<V>(run: seq<State<V>>, who: seq<Pid>, acts: seq<Action<V>>) {
    && |run| == |acts| + 1 && |who| == |acts|
    && forall k | 0 <= k < |acts| :: CanStep(run[k], who[k], acts[k]) && run[k + 1] == Step(run[k], who[k], acts[k])
  }

  /** The commits of the first `k` steps, as whole calls. */
  ghost function Commits<V>(run: seq<State<V>>, who: seq<Pid>, acts: seq<Action<V>>, k: nat): seq<Turn<V>>
    requires IsRun(run, who, acts) && k <= |acts|
  {
    if k == 0 then []
    else Commits(run, who, acts, k - 1) + TurnOf(StepEvent(run[k - 1], who[k - 1], acts[k - 1]))
  }

  function TurnOf<V>(ev: Event<V>): seq<Turn<V>> {
    match ev
    case Pushed(v) => [Pushes(v)]
    case Popped(_) => [Pops]
    case _ => []
  }

  lemma LifoApplies<V>(cap: nat, before: seq<V>, ev: Event<V>, after: seq<V>)
    requires Lifo(cap, before, ev, after)
    ensures TurnOf(ev) == [] ==> after == before
    ensures TurnOf(ev) != [] ==> after == Apply(cap, before, TurnOf(ev)[0])
    ensures ev.Overflow? ==> forall v: V :: Apply(cap, before, Pushes(v)) == after == before
    ensures ev.Underflow? ==> Apply(cap, before, Pops) == after == before
    ensures ev.Pushed? ==> |after| == |before| + 1 && before <= after && after[|before|] == ev.v
    ensures ev.Popped? ==> |before| == |after| + 1 && after <= before && before[|after|] == ev.x
  {
  }

  /**
   Whatever the number of processes and their wait modes, a run without
   disturbed calls is a run of a bounded last-in-first-out sequence: each
   commit is one operation on it, each failure finds it full or empty.
   */
  lemma {:induction false} RunRefines<V>(run: seq<State<V>>, who: seq<Pid>, acts: seq<Action<V>>, k: nat)
    requires IsRun(run, who, acts) && k <= |acts| && Inv(run[0])
    requires forall j | 0 <= j < |acts| :: Undisturbed(run[j], who[j], acts[j])
    ensures Inv(run[k]) && run[k].mem.size == run[0].mem.size
    ensures Contents(run[k].mem) == ApplyAll(run[0].mem.size, Contents(run[0].mem), Commits(run, who, acts, k))
    ensures k < |acts| ==>
              Inv(run[k + 1])
              && Lifo(run[0].mem.size, Contents(run[k].mem), StepEvent(run[k], who[k], acts[k]),
                      Contents(run[k + 1].mem))
  {
    if k > 0 {
      RunRefines(run, who, acts, k - 1);
      CommitOne(run, who, acts, k);
    }
    if k < |acts| {
      StepRefines(run[k], who[k], acts[k]);
    }
    hide Inv, Lifo, Undisturbed, CanStep, Step, StepEvent, Contents, Commits;
  }

  lemma CommitOne<V>(run: seq<State<V>>, who: seq<Pid>, acts: seq<Action<V>>, k: nat)
    requires IsRun(run, who, acts) && 0 < k <= |acts| && Inv(run[k - 1]) && Inv(run[k])
    requires run[k - 1].mem.size == run[0].mem.size
    requires Lifo(run[0].mem.size, Contents(run[k - 1].mem), StepEvent(run[k - 1], who[k - 1], acts[k - 1]),
                  Contents(run[k].mem))
    requires run[0].mem.count <= |run[0].mem.slots|
    requires Contents(run[k - 1].mem) == ApplyAll(run[0].mem.size, Contents(run[0].mem), Commits(run, who, acts, k - 1))
    ensures Contents(run[k].mem) == ApplyAll(run[0].mem.size, Contents(run[0].mem), Commits(run, who, acts, k))
    ensures run[k].mem.size == run[k - 1].mem.size
  {
    var ev := StepEvent(run[k - 1], who[k - 1], acts[k - 1]);
    SizeKept(run[k - 1], who[k - 1], acts[k - 1]);
    LifoApplies(run[0].mem.size, Contents(run[k - 1].mem), ev, Contents(run[k].mem));
    var ts := Commits(run, who, acts, k);
    hide Inv, Lifo, CanStep, Step, StepEvent, Contents, Apply;
    if TurnOf(ev) == [] {
      assert ts == Commits(run, who, acts, k - 1);
    } else {
      assert ts[..|ts| - 1] == Commits(run, who, acts, k - 1);
    }
  }

  lemma SizeKept<V>(s: State<V>, p: Pid, a: Action<V>)
    requires CanStep(s, p, a)
    ensures Step(s, p, a).mem.size == s.mem.size
  {
  }

  // ------------------------------------------------------- what a call comes to

  /**
   Which step of a call has which outcome. A call fails only on finding the stack
   full, or empty: at its first read in mode Now, at its second in mode Timed.
   */
  lemma Outcomes<V>(l: Local<V>, w: Wait, m: Shared<V>)
    requires Ready(l, m)
    ensures EventOf(l, w, m).Overflow? <==>
              m.count == m.size && ((l.PushReads? && w == Now) || (l.PushBlocked? && w != Forever))
    ensures EventOf(l, w, m).Underflow? <==>
              m.count == 0 && ((l.PopReads? && w == Now) || (l.PopBlocked? && w != Forever))
    ensures EventOf(l, w, m).Pushed? <==> l.PushStored?
    ensures EventOf(l, w, m).Popped? <==> l.PopLoaded?
    ensures EventOf(l, w, m).Overflow? || EventOf(l, w, m).Underflow? ==> NextLocal(l, w, m) == Idle
    ensures NextLocal(l, w, m) == Idle ==>
              || l.PushRaised? || l.PopLowered?
              || ((EventOf(l, w, m).Overflow? || EventOf(l, w, m).Underflow?) && w != Forever)
  {
  }

  function Left<V>(l: Local<V>): nat {
    match l
    case Idle => 0
    case PushReads(_) => 6
    case PushBlocked(_) => 5
    case PushReady(_, _) => 4
    case PushLocked(_, _) => 3
    case PushStored(_, _) => 2
    case PushRaised(_) => 1
    case PopReads => 6
    case PopBlocked => 5
    case PopReady(_) => 4
    case PopLocked(_) => 3
    case PopLoaded(_, _) => 2
    case PopLowered(_) => 1
  }

  /** A call comes nearer to its end with each step, except while it waits in mode Forever for a full or empty stack. */
  lemma CallAdvances<V>(l: Local<V>, w: Wait, m: Shared<V>)
    requires Ready(l, m)
    ensures Left(NextLocal(l, w, m)) < Left(l) <==>
              !(w == Forever && ((l.PushBlocked? && m.count == m.size) || (l.PopBlocked? && m.count == 0)))
    ensures Left(NextLocal(l, w, m)) <= Left(l) <= 6
  {
  }

  /** A call that was begun by `start` in mode `w` is at `l`, and has had the outcome `ev`, or none yet. */
  ghost predicate Stage<V>(start: Action<V>, w: Wait, l: Local<V>, ev: Event<V>) {
    match l
    case Idle =>
      || (start.StartPush? && (ev == Pushed(start.v) || (ev == Overflow && w != Forever)))
      || (start.StartPop? && (ev.Popped? || (ev == Underflow && w != Forever)))
    case PushRaised(_) => start.StartPush? && ev == Pushed(start.v)
    case PopLowered(x) => start.StartPop? && ev == Popped(x)
    case PushReads(v) => start == StartPush(v) && ev == Silent
    case PushBlocked(v) => start == StartPush(v) && ev == Silent && w != Now
    case PushReady(v, _) => start == StartPush(v) && ev == Silent
    case PushLocked(v, _) => start == StartPush(v) && ev == Silent
    case PushStored(v, _) => start == StartPush(v) && ev == Silent
    case PopBlocked => start == StartPop && ev == Silent && w != Now
    case _ => start == StartPop && ev == Silent
  }

  lemma StageNext<V>(start: Action<V>, w: Wait, l: Local<V>, m: Shared<V>, ev: Event<V>)
    requires Ready(l, m) && Stage(start, w, l, ev)
    ensures EventOf(l, w, m) == Silent || ev == Silent
    ensures Stage(start, w, NextLocal(l, w, m), if EventOf(l, w, m) == Silent then ev else EventOf(l, w, m))
  {
  }

  /** Follows a call of process `p` from its beginning in step `i` up to state `j`, as long as it goes on. */
  lemma {:induction false} CallProgresses<V>(run: seq<State<V>>, who: seq<Pid>, acts: seq<Action<V>>, p: Pid,
                                             i: nat, j: nat)
    returns (k: nat, ev: Event<V>)
    requires IsRun(run, who, acts) && i < j <= |acts|
    requires who[i] == p && (acts[i].StartPush? || acts[i].StartPop?)
    requires forall h | i < h < j :: p in run[h].procs ==> run[h].procs[p] != Idle
    ensures p in run[i].wait && p in run[j].procs && p in run[j].wait && run[j].wait[p] == run[i].wait[p]
    ensures Stage(acts[i], run[i].wait[p], run[j].procs[p], ev)
    ensures if ev == Silent then k == j else i < k < j && who[k] == p && StepEvent(run[k], p, acts[k]) == ev
    ensures forall h | i < h < j && h != k && who[h] == p :: StepEvent(run[h], p, acts[h]) == Silent
    decreases j
  {
    hide NextLocal, NextShared, EventOf, Ready;
    if j == i + 1 {
      k, ev := j, Silent;
    } else {
      hide Stage;
      k, ev := CallProgresses(run, who, acts, p, i, j - 1);
      var s, a := run[j - 1], acts[j - 1];
      assert CanStep(s, who[j - 1], a) && run[j] == Step(s, who[j - 1], a);
      if who[j - 1] == p {
        StageNext(acts[i], s.wait[p], s.procs[p], s.mem, ev);
        if StepEvent(s, p, a) != Silent {
          k, ev := j - 1, StepEvent(s, p, a);
        } else if ev == Silent {
          k := j;
        }
      } else if ev == Silent {
        k := j;
      }
    }
  }

  /**
   Every call that ends has exactly one outcome, whatever the others do: a push
   has put its value on the stack or found it full, a pop has taken a value or
   found it empty, and in mode Forever it never fails.
   */
  lemma CallHasOneOutcome<V>(run: seq<State<V>>, who: seq<Pid>, acts: seq<Action<V>>, p: Pid, i: nat, j: nat)
    returns (k: nat)
    requires IsRun(run, who, acts) && i < j <= |acts|
    requires who[i] == p && (acts[i].StartPush? || acts[i].StartPop?)
    requires forall h | i < h < j :: p in run[h].procs ==> run[h].procs[p] != Idle
    requires p in run[j].procs && run[j].procs[p] == Idle
    ensures i < k < j && who[k] == p && p in run[i].wait
    ensures acts[i].StartPush? ==>
              || StepEvent(run[k], p, acts[k]) == Pushed(acts[i].v)
              || (StepEvent(run[k], p, acts[k]) == Overflow && run[i].wait[p] != Forever)
    ensures acts[i].StartPop? ==>
              || StepEvent(run[k], p, acts[k]).Popped?
              || (StepEvent(run[k], p, acts[k]) == Underflow && run[i].wait[p] != Forever)
    ensures forall h | i < h < j && h != k && who[h] == p :: StepEvent(run[h], p, acts[h]) == Silent
  {
    var ev;
    k, ev := CallProgresses(run, who, acts, p, i, j);
    hide NextLocal, NextShared, EventOf, Ready, StepEvent, CanStep, Step;
  }

  // --------------------------------------------------- one pusher and one popper

  predicate Pushing<V>(l: Local<V>) {
    l.Idle? || l.PushReads? || l.PushBlocked? || l.PushReady? || l.PushLocked? || l.PushStored? || l.PushRaised?
  }

  predicate Popping<V>(l: Local<V>) {
    l.Idle? || l.PopReads? || l.PopBlocked? || l.PopReady? || l.PopLocked? || l.PopLoaded? || l.PopLowered?
  }

  /** The pusher's remembered count can only be too high, the popper's only too low. */
  ghost predicate Stale<V>(l: Local<V>, m: Shared<V>) {
    match l
    case PushReady(_, c) => m.count <= c < m.size
    case PushLocked(_, c) => m.count <= c < m.size
    case PushStored(v, c) => m.count <= c < m.size && c < |m.slots| && m.slots[c] == v
    case PopReady(c) => 0 < c <= m.count
    case PopLocked(c) => 0 < c <= m.count
    case PopLoaded(c, x) => 0 < c <= m.count <= |m.slots| && m.slots[c - 1] == x
    case _ => true
  }

  /** Two processes: 0 pushes, 1 pops. */
  ghost predicate Pair<V>(s: State<V>) {
    && s.procs.Keys == {0, 1} && Pushing(s.procs[0]) && Popping(s.procs[1])
    && Exclusive(s) && s.mem.count <= s.mem.size == |s.mem.slots|
    && Stale(s.procs[0], s.mem) && Stale(s.procs[1], s.mem)
  }

  predicate PairAction<V>(p: Pid, a: Action<V>) {
    (a.StartPush? ==> p == 0) && (a.StartPop? ==> p == 1)
  }

  lemma PairLocal<V>(l: Local<V>, w: Wait, m: Shared<V>, other: Local<V>)
    requires Ready(l, m) && Stale(l, m) && Stale(other, m) && m.count <= m.size == |m.slots|
    requires (Pushing(l) && Popping(other)) || (Popping(l) && Pushing(other))
    requires Holds(l) ==> !Holds(other)
    ensures var m' := NextShared(l, m);
            && Stale(NextLocal(l, w, m), m') && Stale(other, m') && m'.count <= m'.size == |m'.slots|
    ensures Pushing(l) ==> Pushing(NextLocal(l, w, m))
    ensures Popping(l) ==> Popping(NextLocal(l, w, m))
  {
  }

  lemma StepKeepsPair<V>(s: State<V>, p: Pid, a: Action<V>)
    requires Pair(s) && CanStep(s, p, a) && PairAction(p, a)
    ensures Pair(Step(s, p, a))
  {
    StepKeepsExclusive(s, p, a);
    if a == Go {
      PairLocal(s.procs[p], s.wait[p], s.mem, s.procs[1 - p]);
    }
    hide NextLocal, NextShared, Ready;
  }

  /**
   In every interleaving of one pusher and one popper the two exclude each
   other, the count stays between 0 and the size, every slot access finds its
   slot, and the popper never waits for the count while it holds the mutex.
   */
  lemma {:induction false} PairIsSafe<V>(run: seq<State<V>>, who: seq<Pid>, acts: seq<Action<V>>, k: nat)
    requires IsRun(run, who, acts) && k < |run| && Pair(run[0])
    requires forall j | 0 <= j < |acts| :: PairAction(who[j], acts[j])
    ensures Pair(run[k]) && run[k].mem.count <= run[k].mem.size
    ensures !(Holds(run[k].procs[0]) && Holds(run[k].procs[1]))
    ensures forall p | p in run[k].procs && Holds(run[k].procs[p]) :: Ready(run[k].procs[p], run[k].mem)
  {
    if k > 0 {
      PairIsSafe(run, who, acts, k - 1);
      StepKeepsPair(run[k - 1], who[k - 1], acts[k - 1]);
    }
    assert Pair(run[k]) ==> 0 in run[k].procs && 1 in run[k].procs;
  }

  /**
   A push by the pair appends its value exactly if its count is current, or the
   slot it exposes holds that value anyway.
   */
  lemma PushKeepsOrder<V>(s: State<V>)
    requires Pair(s) && s.procs[0].PushStored? && CanStep(s, 0, Go)
    ensures var l, m := s.procs[0], s.mem;
            Contents(Step(s, 0, Go).mem) == Contents(m) + [l.v] <==> l.c == m.count || m.slots[m.count] == l.v
  {
    var m := s.mem;
    assert m.slots[..m.count + 1] == m.slots[..m.count] + [m.slots[m.count]];
  }

  /** A pop by the pair takes the last element exactly if its count is current, or the slots agree. */
  lemma PopKeepsOrder<V>(s: State<V>)
    requires Pair(s) && s.procs[1].PopLoaded? && CanStep(s, 1, Go)
    ensures var l, m := s.procs[1], s.mem;
            Contents(m) == Contents(Step(s, 1, Go).mem) + [l.x] <==>
              l.c == m.count || m.slots[m.count - 1] == m.slots[l.c - 1]
  {
    var m := s.mem;
    assert m.slots[..m.count] == m.slots[..m.count - 1] + [m.slots[m.count - 1]];
  }

  lemma Extend<V>(run: seq<State<V>>, who: seq<Pid>, acts: seq<Action<V>>, p: Pid, a: Action<V>)
    returns (run': seq<State<V>>, who': seq<Pid>, acts': seq<Action<V>>)
    requires IsRun(run, who, acts) && CanStep(run[|acts|], p, a)
    ensures IsRun(run', who', acts') && who' == who + [p] && acts' == acts + [a]
    ensures run' == run + [Step(run[|acts|], p, a)]
  {
    run', who', acts' := run + [Step(run[|acts|], p, a)], who + [p], acts + [a];
  }

  ghost predicate Pairing<V>(s: State<V>, m: Shared<V>, pusher: Local<V>, popper: Local<V>) {
    && s.mem == m && s.wait == map[0 := Now, 1 := Now] && s.procs.Keys == {0, 1}
    && s.procs[0] == pusher && s.procs[1] == popper
  }

  /** One of the pair goes on with its call. */
  lemma GoOn<V>(run: seq<State<V>>, who: seq<Pid>, acts: seq<Action<V>>, p: Pid,
                m: Shared<V>, l: Local<V>, other: Local<V>)
    returns (run': seq<State<V>>, who': seq<Pid>, acts': seq<Action<V>>)
    requires p <= 1 && IsRun(run, who, acts) && Ready(l, m)
    requires if p == 0 then Pairing(run[|acts|], m, l, other) else Pairing(run[|acts|], m, other, l)
    ensures IsRun(run', who', acts') && who' == who + [p] && acts' == acts + [Go]
    ensures |run| == |acts| + 1 && |who| == |acts| && run' == run + [run'[|acts'|]]
    ensures var m', l' := NextShared(l, m), NextLocal(l, Now, m);
            if p == 0 then Pairing(run'[|acts'|], m', l', other) else Pairing(run'[|acts'|], m', other, l')
    ensures CanStep(run'[|acts|], who'[|acts|], acts'[|acts|])
    ensures StepEvent(run'[|acts|], who'[|acts|], acts'[|acts|]) == EventOf(l, Now, m)
  {
    run', who', acts' := Extend(run, who, acts, p, Go);
    hide NextLocal, NextShared;
  }

  lemma Starts<V>(x: V, y: V, v: V) returns (run: seq<State<V>>, who: seq<Pid>, acts: seq<Action<V>>)
    ensures IsRun(run, who, acts) && |acts| == 2 && Pair(run[0])
    ensures Pairing(run[0], Shared(2, 1, 1, [x, y]), Idle, Idle)
    ensures Pairing(run[2], Shared(2, 1, 1, [x, y]), PushReads(v), PopReads)
  {
    var s := State(Shared(2, 1, 1, [x, y]), map[0 := Idle, 1 := Idle], map[0 := Now, 1 := Now]);
    run, who, acts := Extend([s], [], [], 0, StartPush(v));
    run, who, acts := Extend(run, who, acts, 1, StartPop);
  }

  lemma StaleRead<V>(x: V, y: V, v: V) returns (run: seq<State<V>>, who: seq<Pid>, acts: seq<Action<V>>)
    ensures IsRun(run, who, acts) && |acts| == 4 && Pair(run[0])
    ensures Pairing(run[0], Shared(2, 1, 1, [x, y]), Idle, Idle)
    ensures Pairing(run[4], Shared(2, 1, 1, [x, y]), PushReady(v, 1), PopReady(1))
  {
    run, who, acts := Starts(x, y, v);
    hide IsRun, Pair, Pairing, CanStep, StepEvent;
    run, who, acts := GoOn(run, who, acts, 0, Shared(2, 1, 1, [x, y]), PushReads(v), PopReads);
    run, who, acts := GoOn(run, who, acts, 1, Shared(2, 1, 1, [x, y]), PopReads, PushReady(v, 1));
  }

  lemma PopCommits<V>(x: V, y: V, v: V) returns (run: seq<State<V>>, who: seq<Pid>, acts: seq<Action<V>>)
    ensures IsRun(run, who, acts) && |acts| == 8 && Pair(run[0])
    ensures Pairing(run[0], Shared(2, 1, 1, [x, y]), Idle, Idle)
    ensures StepEvent(run[6], who[6], acts[6]) == Popped(x)
    ensures Pairing(run[8], Shared(2, 0, 1, [x, y]), PushReady(v, 1), Idle)
  {
    run, who, acts := StaleRead(x, y, v);
    hide IsRun, Pair, Pairing, CanStep, StepEvent;
    run, who, acts := GoOn(run, who, acts, 1, Shared(2, 1, 1, [x, y]), PopReady(1), PushReady(v, 1));
    run, who, acts := GoOn(run, who, acts, 1, Shared(2, 1, 0, [x, y]), PopLocked(1), PushReady(v, 1));
    run, who, acts := GoOn(run, who, acts, 1, Shared(2, 1, 0, [x, y]), PopLoaded(1, x), PushReady(v, 1));
    run, who, acts := GoOn(run, who, acts, 1, Shared(2, 0, 0, [x, y]), PopLowered(x), PushReady(v, 1));
  }

  /**
   The order is not always kept: a pop that commits between a push's read of
   the count and its commit leaves the popped value on the stack, and the
   pushed one out of reach.
   */
  lemma StaleCountLosesValue<V>(x: V, y: V, v: V)
    returns (run: seq<State<V>>, who: seq<Pid>, acts: seq<Action<V>>)
    ensures IsRun(run, who, acts) && |acts| == 12 && Pair(run[0])
    ensures Pairing(run[0], Shared(2, 1, 1, [x, y]), Idle, Idle)
    ensures StepEvent(run[6], who[6], acts[6]) == Popped(x) && StepEvent(run[10], who[10], acts[10]) == Pushed(v)
    ensures Pairing(run[12], Shared(2, 1, 1, [x, v]), Idle, Idle)
  {
    run, who, acts := PopCommits(x, y, v);
    hide IsRun, Pair, Pairing, CanStep, StepEvent;
    run, who, acts := GoOn(run, who, acts, 0, Shared(2, 0, 1, [x, y]), PushReady(v, 1), Idle);
    run, who, acts := GoOn(run, who, acts, 0, Shared(2, 0, 0, [x, y]), PushLocked(v, 1), Idle);
    assert [x, y][1 := v] == [x, v];
    run, who, acts := GoOn(run, who, acts, 0, Shared(2, 0, 0, [x, v]), PushStored(v, 1), Idle);
    run, who, acts := GoOn(run, who, acts, 0, Shared(2, 1, 0, [x, v]), PushRaised(v), Idle);
  }
}
