/**
 The shared stack of sh_stack/stack.c, one call at a time: the segment holds
 the slots and three semaphores (capacity, count, mutex), and each process has
 a handle with its wait mode. What other processes do to the stack while a
 call waits is given to it as a schedule; nobody comes between its final read
 of the count and its release of the mutex. Single semaphore operations of
 several processes are interleaved in StackInterleaving.
 */
module SharedStack {
  import Bytes

  /** A whole call of another process that does not wait. */
  datatype Turn<V> = Pushes(v: V) | Pops

  /** A bounded last-in-first-out sequence; overflow and underflow change nothing. */
  function Apply<V>(cap: nat, s: seq<V>, t: Turn<V>): (s': seq<V>)
    ensures |s| <= cap ==> |s'| <= cap
  {
    match t
    case Pushes(v) => if |s| < cap then s + [v] else s
    case Pops => if s == [] then s else s[..|s| - 1]
  }

  /** A push puts its value on top and a pop takes it off again; a full or empty stack stays as it is. */
  lemma ApplyLaw<V>(cap: nat, s: seq<V>, v: V)
    ensures |s| < cap ==>
              && |Apply(cap, s, Pushes(v))| == |s| + 1 && s <= Apply(cap, s, Pushes(v))
              && Apply(cap, s, Pushes(v))[|s|] == v && Apply(cap, Apply(cap, s, Pushes(v)), Pops) == s
    ensures |s| >= cap ==> Apply(cap, s, Pushes(v)) == s
    ensures s == [] ==> Apply(cap, s, Pops) == s
    ensures s != [] ==> |Apply(cap, s, Pops)| == |s| - 1 && Apply(cap, s, Pops) <= s
  {
  }

  function ApplyAll<V>(cap: nat, s: seq<V>, ts: seq<Turn<V>>): (s': seq<V>)
    ensures |s| <= cap ==> |s'| <= cap
    decreases |ts|
  {
    if ts == [] then s else Apply(cap, ApplyAll(cap, s, ts[..|ts| - 1]), ts[|ts| - 1])
  }

  /** The modes of set_wait: -1, 0 and 1. */
  datatype Wait = Now | Forever | Timed

  /** A call returns 0, returns -1, or still spins when the schedule is over. */
  datatype Outcome = Done | Refused | Spinning

  /**
   How many of the others' calls a call lets pass while the stack has `bad`
   elements: none if it may not wait, all of them if it sleeps, and otherwise
   those before the first change it sees.
   */
  ghost predicate Waited<V>(cap: nat, s: seq<V>, bad: nat, wait: Wait, others: seq<Turn<V>>, used: nat, out: Outcome) {
    && used <= |others|
    && var now := ApplyAll(cap, s, others[..used]);
    && (out == Done <==> |now| != bad)
    && (|s| != bad ==> used == 0)
    && (|s| == bad ==>
          match wait {
            case Now => used == 0 && out == Refused
            case Timed => used == |others| && out != Spinning
            case Forever =>
              && out != Refused && (out == Spinning ==> used == |others|)
              && forall k | 0 <= k < used :: |ApplyAll(cap, s, others[..k])| == bad
          })
  }

  /** The System V segment with its semaphore set. */
  class Segment<V(0)> {
    var size: nat
    var count: nat
    var mutex: nat
    var slots: array<V>

    ghost predicate Valid()
      reads this
    {
      slots.Length == size && count <= size && mutex == 1
    }

    ghost function Contents(): seq<V>
      reads this, slots
      requires count <= slots.Length
    {
      slots[..count]
    }

    constructor (size: nat)
      ensures Valid() && this.size == size && Contents() == [] && fresh(slots)
    {
      this.size := size;
      count := 0;
      mutex := 1;
      slots := new V[size];
    }

    /** The end of `push`: mutex down, slot written, count up, mutex up. */
    method Store(at: nat, val: V)
      requires Valid() && at == count < size
      modifies this`count, this`mutex, slots
      ensures Valid() && Contents() == old(Contents()) + [val]
    {
      mutex := mutex - 1;
      slots[at] := val;
      count := count + 1;
      mutex := mutex + 1;
    }

    /** The end of `pop`. */
    method Take(at: nat) returns (val: V)
      requires Valid() && 0 < at == count
      modifies this`count, this`mutex
      ensures Valid() && old(Contents()) == Contents() + [val]
    {
      mutex := mutex - 1;
      val := slots[at - 1];
      count := count - 1;
      mutex := mutex + 1;
    }

    /** Another process gets its turn. */
    method Serve(t: Turn<V>)
      requires Valid()
      modifies this`count, this`mutex, slots
      ensures Valid() && Contents() == Apply(size, old(Contents()), t)
    {
      match t {
        case Pushes(v) =>
          if count < size {
            Store(count, v);
          }
        case Pops =>
          if count > 0 {
            var val := Take(count);
          }
      }
    }
  }

  class Stack<V(0)> {
    const seg: Segment<V>
    var wait: Wait

    constructor (seg: Segment<V>)
      ensures this.seg == seg && wait == Now
    {
      this.seg := seg;
      wait := Now;
    }

    /**
     Attaching to an existing stack while no call is in progress succeeds, and
     keeps the stack, exactly if its segment has the `size` slots. Otherwise the
     call returns null, as a first one for no slots does, but not before it has
     emptied the stack and set its capacity to `size`, or left that alone if
     `size` is no semaphore value. All other processes go on with what is left.
     */
    static method Attach(existing: Segment?<V>, size: int) returns (stack: Stack?<V>)
      requires existing != null ==> existing.count <= existing.slots.Length
      modifies if existing == null then {} else {existing}
      ensures stack != null ==> fresh(stack) && stack.wait == Now
      ensures existing == null ==>
                && (stack != null <==> size > 0)
                && (stack != null ==> fresh(stack.seg) && stack.seg.Valid()
                                      && stack.seg.size == size && stack.seg.Contents() == [])
      ensures existing != null ==>
                && (stack != null <==> 0 <= size <= existing.slots.Length)
                && (stack != null ==> stack.seg == existing && (old(existing.Valid()) ==> existing.Valid()))
                && existing.slots == old(existing.slots) && existing.mutex == 1
                && existing.size == (if size > existing.slots.Length then size else old(existing.size))
                && existing.count <= existing.slots.Length
                && existing.Contents() == if stack != null then old(existing.Contents()) else []
      ensures existing != null && old(existing.Valid()) ==>
                (existing.size == old(existing.size) && existing.Contents() == old(existing.Contents())
                 <==> 0 <= size <= old(existing.size) || (size < 0 && old(existing.Contents()) == []))
      ensures existing != null && stack == null && size >= 0 ==> existing.size > existing.slots.Length
    {
      if existing != null {
        if 0 <= size <= existing.slots.Length {
          existing.mutex := 1;
          stack := new Stack(existing);
        } else {
          if size >= 0 {
            existing.size := size;
          }
          existing.count := 0;
          existing.mutex := 1;
          stack := null;
        }
      } else if size > 0 {
        var seg := new Segment(size);
        stack := new Stack(seg);
      } else {
        stack := null;
      }
    }

    method SetWait(val: Wait)
      modifies this`wait
      ensures wait == val
    {
      wait := val;
    }

    method GetSize() returns (ret: nat)
      requires seg.Valid()
      ensures ret == seg.size >= |seg.Contents()|
    {
      ret := seg.size;
    }

    method GetCount() returns (ret: nat)
      requires seg.Valid()
      ensures ret == |seg.Contents()|
    {
      ret := seg.count;
    }

    /** The waiting part shared by `push` and `pop`: until the count differs from `bad`. */
    method Await(bad: nat, others: seq<Turn<V>>) returns (out: Outcome, count: nat, ghost used: nat)
      requires seg.Valid()
      modifies seg`count, seg`mutex, seg.slots
      ensures seg.Valid()
      ensures Waited(seg.size, old(seg.Contents()), bad, wait, others, used, out)
      ensures seg.Contents() == ApplyAll(seg.size, old(seg.Contents()), others[..used])
      ensures count == |seg.Contents()|
    {
      count, used := seg.count, 0;
      if count == bad {
        match wait {
          case Now =>
            return Refused, count, 0;
          case Forever =>
            var k := 0;
            while count == bad && k < |others|
              invariant seg.Valid() && k <= |others| && count == |seg.Contents()|
              invariant seg.Contents() == ApplyAll(seg.size, old(seg.Contents()), others[..k])
              invariant forall j | 0 <= j < k :: |ApplyAll(seg.size, old(seg.Contents()), others[..j])| == bad
            {
              seg.Serve(others[k]);
              assert others[..k + 1][..k] == others[..k];
              k := k + 1;
              count := seg.count;
            }
            used := k;
            if count == bad {
              return Spinning, count, used;
            }
          case Timed =>
            var k := 0;
            while k < |others|
              invariant seg.Valid() && k <= |others|
              invariant seg.Contents() == ApplyAll(seg.size, old(seg.Contents()), others[..k])
            {
              seg.Serve(others[k]);
              assert others[..k + 1][..k] == others[..k];
              k := k + 1;
            }
            used := k;
            count := seg.count;
            if count == bad {
              return Refused, count, used;
            }
        }
      }
      out := Done;
    }

    /** A push adds its value on top of what the others left, or changes nothing. */
    method Push(val: V, others: seq<Turn<V>>) returns (out: Outcome, ghost used: nat)
      requires seg.Valid()
      modifies seg`count, seg`mutex, seg.slots
      ensures seg.Valid()
      ensures Waited(seg.size, old(seg.Contents()), seg.size, wait, others, used, out)
      ensures var seen := ApplyAll(seg.size, old(seg.Contents()), others[..used]);
              seg.Contents() == if out == Done then seen + [val] else seen
      ensures |old(seg.Contents())| < seg.size || wait == Now ==>
                used == 0 && out == (if |old(seg.Contents())| < seg.size then Done else Refused)
      ensures wait == Forever ==> out != Refused
      ensures wait == Timed ==> out != Spinning && (|old(seg.Contents())| == seg.size ==> used == |others|)
      ensures out != Done ==> |seg.Contents()| == seg.size
      ensures out == Spinning ==> used == |others|
    {
      var count;
      out, count, used := Await(seg.size, others);
      if out == Done {
        seg.Store(count, val);
      }
    }

    /** A pop takes the last element off what the others left, or changes nothing. */
    method Pop(others: seq<Turn<V>>) returns (out: Outcome, val: Bytes.Option<V>, ghost used: nat)
      requires seg.Valid()
      modifies seg`count, seg`mutex, seg.slots
      ensures seg.Valid()
      ensures Waited(seg.size, old(seg.Contents()), 0, wait, others, used, out)
      ensures var seen := ApplyAll(seg.size, old(seg.Contents()), others[..used]);
              if out == Done then val.Some? && seen == seg.Contents() + [val.value]
              else val == Bytes.None && seen == seg.Contents()
      ensures old(seg.Contents()) != [] || wait == Now ==>
                used == 0 && out == (if old(seg.Contents()) != [] then Done else Refused)
      ensures wait == Forever ==> out != Refused
      ensures wait == Timed ==> out != Spinning && (old(seg.Contents()) == [] ==> used == |others|)
      ensures out != Done ==> seg.Contents() == []
      ensures out == Spinning ==> used == |others|
    {
      var count;
      out, count, used := Await(0, others);
      val := Bytes.None;
      if out == Done {
        var x := seg.Take(count);
        val := Bytes.Some(x);
      }
    }

    /** print_all: the elements, oldest first. */
    method PrintAll() returns (shown: seq<V>)
      requires seg.Valid()
      modifies seg`mutex
      ensures seg.Valid() && shown == seg.Contents() == old(seg.Contents())
    {
      var count := seg.count;
      seg.mutex := seg.mutex - 1;
      shown := [];
      for i := 0 to count
        invariant shown == seg.slots[..i]
      {
        shown := shown + [seg.slots[i]];
      }
      seg.mutex := seg.mutex + 1;
    }
  }
}
