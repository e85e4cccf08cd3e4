/**
 The intrusive circular list of modules/field.h and list/main.c. The two links
 lie inside the listed structure, so a node here carries the members of
 `struct field` beside them and container_of is the identity; a list head is a
 node whose other members are not used.
 */
module ListRing {
  import opened Bytes

  /** How a field adds: the mask of m16.c, or the remainder of mn.c. */
  datatype Form = Mask16 | Remainder

  class Node {
    var next: Node?
    var prev: Node?
    var m: int
    const form: Form

    constructor (m: int, form: Form)
      ensures this.m == m && this.form == form
    {
      this.m := m;
      this.form := form;
      next := null;
      prev := null;
    }
  }

  /** The k-th node of the walk around the ring; the head comes first and last. */
  ghost function At(head: Node, items: seq<Node>, k: int): Node
    requires 0 <= k <= |items| + 1
  {
    if k == 0 || k == |items| + 1 then head else items[k - 1]
  }

  ghost predicate Distinct(head: Node, items: seq<Node>) {
    head !in items && forall i, j | 0 <= i < j < |items| :: items[i] != items[j]
  }

  /** The links of `head` and `items` form one ring in this order, both ways. */
  ghost predicate Ring(head: Node, items: seq<Node>)
    reads head, items
  {
    && Distinct(head, items)
    && (forall k | 0 <= k <= |items| :: At(head, items, k).next == At(head, items, k + 1))
    && (forall k | 0 <= k <= |items| :: At(head, items, k + 1).prev == At(head, items, k))
  }

  /** The positions 0 to |items| hold different nodes, and so do 1 to |items| + 1. */
  lemma AtInjective(head: Node, items: seq<Node>)
    requires Distinct(head, items)
    ensures forall i, j | 0 <= i < j <= |items| :: At(head, items, i) != At(head, items, j)
    ensures forall i, j | 1 <= i < j <= |items| + 1 :: At(head, items, i) != At(head, items, j)
    ensures forall i | 0 <= i <= |items| + 1 :: At(head, items, i) in [head] + items
  {
  }

  method ListInit(list: Node)
    modifies list`next, list`prev
    ensures Ring(list, [])
  {
    list.prev := list;
    list.next := list;
  }

  /** __list_add */
  method AddBetween(item: Node, prev: Node, next: Node, ghost head: Node, ghost items: seq<Node>, ghost k: nat)
    requires Ring(head, items) && item != head && item !in items
    requires k <= |items| && prev == At(head, items, k) && next == At(head, items, k + 1)
    modifies prev`next, next`prev, item`next, item`prev
    ensures Ring(head, items[..k] + [item] + items[k..])
  {
    prev.next := item;
    next.prev := item;
    item.prev := prev;
    item.next := next;
    ghost var now := items[..k] + [item] + items[k..];
    forall j | 0 <= j <= |now| + 1
      ensures At(head, now, j) == if j <= k then At(head, items, j) else if j == k + 1 then item
                                  else At(head, items, j - 1)
    {
    }
    AtInjective(head, items);
    forall j | 0 <= j <= |now|
      ensures At(head, now, j).next == At(head, now, j + 1) && At(head, now, j + 1).prev == At(head, now, j)
    {
      var i := if j <= k then j else j - 1;
      assert old(At(head, items, i).next) == At(head, items, i + 1);
      assert old(At(head, items, i + 1).prev) == At(head, items, i);
    }
  }

  /** list_add: the new node comes first. */
  method ListAdd(item: Node, head: Node, ghost items: seq<Node>)
    requires Ring(head, items) && item != head && item !in items
    modifies head`next, At(head, items, 1)`prev, item`next, item`prev
    ensures Ring(head, [item] + items)
  {
    assert head.next == At(head, items, 1) by {
      assert At(head, items, 0).next == At(head, items, 1);
    }
    AddBetween(item, head, head.next, head, items, 0);
    assert items[..0] + [item] + items[0..] == [item] + items;
  }

  /** list_add_back: the new node comes last. */
  method ListAddBack(item: Node, head: Node, ghost items: seq<Node>)
    requires Ring(head, items) && item != head && item !in items
    modifies At(head, items, |items|)`next, head`prev, item`next, item`prev
    ensures Ring(head, items + [item])
  {
    assert head.prev == At(head, items, |items|) by {
      assert At(head, items, |items| + 1).prev == At(head, items, |items|);
    }
    AddBetween(item, head.prev, head, head, items, |items|);
    assert items[..|items|] + [item] + items[|items|..] == items + [item];
  }

  /** list_del of a member: its neighbours are joined, its own links stay. */
  method ListDel(item: Node, ghost head: Node, ghost items: seq<Node>, ghost k: nat)
    requires Ring(head, items) && k < |items| && items[k] == item
    modifies At(head, items, k)`next, At(head, items, k + 2)`prev
    ensures Ring(head, items[..k] + items[k + 1..])
    ensures item.next == old(item.next) && item.prev == old(item.prev)
  {
    assert item == At(head, items, k + 1);
    assert item.prev == At(head, items, k);
    assert item.next == At(head, items, k + 2);
    item.prev.next := item.next;
    item.next.prev := item.prev;
    ghost var now := items[..k] + items[k + 1..];
    forall j | 0 <= j <= |now| + 1
      ensures At(head, now, j) == if j <= k then At(head, items, j) else At(head, items, j + 1)
    {
    }
    AtInjective(head, items);
    forall j | 0 <= j <= |now|
      ensures At(head, now, j).next == At(head, now, j + 1) && At(head, now, j + 1).prev == At(head, now, j)
    {
      var i := if j < k then j else j + 1;
      assert old(At(head, items, i).next) == At(head, items, i + 1);
      assert old(At(head, items, i + 1).prev) == At(head, items, i);
    }
  }

  /** The walk of list_for_each_entry returns to the head after visiting every member in order. */
  method WalkForward(head: Node, ghost items: seq<Node>) returns (visited: seq<Node>)
    requires Ring(head, items)
    ensures visited == items
  {
    visited := [];
    assert At(head, items, 0).next == At(head, items, 1);
    var pos := head.next;
    while pos != head
      invariant |visited| <= |items| && visited == items[..|visited|]
      invariant pos == At(head, items, |visited| + 1)
      decreases |items| - |visited|
    {
      assert At(head, items, |visited| + 1).next == At(head, items, |visited| + 2);
      visited := visited + [pos];
      pos := pos.next;
    }
    assert |visited| == |items| by {
      AtInjective(head, items);
    }
  }

  /** The walk along `prev` visits the members in reverse. */
  method WalkBackward(head: Node, ghost items: seq<Node>) returns (visited: seq<Node>)
    requires Ring(head, items)
    ensures |visited| == |items| && forall k | 0 <= k < |items| :: visited[k] == items[|items| - 1 - k]
  {
    visited := [];
    assert At(head, items, |items| + 1).prev == At(head, items, |items|);
    var pos := head.prev;
    while pos != head
      invariant |visited| <= |items| && forall k | 0 <= k < |visited| :: visited[k] == items[|items| - 1 - k]
      invariant pos == At(head, items, |items| - |visited|)
      decreases |items| - |visited|
    {
      assert At(head, items, |items| - |visited|).prev == At(head, items, |items| - |visited| - 1);
      visited := visited + [pos];
      pos := pos.prev;
    }
    assert |visited| == |items| by {
      AtInjective(head, items);
    }
  }

  /** Deleting a node right after adding it puts every link of the ring back. */
  method AddThenDelete(item: Node, head: Node, ghost items: seq<Node>)
    requires Ring(head, items) && item != head && item !in items
    modifies head`next, At(head, items, 1)`prev, item`next, item`prev
    ensures Ring(head, items)
    ensures forall n | n in [head] + items :: n.next == old(n.next) && n.prev == old(n.prev)
  {
    assert old(At(head, items, 0).next) == At(head, items, 1);
    assert old(At(head, items, 1).prev) == head;
    ListAdd(item, head, items);
    assert At(head, [item] + items, 0) == head && At(head, [item] + items, 2) == At(head, items, 1);
    ListDel(item, head, [item] + items, 0);
    assert ([item] + items)[..0] + ([item] + items)[1..] == items;
    assert At(head, items, 0).next == At(head, items, 1) && At(head, items, 1).prev == At(head, items, 0);
  }

  /** A ring's members have only one way to be linked. */
  lemma RingLinks(head: Node, items: seq<Node>)
    requires Ring(head, items)
    ensures var all := [head] + items;
      forall k | 0 <= k < |all| ::
        && all[k].next == all[if k + 1 < |all| then k + 1 else 0]
        && all[k].prev == all[if k > 0 then k - 1 else |all| - 1]
  {
    var all := [head] + items;
    forall k | 0 <= k < |all|
      ensures all[k].next == all[if k + 1 < |all| then k + 1 else 0]
      ensures all[k].prev == all[if k > 0 then k - 1 else |all| - 1]
    {
      var j := if k == 0 then |items| + 1 else k;
      assert At(head, items, k) == all[k] == At(head, items, j);
      assert all[k].next == At(head, items, k + 1);
      assert all[k].prev == At(head, items, j - 1);
    }
  }

  /** So does deleting a node right after adding it at any other place, such as the end. */
  method InsertThenDelete(item: Node, prev: Node, next: Node, head: Node, ghost items: seq<Node>, ghost k: nat)
    requires Ring(head, items) && item != head && item !in items
    requires k <= |items| && prev == At(head, items, k) && next == At(head, items, k + 1)
    modifies prev`next, next`prev, item`next, item`prev
    ensures Ring(head, items)
    ensures forall n | n in [head] + items :: n.next == old(n.next) && n.prev == old(n.prev)
  {
    hide Ring, Distinct;
    ghost var more := items[..k] + [item] + items[k..];
    RingLinks(head, items);
    AddBetween(item, prev, next, head, items, k);
    assert At(head, more, k) == prev && At(head, more, k + 2) == next;
    ListDel(item, head, more, k);
    assert more[..k] + more[k + 1..] == items;
    RingLinks(head, items);
    ghost var all := [head] + items;
    forall n | n in all
      ensures n.next == old(n.next) && n.prev == old(n.prev)
    {
      var j :| 0 <= j < |all| && all[j] == n;
      var after, before := if j + 1 < |all| then j + 1 else 0, if j > 0 then j - 1 else |all| - 1;
      assert all[j].next == all[after] && all[j].prev == all[before];
      assert old(all[j].next) == all[after];
      assert old(all[j].prev) == all[before];
    }
  }

  /** The three operations a program performs on a list it has initialised. */
  datatype Op = Prepend(node: Node) | Append(node: Node) | Delete(node: Node)

  /** What an operation does to the sequence of members; None if the program may not perform it. */
  ghost function Effect(head: Node, items: seq<Node>, op: Op): Option<seq<Node>> {
    if op.Delete? then
      if op.node in items then var k :| 0 <= k < |items| && items[k] == op.node; Some(items[..k] + items[k + 1..])
      else None
    else if op.node == head || op.node in items then None
    else Some(if op.Prepend? then [op.node] + items else items + [op.node])
  }

  ghost function Members(head: Node, ops: seq<Op>): Option<seq<Node>>
    decreases |ops|
  {
    if ops == [] then Some([]) else
    var before := Members(head, ops[..|ops| - 1]);
    if before.None? then None else Effect(head, before.value, ops[|ops| - 1])
  }

  lemma MembersSnoc(head: Node, ops: seq<Op>, n: nat)
    requires n < |ops| && Members(head, ops[..n + 1]).Some?
    ensures Members(head, ops[..n]).Some?
    ensures Members(head, ops[..n + 1]) == Effect(head, Members(head, ops[..n]).value, ops[n])
  {
    assert ops[..n + 1][..n] == ops[..n];
  }

  lemma {:induction false} MembersPrefix(head: Node, ops: seq<Op>, n: nat)
    requires n <= |ops| && Members(head, ops).Some?
    ensures Members(head, ops[..n]).Some?
    decreases |ops|
  {
    if n == |ops| {
      assert ops[..n] == ops;
    } else {
      MembersPrefix(head, ops[..|ops| - 1], n);
      assert ops[..|ops| - 1][..n] == ops[..n];
    }
  }

  /** Every member of the list was added by one of the operations. */
  lemma {:induction false} MembersWereAdded(head: Node, ops: seq<Op>)
    requires Members(head, ops).Some?
    ensures forall n <- Members(head, ops).value :: exists k | 0 <= k < |ops| :: ops[k].node == n
    decreases |ops|
  {
    if ops != [] {
      var before := ops[..|ops| - 1];
      MembersWereAdded(head, before);
      forall n <- Members(head, ops).value
        ensures exists k | 0 <= k < |ops| :: ops[k].node == n
      {
        if n != ops[|ops| - 1].node {
          assert n in Members(head, before).value;
          var k :| 0 <= k < |before| && before[k].node == n;
          assert ops[k].node == n;
        }
      }
    }
  }

  /** The program may add any node but the head and the members, and delete any member. */
  lemma Permitted(head: Node, ops: seq<Op>, op: Op)
    requires Members(head, ops).Some?
    ensures Members(head, ops + [op]).Some? <==>
              if op.Delete? then op.node in Members(head, ops).value
              else op.node != head && op.node !in Members(head, ops).value
  {
    assert (ops + [op])[..|ops|] == ops;
  }

  lemma {:induction false} MembersDistinct(head: Node, ops: seq<Op>)
    requires Members(head, ops).Some?
    ensures Distinct(head, Members(head, ops).value)
    decreases |ops|
  {
    if ops != [] {
      MembersDistinct(head, ops[..|ops| - 1]);
    }
  }

  /** The members are the nodes that were added and not deleted since. */
  lemma MembersExactly(head: Node, ops: seq<Op>, x: Node)
    requires Members(head, ops).Some?
    ensures x in Members(head, ops).value <==>
              exists i | 0 <= i < |ops| ::
                ops[i].node == x && !ops[i].Delete? && forall k | i < k < |ops| :: ops[k].node != x
  {
    MembersLastAdded(head, ops, x);
    hide Members;
    if i :| 0 <= i < |ops| && ops[i].node == x && !ops[i].Delete? && forall k | i < k < |ops| :: ops[k].node != x {
      assert LastAdded(ops, x, i);
    }
  }

  lemma {:induction false} MembersLastAdded(head: Node, ops: seq<Op>, x: Node)
    requires Members(head, ops).Some?
    ensures x in Members(head, ops).value <==> exists i :: LastAdded(ops, x, i)
    decreases |ops|
  {
    if ops != [] {
      var less, op := ops[..|ops| - 1], ops[|ops| - 1];
      MembersLastAdded(head, less, x);
      MembersDistinct(head, less);
      if op.node == x {
        assert x in Members(head, ops).value <==> !op.Delete?;
        assert !op.Delete? ==> LastAdded(ops, x, |ops| - 1);
      } else {
        StillThere(head, Members(head, less).value, op, x);
        hide *;
        forall i
          ensures LastAdded(less, x, i) <==> LastAdded(ops, x, i)
        {
          LastIsOther(ops, x, i);
        }
      }
    }
  }

  /** Step `i` added `x`, and no later one was about it. */
  ghost predicate LastAdded(ops: seq<Op>, x: Node, i: nat) {
    i < |ops| && ops[i].node == x && !ops[i].Delete? && forall k | i < k < |ops| :: ops[k].node != x
  }

  lemma LastIsOther(ops: seq<Op>, x: Node, i: nat)
    requires ops != [] && ops[|ops| - 1].node != x
    ensures LastAdded(ops[..|ops| - 1], x, i) <==> LastAdded(ops, x, i)
  {
    var less := ops[..|ops| - 1];
    assert forall k | 0 <= k < |less| :: less[k] == ops[k];
  }

  lemma StillThere(head: Node, items: seq<Node>, op: Op, x: Node)
    requires Distinct(head, items) && Effect(head, items, op).Some? && op.node != x
    ensures x in items <==> x in Effect(head, items, op).value
  {
    if op.Delete? {
      var k := IndexOf(items, op.node);
      OnePlace(head, items, op.node, k);
      var less := items[..k] + items[k + 1..];
      if x in items {
        var j :| 0 <= j < |items| && items[j] == x;
        assert less[if j < k then j else j - 1] == x;
      }
    }
  }

  /**
   Of two members, each added for the last time at the given steps, the later one
   stands before the other if it was prepended, and behind it if appended;
   deletions in between change nothing about that.
   */
  lemma {:induction false} OrderOfMembers(head: Node, ops: seq<Op>, p: nat, q: nat, i: nat, j: nat)
    requires Members(head, ops).Some? && i < j < |ops|
    requires p < |Members(head, ops).value| && q < |Members(head, ops).value|
    requires ops[i].node == Members(head, ops).value[p]
    requires forall k | i < k < |ops| :: ops[k].node != Members(head, ops).value[p]
    requires ops[j].node == Members(head, ops).value[q]
    requires forall k | j < k < |ops| :: ops[k].node != Members(head, ops).value[q]
    ensures ops[j].Prepend? ==> q < p
    ensures ops[j].Append? ==> p < q
    ensures !ops[j].Delete?
    decreases |ops|
  {
    var last, less := |ops| - 1, ops[..|ops| - 1];
    var op, items, now := ops[last], Members(head, less).value, Members(head, ops).value;
    MembersDistinct(head, less);
    MembersDistinct(head, ops);
    if j == last {
      NodeOfLast(head, items, op, now, p, q);
    } else {
      var p' := PlaceBefore(head, items, op, p);
      var q' := PlaceBefore(head, items, op, q);
      assert forall k | 0 <= k < |less| :: less[k] == ops[k];
      OrderOfMembers(head, less, p', q', i, j);
    }
  }

  lemma NodeOfLast(head: Node, items: seq<Node>, op: Op, now: seq<Node>, p: nat, q: nat)
    requires Distinct(head, items) && Distinct(head, now) && Effect(head, items, op) == Some(now)
    requires p < |now| && q < |now| && now[q] == op.node != now[p]
    ensures (op.Prepend? ==> q < p) && (op.Append? ==> p < q) && !op.Delete?
  {
    if op.Delete? {
      var k := IndexOf(items, op.node);
      OnePlace(head, items, op.node, k);
      assert false;
    }
    assert op.Prepend? ==> now[0] == op.node;
    assert op.Append? ==> now[|items|] == op.node;
  }

  /** Where a member stood before the last operation, if that was about another node. */
  lemma PlaceBefore(head: Node, items: seq<Node>, op: Op, p: nat) returns (p': nat)
    requires Distinct(head, items) && Effect(head, items, op).Some?
    requires p < |Effect(head, items, op).value| && Effect(head, items, op).value[p] != op.node
    ensures p' < |items| && items[p'] == Effect(head, items, op).value[p]
    ensures op.Prepend? ==> p == p' + 1
    ensures op.Append? ==> p == p'
    ensures op.Delete? ==> exists k | 0 <= k < |items| :: items[k] == op.node && p == if p' < k then p' else p' - 1
  {
    match op {
      case Prepend(_) => p' := p - 1;
      case Append(_) => p' := p;
      case Delete(item) =>
        var k := IndexOf(items, item);
        OnePlace(head, items, item, k);
        p' := if p < k then p else p + 1;
    }
  }

  /** Prepending only, the nodes stand in the reverse order of the operations. */
  lemma {:induction false} PrependedInReverse(head: Node, ops: seq<Op>)
    requires Members(head, ops).Some? && forall k | 0 <= k < |ops| :: ops[k].Prepend?
    ensures |Members(head, ops).value| == |ops|
    ensures forall k | 0 <= k < |ops| :: Members(head, ops).value[k] == ops[|ops| - 1 - k].node
    decreases |ops|
  {
    if ops != [] {
      PrependedInReverse(head, ops[..|ops| - 1]);
    }
  }

  /** Appending only, they stand in the order of the operations. */
  lemma {:induction false} AppendedInOrder(head: Node, ops: seq<Op>)
    requires Members(head, ops).Some? && forall k | 0 <= k < |ops| :: ops[k].Append?
    ensures |Members(head, ops).value| == |ops|
    ensures forall k | 0 <= k < |ops| :: Members(head, ops).value[k] == ops[k].node
    decreases |ops|
  {
    if ops != [] {
      AppendedInOrder(head, ops[..|ops| - 1]);
    }
  }

  ghost function Touched(head: Node, ops: seq<Op>): set<Node> {
    {head} + set op <- ops :: op.node
  }

  lemma AllTouched(head: Node, ops: seq<Op>, n: nat)
    requires n < |ops| && Members(head, ops[..n]).Some?
    ensures ops[n].node in Touched(head, ops)
    ensures forall x <- Members(head, ops[..n]).value :: x in Touched(head, ops)
  {
    var items := Members(head, ops[..n]).value;
    MembersWereAdded(head, ops[..n]);
    forall x <- items
      ensures x in Touched(head, ops)
    {
      var k :| 0 <= k < |ops[..n]| && ops[..n][k].node == x;
      assert ops[k] in ops;
    }
  }

  ghost function IndexOf(items: seq<Node>, item: Node): (k: nat)
    requires item in items
    ensures k < |items| && items[k] == item
  {
    var k :| 0 <= k < |items| && items[k] == item; k
  }

  lemma OnePlace(head: Node, items: seq<Node>, item: Node, k: nat)
    requires Distinct(head, items) && k < |items| && items[k] == item
    ensures Effect(head, items, Delete(item)) == Some(items[..k] + items[k + 1..])
  {
  }

  lemma Around(head: Node, item: Node, items: seq<Node>)
    ensures head in [head, item] + items && item in [head, item] + items
    ensures forall j | 0 <= j <= |items| + 1 :: At(head, items, j) in [head, item] + items
  {
    var all := [head, item] + items;
    assert all[0] == head && all[1] == item;
    forall j | 0 <= j <= |items| + 1
      ensures At(head, items, j) in all
    {
      assert 0 < j <= |items| ==> all[j + 1] == At(head, items, j);
    }
  }

  /** One of the operations. */
  method Step(op: Op, head: Node, ghost items: seq<Node>)
    requires Ring(head, items) && Effect(head, items, op).Some?
    modifies [head, op.node] + items
    ensures Ring(head, Effect(head, items, op).value)
  {
    Around(head, op.node, items);
    match op {
      case Prepend(item) => ListAdd(item, head, items);
      case Append(item) => ListAddBack(item, head, items);
      case Delete(item) =>
        ghost var k := IndexOf(items, item);
        OnePlace(head, items, item, k);
        ListDel(item, head, items, k);
    }
  }

  /** Any run of permitted operations leaves one ring whose members are those of the run. */
  method Perform(head: Node, ops: seq<Op>)
    requires Members(head, ops).Some?
    modifies Touched(head, ops)
    ensures Ring(head, Members(head, ops).value)
  {
    ListInit(head);
    var n := 0;
    while n < |ops|
      invariant 0 <= n <= |ops|
      invariant Members(head, ops[..n]).Some? && Ring(head, Members(head, ops[..n]).value)
    {
      ghost var items := Members(head, ops[..n]).value;
      MembersPrefix(head, ops, n + 1);
      MembersSnoc(head, ops, n);
      AllTouched(head, ops, n);
      Step(ops[n], head, items);
      n := n + 1;
    }
    assert ops[..n] == ops;
  }

  /** From the head on, every place of a ring is `item` or one of `items`, if their links lead to no others. */
  lemma {:induction false} NoWayBack(head: Node, item: Node, items: seq<Node>, ring: seq<Node>, k: nat)
    requires Ring(head, ring) && 1 <= k <= |ring| + 1 && items != []
    requires head.next == item && item.next == items[0]
    requires forall j | 0 <= j < |items| :: items[j].next == items[if j + 1 < |items| then j + 1 else 0]
    ensures At(head, ring, k) == item || At(head, ring, k) in items
  {
    assert At(head, ring, k - 1).next == At(head, ring, k);
    if k > 1 {
      NoWayBack(head, item, items, ring, k - 1);
      var pos := At(head, ring, k - 1);
      if pos in items {
        var j :| 0 <= j < |items| && items[j] == pos;
        assert At(head, ring, k) == items[if j + 1 < |items| then j + 1 else 0];
      }
    }
  }

  /**
   list_del of the head of any ring, and list_add of a node after that: the head
   has a ring again if and only if the list was empty.
   */
  method DeleteHeadThenAdd(item: Node, head: Node, ghost items: seq<Node>)
    requires Ring(head, items) && item != head && item !in items
    modifies [head, item] + items
    ensures items == [] ==> Ring(head, [item])
    ensures (exists ring: seq<Node> :: Ring(head, ring)) <==> items == []
  {
    Around(head, item, items);
    Neighbours(head, items);
    AtInjective(head, items);
    head.prev.next := head.next;
    head.next.prev := head.prev;
    head.next.prev := item;
    item.next := head.next;
    head.next := item;
    item.prev := head;
    if items == [] {
      assert Ring(head, [item]);
    } else {
      forall j | 0 <= j < |items|
        ensures items[j].next == items[if j + 1 < |items| then j + 1 else 0]
      {
        assert old(At(head, items, j + 1).next) == At(head, items, j + 2);
      }
      forall ring: seq<Node>
        ensures !Ring(head, ring)
      {
        if Ring(head, ring) {
          NoWayBack(head, item, items, ring, |ring| + 1);
          assert false;
        }
      }
    }
  }

  lemma Neighbours(head: Node, items: seq<Node>)
    requires Ring(head, items)
    ensures head.next == At(head, items, 1) && head.prev == At(head, items, |items|)
    ensures head.next in [head] + items && head.prev in [head] + items
  {
    assert At(head, items, 0).next == At(head, items, 1);
    assert At(head, items, |items| + 1).prev == At(head, items, |items|);
  }

  /**
   list_del of the head, as list/main.c does it between its second and third
   addition: the walk from the head never comes back to it.
   */
  method DeleteHead(head: Node, it1: Node, it2: Node, it3: Node)
    requires head != it1 && head != it2 && head != it3 && it1 != it2 && it1 != it3 && it2 != it3
    modifies {head, it1, it2, it3}
    ensures head.next == it3 && it3.next == it2 && it2.next == it1 && it1.next == it2
    ensures forall items: seq<Node> :: !Ring(head, items)
  {
    ListInit(head);
    ListAdd(it1, head, []);
    assert [it1] + [] == [it1];
    ListAdd(it2, head, [it1]);
    assert [it2] + [it1] == [it2, it1];
    assert Ring(head, [it2, it1]);
    RingOfTwo(head, it2, it1);
    head.prev.next := head.next;
    head.next.prev := head.prev;
    head.next.prev := it3;
    it3.next := head.next;
    head.next := it3;
    it3.prev := head;
    forall items: seq<Node>
      ensures !Ring(head, items)
    {
      NoReturn(head, it1, it2, it3, items);
    }
  }

  lemma RingOfTwo(head: Node, a: Node, b: Node)
    requires Ring(head, [a, b])
    ensures head.next == a && a.next == b && b.next == head && head.prev == b
  {
    assert At(head, [a, b], 0).next == At(head, [a, b], 1);
    assert At(head, [a, b], 1).next == At(head, [a, b], 2);
    assert At(head, [a, b], 2).next == At(head, [a, b], 3);
    assert At(head, [a, b], 3).prev == At(head, [a, b], 2);
  }

  lemma NoReturn(head: Node, it1: Node, it2: Node, it3: Node, items: seq<Node>)
    requires head != it1 && head != it2 && head != it3 && it1 != it2 && it1 != it3 && it2 != it3
    requires head.next == it3 && it3.next == it2 && it2.next == it1 && it1.next == it2
    ensures !Ring(head, items)
  {
    if Ring(head, items) {
      assert At(head, items, 0).next == At(head, items, 1);
      assert At(head, items, 1).next == At(head, items, 2);
      assert At(head, items, 2).next == At(head, items, 3);
      assert At(head, items, 3).next == At(head, items, 4);
      AtInjective(head, items);
      assert false;
    }
  }
}
