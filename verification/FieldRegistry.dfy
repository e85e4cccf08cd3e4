/**
 The field registry of modules/field.c with the two fields the repository
 registers, modules/mn.c and modules/m16.c. A lookup that finds no field for a
 modulus gives the first generic field, one with modulus 0, that modulus for
 good.
 */
module FieldRegistry {
  import opened Arithmetic
  import opened Bytes
  import opened ListRing

  /** What the registry sees of a field. */
  datatype Entry = Entry(m: int, form: Form)

  const INT_MIN := -0x8000_0000
  const INT_MAX := 0x7fff_ffff

  /** The bits of a 32-bit int, read as an unsigned number. */
  function BitsOf(n: int): (u: nat)
    requires INT_MIN <= n <= INT_MAX
    ensures u < 0x1_0000_0000 && (u == n || u == n + 0x1_0000_0000)
  {
    if n < 0 then n + 0x1_0000_0000 else n
  }

  /** sum16 and sumn. None: the addition overflows, or the division traps. */
  function Compute(e: Entry, a: int, b: int): Option<int> {
    var n := a + b;
    if !(INT_MIN <= n <= INT_MAX) then None
    else if e.form.Mask16? then Some(BitAnd(BitsOf(n), 0xf))
    else if e.m == 0 || (n == INT_MIN && e.m == -1) then None
    else Some(CRem(n, e.m))
  }

  /** The two forms agree on modulus 16 exactly for sums that are not negative or are multiples of 16. */
  lemma MaskAgreesExactly(a: int, b: int)
    requires INT_MIN <= a + b <= INT_MAX
    ensures Compute(Entry(16, Mask16), a, b) == Compute(Entry(16, Remainder), a, b)
       <==> a + b >= 0 || (a + b) % 16 == 0
  {
    MaskIsRemainder(BitsOf(a + b));
  }

  /** Nothing is returned exactly if the addition overflows or the division traps. */
  lemma ComputeTraps(e: Entry, a: int, b: int)
    ensures Compute(e, a, b).None? <==>
              || !(-0x8000_0000 <= a + b < 0x8000_0000)
              || (e.form.Remainder? && (e.m == 0 || (e.m == -1 && a + b == -0x8000_0000)))
  {
    hide CRem, BitAnd;
  }

  /** The mask returns the residue, the remainder the residue or, for a negative sum, that less the modulus. */
  lemma ComputeValue(e: Entry, a: int, b: int)
    requires Compute(e, a, b).Some?
    ensures e.form.Mask16? ==> Compute(e, a, b).value == (a + b) % 16
    ensures e.form.Remainder? && e.m > 0 ==>
              Compute(e, a, b).value
                == if a + b >= 0 || (a + b) % e.m == 0 then (a + b) % e.m else (a + b) % e.m - e.m
  {
    hide CRem, BitAnd;
    var n := a + b;
    if e.form.Mask16? {
      MaskIsRemainder(BitsOf(n));
      assert BitsOf(n) % 16 == n % 16;
    } else if e.m > 0 {
      assert Compute(e, a, b) == Some(CRem(n, e.m));
      RemainderValue(n, e.m);
    }
  }

  /** The sign of a modulus does not matter. */
  lemma NegativeModulus(m: int, a: int, b: int)
    requires m > 1
    ensures Compute(Entry(-m, Remainder), a, b) == Compute(Entry(m, Remainder), a, b)
  {
  }

  lemma RemainderValue(n: int, m: int)
    requires m > 0
    ensures CRem(n, m) == if n >= 0 || n % m == 0 then n % m else n % m - m
  {
    CRemIs(n, m);
    hide CRem, CDiv;
    var q, v := CDiv(n, m), CRem(n, m);
    if v >= 0 {
      RemainderIs(n, m, q, v);
    } else {
      assert n == (q - 1) * m + (v + m);
      RemainderIs(n, m, q - 1, v + m);
    }
  }

  // ---------------------------------------------------------------- lookup

  /** The position of the first field with modulus m, |es| if there is none. */
  function Find(es: seq<Entry>, m: int): (i: nat)
    ensures i <= |es| && (i < |es| ==> es[i].m == m)
    ensures forall k | 0 <= k < i :: es[k].m != m
  {
    if es == [] || es[0].m == m then 0 else 1 + Find(es[1..], m)
  }

  lemma FindFirst(es: seq<Entry>, m: int, i: nat)
    requires i <= |es| && (i < |es| ==> es[i].m == m)
    requires forall k | 0 <= k < i :: es[k].m != m
    ensures Find(es, m) == i
  {
  }

  /** `sum`: the result, None also for the null field, and the fields afterwards. */
  function SumOn(es: seq<Entry>, m: int, a: int, b: int): (Option<int>, seq<Entry>) {
    var i := Find(es, m);
    if i < |es| then (Compute(es[i], a, b), es) else
    var j := Find(es, 0);
    if j == |es| then (None, es) else
    var e := es[j].(m := m);
    (Compute(e, a, b), es[j := e])
  }

  /** Only the field of modulus 16 computes by mask. */
  ghost predicate WellFormed(es: seq<Entry>) {
    forall e <- es :: e.form.Mask16? ==> e.m == 16
  }

  /** The moduli that have a field. */
  ghost function Registered(es: seq<Entry>): set<int> {
    set e <- es | e.m != 0 :: e.m
  }

  /** The number of generic fields left. */
  function Spare(es: seq<Entry>): nat {
    if es == [] then 0 else (if es[0].m == 0 then 1 else 0) + Spare(es[1..])
  }

  lemma {:induction false} SpareZero(es: seq<Entry>)
    ensures Spare(es) == 0 <==> Find(es, 0) == |es|
  {
    if es != [] {
      SpareZero(es[1..]);
    }
  }

  lemma {:induction false} SpareUpdate(es: seq<Entry>, j: nat, e: Entry)
    requires j < |es| && es[j].m == 0 && e.m != 0
    ensures Spare(es[j := e]) == Spare(es) - 1
  {
    var now := es[j := e];
    if j == 0 {
      assert now[1..] == es[1..];
    } else {
      SpareUpdate(es[1..], j - 1, e);
      assert now[1..] == es[1..][j - 1 := e];
    }
  }

  lemma FindRegistered(es: seq<Entry>, m: int)
    requires m != 0
    ensures m in Registered(es) <==> Find(es, m) < |es|
  {
    if m in Registered(es) {
      var e :| e in es && e.m == m;
    }
    assert Find(es, m) < |es| ==> es[Find(es, m)] in es;
  }

  /**
   A call for a modulus that is registered changes nothing; a call for another
   uses up exactly one generic field, or fails when there is none.
   */
  lemma OneFieldPerModulus(es: seq<Entry>, m: int, a: int, b: int)
    requires m != 0
    ensures var es' := SumOn(es, m, a, b).1;
      && (m in Registered(es) ==> es' == es)
      && (m !in Registered(es) && Spare(es) > 0 ==>
            Registered(es') == Registered(es) + {m} && Spare(es') == Spare(es) - 1)
      && (m !in Registered(es) && Spare(es) == 0 ==> es' == es && SumOn(es, m, a, b).0.None?)
      && (es' == es || exists j | 0 <= j < |es| ::
            es[j].m == 0 && (forall k | 0 <= k < j :: es[k].m != 0) && es' == es[j := Entry(m, es[j].form)])
  {
    FindRegistered(es, m);
    SpareZero(es);
    if m !in Registered(es) && Spare(es) > 0 {
      var j := Find(es, 0);
      var e := es[j].(m := m);
      SpareUpdate(es, j, e);
      RegisteredUpdate(es, j, e);
    }
  }

  lemma RegisteredUpdate(es: seq<Entry>, j: nat, e: Entry)
    requires j < |es| && es[j].m == 0 && e.m != 0
    ensures Registered(es[j := e]) == Registered(es) + {e.m}
  {
    var now := es[j := e];
    forall x
      ensures x in Registered(now) <==> x in Registered(es) + {e.m}
    {
      if x in Registered(now) {
        var f :| f in now && f.m == x && x != 0;
        var k :| 0 <= k < |now| && now[k] == f;
        assert k != j ==> es[k] == f;
      }
      if x in Registered(es) {
        var f :| f in es && f.m == x && x != 0;
        var k :| 0 <= k < |es| && es[k] == f;
        assert now[k] == f;
      }
      assert now[j] == e;
    }
  }

  /**
   For a positive modulus and a sum that is not negative the answer is right
   however it is served, and is missing exactly when no field is left.
   */
  lemma SumCorrect(es: seq<Entry>, m: int, a: int, b: int)
    requires WellFormed(es) && m > 0 && 0 <= a + b <= INT_MAX
    ensures var (r, es') := SumOn(es, m, a, b);
      && WellFormed(es')
      && r == if m in Registered(es) || Spare(es) > 0 then Some((a + b) % m) else None
  {
    FindRegistered(es, m);
    SpareZero(es);
    MaskIsRemainder(BitsOf(a + b));
    var i, j := Find(es, m), Find(es, 0);
    if i < |es| {
      assert es[i] in es;
    } else if j < |es| {
      assert es[j] in es;
      var now := SumOn(es, m, a, b).1;
      forall e <- now
        ensures e.form.Mask16? ==> e.m == 16
      {
        var k :| 0 <= k < |now| && now[k] == e;
        assert k != j ==> es[k] == e;
      }
    }
  }

  /** The field that serves a call: one registered for m, or else a generic one; null if there is neither. */
  function Serving(es: seq<Entry>, m: int): Option<Form> {
    var i, j := Find(es, m), Find(es, 0);
    if i < |es| then Some(es[i].form) else if j < |es| then Some(es[j].form) else None
  }

  /**
   The answer is the residue, or for a negative sum that a remainder serves and
   the modulus does not divide, the residue less the modulus.
   */
  lemma SumExactly(es: seq<Entry>, m: int, a: int, b: int)
    requires WellFormed(es) && m > 0 && INT_MIN <= a + b <= INT_MAX && Serving(es, m).Some?
    ensures SumOn(es, m, a, b).0
         == Some(if a + b >= 0 || (a + b) % m == 0 || Serving(es, m).value.Mask16? then (a + b) % m
                 else (a + b) % m - m)
    ensures SumOn(es, m, a, b).0 == Some((a + b) % m)
       <==> a + b >= 0 || (a + b) % m == 0 || Serving(es, m).value.Mask16?
  {
    var i, j := Find(es, m), Find(es, 0);
    assert i < |es| ==> es[i] in es;
    assert j < |es| ==> es[j] in es;
    var e := if i < |es| then es[i] else es[j].(m := m);
    hide Compute;
    assert e.m == m && SumOn(es, m, a, b).0 == Compute(e, a, b);
    ComputeTraps(e, a, b);
    ComputeValue(e, a, b);
  }

  // ------------------------------------------------------------ whole runs

  datatype Call = Call(m: int, a: int, b: int)

  /** The fields after some calls. */
  function After(es: seq<Entry>, calls: seq<Call>): seq<Entry>
    decreases |calls|
  {
    if calls == [] then es else After(SumOn(es, calls[0].m, calls[0].a, calls[0].b).1, calls[1..])
  }

  /** Every call of the run returns the sum modulo its modulus. */
  ghost predicate AllRight(es: seq<Entry>, calls: seq<Call>)
    decreases |calls|
  {
    calls == [] ||
    var c := calls[0];
    var (r, es') := SumOn(es, c.m, c.a, c.b);
    && (c.m != 0 && r == Some((c.a + c.b) % c.m))
    && AllRight(es', calls[1..])
  }

  ghost function Asked(calls: seq<Call>): set<int> {
    set c <- calls :: c.m
  }

  /** The moduli a run asks for that have no field yet. */
  ghost function Missing(es: seq<Entry>, calls: seq<Call>): set<int> {
    Asked(calls) - Registered(es)
  }

  ghost predicate Plain(calls: seq<Call>) {
    forall c <- calls :: c.m > 0 && 0 <= c.a + c.b <= INT_MAX
  }

  /** No run changes the number of moduli that have a field plus the number of generic fields left. */
  lemma {:induction false} RunConserves(es: seq<Entry>, calls: seq<Call>)
    requires forall c <- calls :: c.m != 0
    ensures |Registered(After(es, calls))| + Spare(After(es, calls)) == |Registered(es)| + Spare(es)
    decreases |calls|
  {
    hide SumOn, Registered, Spare;
    if calls != [] {
      var c := calls[0];
      assert c in calls;
      OneFieldPerModulus(es, c.m, c.a, c.b);
      RunConserves(SumOn(es, c.m, c.a, c.b).1, calls[1..]);
    }
  }

  /** A run is answered rightly exactly when it asks for no more new moduli than there are generic fields. */
  lemma {:induction false} RunCorrect(es: seq<Entry>, calls: seq<Call>)
    requires WellFormed(es) && Plain(calls)
    ensures AllRight(es, calls) <==> |Missing(es, calls)| <= Spare(es)
    decreases |calls|
  {
    hide SumOn, Registered, WellFormed, Spare;
    if calls == [] {
      assert Missing(es, calls) == {};
    } else {
      hide Missing, Asked;
      var c := calls[0];
      assert c in calls;
      var es' := SumOn(es, c.m, c.a, c.b).1;
      SumCorrect(es, c.m, c.a, c.b);
      OneFieldPerModulus(es, c.m, c.a, c.b);
      MissingNext(es, calls, es');
      assert Plain(calls[1..]);
      RunCorrect(es', calls[1..]);
    }
  }

  lemma AskedNext(calls: seq<Call>)
    requires calls != []
    ensures Asked(calls) == {calls[0].m} + Asked(calls[1..])
  {
    assert forall c :: c in calls <==> c == calls[0] || c in calls[1..];
  }

  lemma MissingNext(es: seq<Entry>, calls: seq<Call>, es': seq<Entry>)
    requires calls != [] && calls[0].m != 0
    ensures var m := calls[0].m;
      && (m in Registered(es) ==> Missing(es, calls) == Missing(es, calls[1..]))
      && (m !in Registered(es) ==> |Missing(es, calls)| > 0)
      && (m !in Registered(es) && Registered(es') == Registered(es) + {m} ==>
            |Missing(es', calls[1..])| == |Missing(es, calls)| - 1)
  {
    hide Registered, Asked;
    var m := calls[0].m;
    AskedNext(calls);
    assert m !in Registered(es) ==> m in Missing(es, calls);
    if m !in Registered(es) && Registered(es') == Registered(es) + {m} {
      assert Missing(es', calls[1..]) == Missing(es, calls) - {m};
    }
  }

  lemma Inhabited(s: set<int>)
    requires s != {}
    ensures exists x :: x in s
  {
    assert (forall x :: x !in s) ==> s == {};
  }

  lemma OneElement(s: set<int>)
    ensures |s| <= 1 <==> forall x, y | x in s && y in s :: x == y
  {
    if s != {} {
      Inhabited(s);
      var x :| x in s;
      assert |s - {x}| == |s| - 1;
      if |s| > 1 {
        Inhabited(s - {x});
        var y :| y in s - {x};
        assert y in s && x != y;
      } else {
        assert s - {x} == {};
        assert forall y <- s :: y == x || y in s - {x};
      }
    }
  }

  lemma Shipped()
    ensures var es := [Entry(0, Remainder), Entry(16, Mask16)];
      WellFormed(es) && Registered(es) == {16} && Spare(es) == 1
  {
    var es := [Entry(0, Remainder), Entry(16, Mask16)];
    assert es[0] in es && es[1] in es;
    assert es[1..] == [Entry(16, Mask16)];
    assert es[1..][1..] == [];
  }

  /** With the two fields the repository ships, at most one modulus besides 16 can be used. */
  lemma ShippedFields(calls: seq<Call>)
    requires Plain(calls)
    ensures AllRight([Entry(0, Remainder), Entry(16, Mask16)], calls)
       <==> forall c, d | c in calls && d in calls :: c.m == 16 || d.m == 16 || c.m == d.m
  {
    hide AllRight, WellFormed, Registered, Spare, Plain;
    var es := [Entry(0, Remainder), Entry(16, Mask16)];
    Shipped();
    RunCorrect(es, calls);
    OneElement(Missing(es, calls));
    forall c <- calls
      ensures c.m in Missing(es, calls) <==> c.m != 16
    {
    }
  }

  // ------------------------------------------------------------- the list

  class Registry {
    const fields: Node
    ghost var items: seq<Node>

    ghost predicate Valid()
      reads this, fields, items
    {
      Ring(fields, items)
    }

    ghost function Entries(): (es: seq<Entry>)
      reads this, items
      ensures |es| == |items|
    {
      seq(|items|, i requires 0 <= i < |items| reads this, items => Entry(items[i].m, items[i].form))
    }

    constructor ()
      ensures Valid() && fresh(fields) && items == []
    {
      fields := new Node(0, Remainder);
      items := [];
      new;
      ListInit(fields);
    }

    method RegisterField(f: Node)
      requires Valid() && f != fields && f !in items
      modifies this, fields, items, f
      ensures Valid() && items == [f] + old(items)
      ensures Entries() == [Entry(f.m, f.form)] + old(Entries())
    {
      ListAdd(f, fields, items);
      items := [f] + items;
    }

    /** The walk ends, at the most recently registered field of that modulus. */
    method GetField(m: int) returns (f: Node?)
      requires Valid()
      ensures var i := Find(Entries(), m);
        if i < |items| then f == items[i] else f == null
    {
      assert At(fields, items, 0).next == At(fields, items, 1);
      ghost var i := 0;
      var pos := fields.next;
      while pos != fields
        invariant 0 <= i <= |items| && pos == At(fields, items, i + 1)
        invariant forall k | 0 <= k < i :: Entries()[k].m != m
        decreases |items| - i
      {
        if pos.m == m {
          FindFirst(Entries(), m, i);
          return pos;
        }
        assert At(fields, items, i + 1).next == At(fields, items, i + 2);
        pos := pos.next;
        i := i + 1;
      }
      AtInjective(fields, items);
      FindFirst(Entries(), m, i);
      return null;
    }

    method Sum(m: int, a: int, b: int) returns (r: Option<int>)
      requires Valid()
      modifies items
      ensures Valid() && items == old(items)
      ensures (r, Entries()) == SumOn(old(Entries()), m, a, b)
    {
      ghost var es := Entries();
      var f := GetField(m);
      if f == null {
        f := GetField(0);
        if f == null {
          return None;
        }
        f.m := m;
        ghost var j := Find(es, 0);
        forall k | 0 <= k < |items|
          ensures Entries()[k] == es[j := Entry(m, f.form)][k]
        {
          assert k != j ==> items[k] != items[j];
        }
        assert Entries() == es[j := Entry(m, f.form)];
      }
      r := Compute(Entry(f.m, f.form), a, b);
    }
  }
}
