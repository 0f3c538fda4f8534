/** The search frontier. The original keeps it in a priority queue of
    `(priority, (x, y))` tuples; Python compares such tuples field by field, so
    `get` hands back the entry with the smallest priority, ties broken by the
    smaller `x` and then the smaller `y`. The queue is modelled by the sequence
    of its entries together with that minimum selection. */
module Frontier {
  import opened Grid

  /** One queued entry: a priority (in tenths) and the cell it is for. */
  datatype Entry = Entry(priority: nat, cell: Cell)

  /** Python's tuple order on `(priority, (x, y))`. */
  predicate EntryLe(a: Entry, b: Entry) {
    a.priority < b.priority ||
    (a.priority == b.priority &&
     (a.cell.x < b.cell.x || (a.cell.x == b.cell.x && a.cell.y <= b.cell.y)))
  }

  /** The tuple order is a total order on entries, so the minimum of a
      non-empty queue is one well-defined value. */
  lemma EntryLeIsTotalOrder(a: Entry, b: Entry, c: Entry)
    ensures EntryLe(a, a)
    ensures EntryLe(a, b) || EntryLe(b, a)
    ensures EntryLe(a, b) && EntryLe(b, a) ==> a == b
    ensures EntryLe(a, b) && EntryLe(b, c) ==> EntryLe(a, c)
  {
  }

  /** Position of the least entry of a non-empty queue. */
  method MinIndex(q: seq<Entry>) returns (m: nat)
    requires |q| > 0
    ensures m < |q|
    ensures forall j :: 0 <= j < |q| ==> EntryLe(q[m], q[j])
  {
    m := 0;
    for i := 1 to |q|
      invariant m < i
      invariant forall j :: 0 <= j < i ==> EntryLe(q[m], q[j])
    {
      if !EntryLe(q[m], q[i]) {
        m := i;
      }
    }
  }

  /** `open_set.get()`: removes one occurrence of the least entry and returns
      it together with the remaining queue. */
  method Get(q: seq<Entry>) returns (e: Entry, rest: seq<Entry>)
    requires |q| > 0
    ensures e in q && forall x :: x in q ==> EntryLe(e, x)
    ensures multiset(rest) == multiset(q) - multiset{e}
    ensures |rest| == |q| - 1
    ensures forall x :: x in rest ==> x in q
    ensures forall x :: x in q && x != e ==> x in rest
  {
    var m := MinIndex(q);
    e := q[m];
    rest := q[..m] + q[m + 1..];
    assert q == q[..m] + [e] + q[m + 1..];
    assert multiset(q) == multiset(rest) + multiset{e};
    forall x | x in q && x != e
      ensures x in rest
    {
      assert x in multiset(q);
    }
    forall x | x in rest
      ensures x in q
    {
      assert x in multiset(rest);
    }
  }
}
