// The worker's priority queue (worker/worker.go), a binary heap in a slice.
module Heap {
  import opened Types
  import opened Lists

  datatype Entry = Entry(tx: Transaction, priority: int, sequence: nat)

  // Higher priority first, earlier arrival first among equals.
  predicate Before(a: Entry, b: Entry) {
    if a.priority != b.priority then a.priority > b.priority else a.sequence < b.sequence
  }

  ghost function Parent(i: nat): nat {
    if i == 0 then 0 else (i - 1) / 2
  }

  // Entry i does not come before its parent.
  ghost predicate Below(q: seq<Entry>, i: nat)
    requires i < |q|
  {
    i == 0 || !Before(q[i], q[Parent(i)])
  }

  ghost predicate HeapOrdered(q: seq<Entry>) {
    forall i :: 0 <= i < |q| ==> Below(q, i)
  }

  // Nothing in a heap comes before its root.
  lemma {:induction false} RootIsFirst(q: seq<Entry>, i: nat)
    requires HeapOrdered(q) && i < |q|
    ensures !Before(q[i], q[0])
  {
    if i > 0 {
      assert Below(q, i);
      RootIsFirst(q, Parent(i));
    }
  }

  function Swapped(q: seq<Entry>, i: nat, j: nat): (r: seq<Entry>)
    requires i < |q| && j < |q|
    ensures |r| == |q|
  {
    q[i := q[j]][j := q[i]]
  }

  lemma SwapKeeps(q: seq<Entry>, i: nat, j: nat)
    requires i < |q| && j < |q|
    ensures Elems(Swapped(q, i, j)) == Elems(q)
    ensures NoDup(q) ==> NoDup(Swapped(q, i, j))
  {
    var r := Swapped(q, i, j);
    assert r[i] == q[j] && r[j] == q[i];
    forall x | x in q ensures x in r {
      var k :| 0 <= k < |q| && q[k] == x;
      assert r[if k == i then j else if k == j then i else k] == x;
    }
  }

  class PriorityQueue {
    var q: seq<Entry>

    constructor ()
      ensures q == []
    {
      q := [];
    }

    method Push(e: Entry)
      requires HeapOrdered(q) && NoDup(q) && e !in q
      modifies this
      ensures HeapOrdered(q) && NoDup(q) && Elems(q) == Elems(old(q)) + {e} && |q| == |old(q)| + 1
    {
      q := q + [e];
      forall i | 0 <= i < |q| - 1 ensures Below(q, i) {
        assert Below(old(q), i);
      }
      Up();
    }

    // Everything is in order except the last entry, which rises to its place.
    method Up()
      requires q != [] && NoDup(q) && forall i :: 0 <= i < |q| - 1 ==> Below(q, i)
      modifies this
      ensures HeapOrdered(q) && NoDup(q) && Elems(q) == Elems(old(q)) && |q| == |old(q)|
    {
      var j := |q| - 1;
      while j > 0 && Before(q[j], q[(j - 1) / 2])
        invariant 0 <= j < |q| && |q| == |old(q)| && NoDup(q) && Elems(q) == Elems(old(q))
        invariant forall i :: 0 <= i < |q| && i != j ==> Below(q, i)
        invariant j > 0 ==> forall i :: 0 < i < |q| && Parent(i) == j ==> !Before(q[i], q[Parent(j)])
      {
        var p := (j - 1) / 2;
        SwapKeeps(q, p, j);
        RaiseOne(q, j);
        q := Swapped(q, p, j);
        j := p;
      }
    }

    // The first entry: none of the others comes before it.
    method Pop() returns (e: Entry)
      requires HeapOrdered(q) && NoDup(q) && q != []
      modifies this
      ensures HeapOrdered(q) && NoDup(q) && e == old(q)[0] && e !in q
      ensures Elems(q) == Elems(old(q)) - {e} && |q| == |old(q)| - 1
      ensures forall x :: x in Elems(old(q)) ==> !Before(x, e)
    {
      forall x | x in q ensures !Before(x, q[0]) {
        var i :| 0 <= i < |q| && q[i] == x;
        RootIsFirst(q, i);
      }
      var n := |q| - 1;
      SwapKeeps(q, 0, n);
      e := q[0];
      assert forall i :: 0 <= i < n && Parent(i) != 0 ==> Below(q, i);
      q := Swapped(q, 0, n);
      var last := q[n];
      assert last == e;
      q := q[..n];
      assert Swapped(old(q), 0, n) == q + [e];
      assert e !in q && Elems(q) == Elems(old(q)) - {e};
      Down();
      assert e !in Elems(q);
    }

    // Everything is in order except the root, which sinks to its place.
    method Down()
      requires NoDup(q) && forall i :: 0 <= i < |q| && Parent(i) != 0 ==> Below(q, i)
      modifies this
      ensures HeapOrdered(q) && NoDup(q) && Elems(q) == Elems(old(q)) && |q| == |old(q)|
    {
      var i := 0;
      while 2 * i + 1 < |q|
        invariant 0 <= i && |q| == |old(q)| && NoDup(q) && Elems(q) == Elems(old(q))
        invariant Sinking(q, i)
      {
        var j := 2 * i + 1;
        if j + 1 < |q| && Before(q[j + 1], q[j]) {
          j := j + 1;
        }
        if !Before(q[j], q[i]) {
          return;
        }
        SwapKeeps(q, i, j);
        SinkOne(q, i, j);
        q := Swapped(q, i, j);
        i := j;
      }
    }
  }

  // Swapping an entry with its parent moves the disorder up.
  lemma RaiseOne(q: seq<Entry>, j: nat)
    requires 0 < j < |q| && Before(q[j], q[Parent(j)])
    requires forall i :: 0 <= i < |q| && i != j ==> Below(q, i)
    requires forall i :: 0 < i < |q| && Parent(i) == j ==> !Before(q[i], q[Parent(j)])
    ensures var r, p := Swapped(q, Parent(j), j), Parent(j);
      && (forall i :: 0 <= i < |r| && i != p ==> Below(r, i))
      && (p > 0 ==> forall i :: 0 < i < |r| && Parent(i) == p ==> !Before(r[i], r[Parent(p)]))
  {
    var r, p := Swapped(q, Parent(j), j), Parent(j);
    forall i | 0 <= i < |r| && i != p ensures Below(r, i) {
      assert Below(q, i) || i == j;
    }
    if p > 0 {
      assert Below(q, p);
      forall i | 0 < i < |r| && Parent(i) == p ensures !Before(r[i], r[Parent(p)]) {
        assert i == j || Below(q, i);
      }
    }
  }

  // Everything is in order except below entry i, whose children suit its parent.
  ghost predicate Sinking(q: seq<Entry>, i: nat) {
    && (forall k {:trigger Below(q, k)} :: 0 <= k < |q| && Parent(k) != i ==> Below(q, k))
    && (0 < i < |q| ==> forall k {:trigger q[k]} :: 0 < k < |q| && Parent(k) == i ==> !Before(q[k], q[Parent(i)]))
  }

  // j is the child of i that comes first, and it comes before i.
  ghost predicate FirstChild(q: seq<Entry>, i: nat, j: nat) {
    && j < |q| && (j == 2 * i + 1 || j == 2 * i + 2) && Before(q[j], q[i])
    && (j == 2 * i + 1 && j + 1 < |q| ==> !Before(q[j + 1], q[j]))
    && (j == 2 * i + 2 ==> Before(q[j], q[j - 1]))
  }

  // Swapping an entry with its first child moves the disorder down.
  lemma SinkOne(q: seq<Entry>, i: nat, j: nat)
    requires Sinking(q, i) && FirstChild(q, i, j)
    ensures Sinking(Swapped(q, i, j), j)
  {
    var r := Swapped(q, i, j);
    forall k | 0 <= k < |r| && Parent(k) != j ensures Below(r, k) {
      if k > 0 {
        SunkInPlace(q, i, j, k);
      }
    }
    forall k | 0 < k < |r| && Parent(k) == j ensures !Before(r[k], r[Parent(j)]) {
      assert Parent(j) == i && k != i && k != j;
      assert Below(q, k);
    }
  }

  lemma SunkInPlace(q: seq<Entry>, i: nat, j: nat, k: nat)
    requires Sinking(q, i) && FirstChild(q, i, j) && 0 < k < |q| && Parent(k) != j
    ensures Below(Swapped(q, i, j), k)
  {
    var r := Swapped(q, i, j);
    assert Parent(j) == i && i < j;
    if Parent(k) == i {
      Siblings(i, k);
      assert r[i] == q[j];
      if k == j {
        assert r[k] == q[i];
      } else {
        assert r[k] == q[k] && !Before(q[k], q[j]);
      }
    } else if k == i {
      assert r[k] == q[j] && r[Parent(k)] == q[Parent(i)];
    } else {
      assert Below(q, k);
      assert r[k] == q[k] && r[Parent(k)] == q[Parent(k)];
    }
  }

  lemma Siblings(i: nat, k: nat)
    requires k > 0 && Parent(k) == i
    ensures k == 2 * i + 1 || k == 2 * i + 2
  {}
}
