// The canonical order of certificates: by round, then by author.
module Ordering {
  import opened Types
  import opened Lists

  ghost predicate Precedes(a: Certificate, b: Certificate) {
    a.Round() < b.Round() || (a.Round() == b.Round() && a.Author() <= b.Author())
  }

  ghost predicate Sorted(cs: seq<Certificate>) {
    forall i, j :: 0 <= i < j < |cs| ==> Precedes(cs[i], cs[j])
  }

  // At most one certificate per round and author.
  ghost predicate DistinctSlots(cs: set<Certificate>) {
    forall a, b :: a in cs && b in cs && a.Round() == b.Round() && a.Author() == b.Author() ==> a == b
  }

  // A set of certificates with distinct slots has only one sorted listing, so the order does
  // not depend on arrival or on map iteration.
  lemma {:induction false} SortedIsUnique(x: seq<Certificate>, y: seq<Certificate>)
    requires Sorted(x) && Sorted(y) && NoDup(x) && NoDup(y) && Elems(x) == Elems(y) && DistinctSlots(Elems(x))
    ensures x == y
    decreases |x|
  {
    NoDupCardinality(x);
    NoDupCardinality(y);
    if x != [] {
      assert x[0] in Elems(y) && y[0] in Elems(x);
      var i, j :| 0 <= i < |y| && y[i] == x[0] && 0 <= j < |x| && x[j] == y[0];
      assert x[0] == y[0];
      TailElems(x);
      TailElems(y);
      SortedIsUnique(x[1..], y[1..]);
      assert x == [x[0]] + x[1..] && y == [y[0]] + y[1..];
    }
  }

  lemma TailElems<T(!new)>(x: seq<T>)
    requires NoDup(x) && x != []
    ensures Elems(x[1..]) == Elems(x) - {x[0]} && NoDup(x[1..])
  {
    assert x == [x[0]] + x[1..];
    ElemsAppend([x[0]], x[1..]);
    forall t | t in x[1..] ensures t != x[0] {
      var k :| 0 <= k < |x[1..]| && x[1..][k] == t;
      assert x[k + 1] == t;
    }
  }

  // Joining a sorted listing with one that lies entirely above it.
  lemma JoinSorted(x: seq<Certificate>, y: seq<Certificate>)
    requires Sorted(x) && Sorted(y) && NoDup(x) && NoDup(y)
    requires forall a, b :: a in x && b in y ==> a.Round() < b.Round()
    ensures Sorted(x + y) && NoDup(x + y)
  {
    var z := x + y;
    forall i, j | 0 <= i < j < |z| ensures Precedes(z[i], z[j]) && z[i] != z[j] {
      if i < |x| && |x| <= j { assert z[i] in x && z[j] in y; }
    }
  }

  // The per-round sort by author.
  method SortByAuthor(certs: seq<Certificate>, ghost round: nat) returns (out: seq<Certificate>)
    requires NoDup(certs) && forall c :: c in certs ==> c.Round() == round
    ensures Elems(out) == Elems(certs) && NoDup(out) && Sorted(out)
    ensures forall c :: c in out ==> c.Round() == round
  {
    out := [];
    for i := 0 to |certs|
      invariant Elems(out) == Elems(certs[..i]) && NoDup(out) && Sorted(out)
    {
      var c := certs[i];
      var k := 0;
      while k < |out| && out[k].Author() <= c.Author()
        invariant 0 <= k <= |out|
        invariant forall j :: 0 <= j < k ==> out[j].Author() <= c.Author()
      {
        k := k + 1;
      }
      assert c !in Elems(certs[..i]);
      assert certs[..i + 1] == certs[..i] + [c];
      InsertAt(out, c, k, round) by {
        assert forall x :: x in out ==> x in Elems(out);
      }
      out := out[..k] + [c] + out[k..];
    }
    assert certs[..|certs|] == certs;
    assert forall c :: c in out ==> c in Elems(out);
  }

  lemma InsertAt(out: seq<Certificate>, c: Certificate, k: nat, round: nat)
    requires k <= |out| && NoDup(out) && Sorted(out) && c !in Elems(out) && c.Round() == round
    requires forall x :: x in out ==> x.Round() == round
    requires forall j :: 0 <= j < k ==> out[j].Author() <= c.Author()
    requires k < |out| ==> c.Author() < out[k].Author()
    ensures var out' := out[..k] + [c] + out[k..];
      Sorted(out') && NoDup(out') && Elems(out') == Elems(out) + {c}
  {
    InsertElems(out, c, k);
    var out' := out[..k] + [c] + out[k..];
    forall i, j | 0 <= i < j < |out'| ensures Precedes(out'[i], out'[j]) {
      assert k < |out| && k < j - 1 ==> Precedes(out[k], out[j - 1]);
    }
  }

  lemma InsertElems<T(!new)>(s: seq<T>, x: T, k: nat)
    requires k <= |s| && NoDup(s) && x !in Elems(s)
    ensures var t := s[..k] + [x] + s[k..]; NoDup(t) && Elems(t) == Elems(s) + {x}
  {
    assert s == s[..k] + s[k..];
    ElemsAppend(s[..k], s[k..]);
    ElemsAppend(s[..k], [x]);
    ElemsAppend(s[..k] + [x], s[k..]);
    assert forall i :: 0 <= i < |s| ==> s[i] in Elems(s);
  }
}
