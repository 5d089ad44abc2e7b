// Small facts about sequences used throughout.
module Lists {

  ghost predicate NoDup<T(!new)>(s: seq<T>) {
    forall i, j :: 0 <= i < j < |s| ==> s[i] != s[j]
  }

  ghost function Elems<T>(s: seq<T>): set<T> {
    set x | x in s
  }

  lemma ElemsAppend<T>(s: seq<T>, t: seq<T>)
    ensures Elems(s + t) == Elems(s) + Elems(t)
  {}

  // A duplicate-free list has as many entries as elements.
  lemma {:induction false} NoDupCardinality<T(!new)>(s: seq<T>)
    requires NoDup(s)
    ensures |Elems(s)| == |s|
  {
    if s != [] {
      var last := |s| - 1;
      NoDupCardinality(s[..last]);
      assert Elems(s) == Elems(s[..last]) + {s[last]};
    }
  }

  // Some element of a set, as a Go range loop over a map would produce.
  method Pick<T>(s: set<T>) returns (x: T)
    requires s != {}
    ensures x in s
  {
    x :| x in s;
  }

  // The same, in proofs.
  lemma Member<T>(s: set<T>) returns (x: T)
    requires s != {}
    ensures x in s
  {
    x :| x in s;
  }

  lemma CardMono<T>(a: set<T>, b: set<T>)
    requires a <= b
    ensures |a| <= |b|
  {
    assert b == a + (b - a);
  }

  lemma MapCardMono<K, V>(a: map<K, V>, b: map<K, V>)
    requires a.Keys <= b.Keys
    ensures |a| <= |b|
  {
    CardMono(a.Keys, b.Keys);
    assert |a| == |a.Keys| && |b| == |b.Keys|;
  }

  lemma MapCardInsert<K, V>(a: map<K, V>, k: K, v: V)
    ensures |a[k := v]| <= |a| + 1
  {
    assert a[k := v].Keys == a.Keys + {k};
    assert |a| == |a.Keys| && |a[k := v]| == |a[k := v].Keys|;
  }

  lemma SameSize<T>(a: set<T>, b: set<T>)
    requires a <= b && |a| == |b|
    ensures a == b
  {
    assert b == a + (b - a);
    assert |b - a| == 0;
    EmptyDifference(b, a);
  }

  lemma EmptyDifference<T>(a: set<T>, b: set<T>)
    requires a - b == {}
    ensures a <= b
  {
    forall x | x in a ensures x in b { assert x !in a - b; }
  }

  // Keep the entries outside `gone`, in order.
  ghost function Without<T>(s: seq<T>, gone: set<T>): seq<T> {
    if s == [] then []
    else if s[0] in gone then Without(s[1..], gone)
    else [s[0]] + Without(s[1..], gone)
  }

  lemma {:induction false} WithoutSnoc<T>(s: seq<T>, x: T, gone: set<T>)
    ensures Without(s + [x], gone) == Without(s, gone) + (if x in gone then [] else [x])
  {
    if s == [] {
      assert s + [x] == [x];
      assert Without([x][1..], gone) == [];
    } else {
      assert (s + [x])[1..] == s[1..] + [x];
      WithoutSnoc(s[1..], x, gone);
    }
  }

  lemma {:induction false} WithoutElems<T(!new)>(s: seq<T>, gone: set<T>)
    ensures Elems(Without(s, gone)) == Elems(s) - gone
    ensures |Without(s, gone)| <= |s|
    ensures NoDup(s) ==> NoDup(Without(s, gone))
  {
    if s != [] {
      WithoutElems(s[1..], gone);
      assert Elems(s) == {s[0]} + Elems(s[1..]);
      var rest := Without(s[1..], gone);
      assert Elems([s[0]] + rest) == {s[0]} + Elems(rest);
      if NoDup(s) {
        assert NoDup(s[1..]);
        assert s[0] !in Elems(s[1..]);
        assert s[0] !in rest by { assert forall x :: x in rest ==> x in Elems(rest); }
      }
    }
  }
}
