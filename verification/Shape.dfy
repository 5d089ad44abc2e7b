// The shape of the DAG that adds alone build (dag/dag.go): closure under parents and cycles.
module Shape {
  import opened Types
  import opened History
  import opened Dag

  // Every parent reference of an indexed certificate resolves in the index.
  ghost predicate ParentClosed(g: Graph) {
    forall d, p :: d in g && p in g[d].Parents() ==> p in g
  }

  ghost predicate Acyclic(g: Graph) {
    forall d, p :: |p| > 1 ==> !IsPath(g, d, d, p)
  }

  // Each indexed certificate is the accepted one of that digest that came last.
  lemma {:induction false} IndexedWasAccepted(cfg: Config, cs: seq<Certificate>, d: Hash) returns (i: nat)
    requires d in Adds(cfg, cs).index
    ensures i < |Accepted(cfg, cs)| && Accepted(cfg, cs)[i] == Adds(cfg, cs).index[d]
      && Accepted(cfg, cs)[i].Digest() == d
    decreases |cs|
  {
    var before, c := cs[..|cs| - 1], cs[|cs| - 1];
    if AddOutcome(Adds(cfg, before), c) == Added && d == c.Digest() {
      i := |Accepted(cfg, before)|;
    } else {
      i := IndexedWasAccepted(cfg, before, d);
    }
  }

  lemma DigestsOfPrefix(order: seq<Certificate>, i: nat, p: Hash)
    requires i <= |order| && p in Digests(order[..i])
    ensures p in Digests(order) && exists j :: 0 <= j < i && order[j].Digest() == p
  {
    var c :| c in order[..i] && c.Digest() == p;
    var j :| 0 <= j < i && order[..i][j] == c;
    assert order[j] == c && c in order;
  }

  // The index is closed under parents exactly when what its round-0 certificates cite is indexed:
  // the code looks up parents only above round 0.
  lemma ClosedIff(cfg: Config, cs: seq<Certificate>)
    ensures var g := Adds(cfg, cs).index;
      ParentClosed(g) <==> forall d, p :: d in g && g[d].Round() == 0 && p in g[d].Parents() ==> p in g
  {
    var g, order := Adds(cfg, cs).index, Accepted(cfg, cs);
    InsertionRanksParents(cfg, cs);
    forall d, p | d in g && g[d].Round() > 0 && p in g[d].Parents() ensures p in g.Keys {
      var i := IndexedWasAccepted(cfg, cs, d);
      assert order[i].Round() > 0 && p in order[i].Parents();
      DigestsOfPrefix(order, i, p);
    }
    assert forall d, p :: d in g && g[d].Round() > 0 && p in g[d].Parents() ==> p in g;
  }

  // When accepted digests are distinct, the parents of a certificate above round 0 were accepted
  // before it.
  ghost predicate Ranked(order: seq<Certificate>, d: Hash, i: nat) {
    i < |order| && order[i].Digest() == d
  }

  lemma EdgeRanks(cfg: Config, cs: seq<Certificate>, x: Hash, y: Hash, i: nat, j: nat)
    requires DistinctDigests(Accepted(cfg, cs)) && Edge(Adds(cfg, cs).index, x, y) && Adds(cfg, cs).index[x].Round() > 0
    requires Ranked(Accepted(cfg, cs), x, i) && Ranked(Accepted(cfg, cs), y, j)
    ensures j < i
  {
    var order := Accepted(cfg, cs);
    InsertionRanksParents(cfg, cs);
    var k := IndexedWasAccepted(cfg, cs, x);
    assert k == i;
    assert order[i].Round() > 0 && y in order[i].Parents();
    DigestsOfPrefix(order, i, y);
    var j' :| 0 <= j' < i && order[j'].Digest() == y;
    assert j' == j;
  }

  // The m-th step of the path starts above round 0.
  ghost predicate LeavesAbove(g: Graph, p: seq<Hash>, m: nat)
    requires m + 1 < |p|
  {
    Edge(g, p[m], p[m + 1]) && g[p[m]].Round() > 0
  }

  // A path that leaves no round-0 certificate only goes back in the order of acceptance.
  lemma {:induction false} PathDescends(cfg: Config, cs: seq<Certificate>, p: seq<Hash>, k: nat, i: nat, j: nat)
    requires DistinctDigests(Accepted(cfg, cs)) && 0 < k < |p|
    requires forall m :: 0 <= m < |p| - 1 ==> LeavesAbove(Adds(cfg, cs).index, p, m)
    requires Ranked(Accepted(cfg, cs), p[0], i) && Ranked(Accepted(cfg, cs), p[k], j)
    ensures j < i
    decreases k
  {
    var m := k - 1;
    assert LeavesAbove(Adds(cfg, cs).index, p, m);
    if m == 0 {
      EdgeRanks(cfg, cs, p[0], p[1], i, j);
    } else {
      var r := IndexedWasAccepted(cfg, cs, p[m]);
      PathDescends(cfg, cs, p, m, i, r);
      EdgeRanks(cfg, cs, p[m], p[m + 1], r, j);
    }
  }

  // Every cycle leaves some round-0 certificate.
  lemma CyclesPassRoundZero(cfg: Config, cs: seq<Certificate>, d: Hash, p: seq<Hash>) returns (i: nat)
    requires DistinctDigests(Accepted(cfg, cs)) && IsPath(Adds(cfg, cs).index, d, d, p) && |p| > 1
    ensures i < |p| - 1 && p[i] in Adds(cfg, cs).index && Adds(cfg, cs).index[p[i]].Round() == 0
  {
    var g := Adds(cfg, cs).index;
    if forall m :: 0 <= m < |p| - 1 ==> LeavesAbove(g, p, m) {
      assert LeavesAbove(g, p, 0);
      var r := IndexedWasAccepted(cfg, cs, d);
      PathDescends(cfg, cs, p, |p| - 1, r, r);
    }
    i :| i < |p| - 1 && !LeavesAbove(g, p, i);
    assert Edge(g, p[i], p[i + 1]);
  }

  // x has a parent from which x can be reached again.
  ghost predicate CitesDescendant(g: Graph, x: Hash) {
    exists y, q :: Edge(g, x, y) && IsPath(g, y, x, q)
  }

  lemma CycleAt(g: Graph, d: Hash, p: seq<Hash>, i: nat)
    requires IsPath(g, d, d, p) && i < |p| - 1
    ensures CitesDescendant(g, p[i])
  {
    var q := p[i + 1..] + p[1..i + 1];
    assert Edge(g, p[i], p[i + 1]);
    forall k | 0 <= k < |q| - 1 ensures Edge(g, q[k], q[k + 1]) {
      var n := |p| - i - 1;
      if k < n - 1 {
        assert Edge(g, p[i + 1 + k], p[i + 1 + k + 1]);
      } else if k == n - 1 {
        assert q[k] == p[|p| - 1] == p[0] && Edge(g, p[0], p[0 + 1]);
      } else {
        assert Edge(g, p[k - n + 1], p[k - n + 1 + 1]);
      }
    }
    assert IsPath(g, p[i + 1], p[i], q);
  }

  lemma DescendantClosesCycle(g: Graph, x: Hash)
    requires CitesDescendant(g, x)
    ensures !Acyclic(g)
  {
    var y, q :| Edge(g, x, y) && IsPath(g, y, x, q);
    var p := [x] + q;
    forall k | 0 <= k < |p| - 1 ensures Edge(g, p[k], p[k + 1]) {
      if k > 0 {
        assert Edge(g, q[k - 1], q[k - 1 + 1]);
      }
    }
    assert IsPath(g, x, x, p);
  }

  lemma CycleMeansDescendant(cfg: Config, cs: seq<Certificate>) returns (x: Hash)
    requires DistinctDigests(Accepted(cfg, cs)) && !Acyclic(Adds(cfg, cs).index)
    ensures var g := Adds(cfg, cs).index; x in g && g[x].Round() == 0 && CitesDescendant(g, x)
  {
    var g := Adds(cfg, cs).index;
    var d, p :| |p| > 1 && IsPath(g, d, d, p);
    var i := CyclesPassRoundZero(cfg, cs, d, p);
    CycleAt(g, d, p, i);
    x := p[i];
  }

  // With distinct digests the graph has a cycle exactly when some round-0 certificate cites a
  // certificate that descends from it.
  lemma AcyclicIff(cfg: Config, cs: seq<Certificate>)
    requires DistinctDigests(Accepted(cfg, cs))
    ensures var g := Adds(cfg, cs).index;
      Acyclic(g) <==> forall x :: x in g && g[x].Round() == 0 ==> !CitesDescendant(g, x)
  {
    var g := Adds(cfg, cs).index;
    if Acyclic(g) {
      forall x | x in g && g[x].Round() == 0 ensures !CitesDescendant(g, x) {
        if CitesDescendant(g, x) {
          DescendantClosesCycle(g, x);
        }
      }
    } else {
      var x := CycleMeansDescendant(cfg, cs);
    }
  }

  // In particular it is acyclic, and closed, when round-0 certificates cite nothing.
  lemma GenesisWithoutParents(cfg: Config, cs: seq<Certificate>)
    requires DistinctDigests(Accepted(cfg, cs))
    requires forall c :: c in cs && c.Round() == 0 ==> c.Parents() == {}
    ensures ParentClosed(Adds(cfg, cs).index) && Acyclic(Adds(cfg, cs).index)
  {
    var g := Adds(cfg, cs).index;
    forall d | d in g && g[d].Round() == 0 ensures g[d].Parents() == {} {
      var i := IndexedWasAccepted(cfg, cs, d);
      AcceptedWasOffered(cfg, cs, i);
    }
    ClosedIff(cfg, cs);
    AcyclicIff(cfg, cs);
  }

  lemma {:induction false} AcceptedWasOffered(cfg: Config, cs: seq<Certificate>, i: nat)
    requires i < |Accepted(cfg, cs)|
    ensures Accepted(cfg, cs)[i] in cs
    decreases |cs|
  {
    var before, c := cs[..|cs| - 1], cs[|cs| - 1];
    if i < |Accepted(cfg, before)| {
      AcceptedWasOffered(cfg, before, i);
    }
  }

  // Two certificates of round 0 that cite each other.
  ghost function Genesis(author: nat, digest: Hash, parent: Hash): Certificate {
    Certificate(Header(author, 0, 0, [], [CertRef(parent, 0)], 0, digest, Sig(author, digest, 0)), [])
  }

  lemma GenesisParents(author: nat, digest: Hash, parent: Hash)
    ensures Genesis(author, digest, parent).Parents() == {parent}
  {
    assert Genesis(author, digest, parent).header.parents[0] == CertRef(parent, 0);
  }

  lemma AddsSnoc(cfg: Config, cs: seq<Certificate>, c: Certificate)
    ensures Adds(cfg, cs + [c]) == AddSpec(cfg, Adds(cfg, cs), c)
  {
    assert (cs + [c])[..|cs|] == cs;
  }

  // Both are accepted: the first alone leaves the index open, and together they form a cycle.
  lemma RoundZeroCycle(cfg: Config)
    ensures var a, b := Genesis(0, 1, 2), Genesis(1, 2, 1);
      && !ParentClosed(Adds(cfg, [a]).index)
      && Edge(Adds(cfg, [a, b]).index, 1, 2) && Edge(Adds(cfg, [a, b]).index, 2, 1) && !Acyclic(Adds(cfg, [a, b]).index)
  {
    var a, b := Genesis(0, 1, 2), Genesis(1, 2, 1);
    GenesisParents(0, 1, 2);
    GenesisParents(1, 2, 1);
    AddsSnoc(cfg, [], a);
    AddsSnoc(cfg, [a], b);
    assert [] + [a] == [a] && [a] + [b] == [a, b];
    var g1, g2 := Adds(cfg, [a]).index, Adds(cfg, [a, b]).index;
    assert 1 in g1 && g1[1] == a && 2 !in g1;
    assert 2 in g1[1].Parents();
    assert 1 in g2 && g2[1] == a && 2 in g2 && g2[2] == b;
    var p := [1, 2, 1];
    assert Edge(g2, 1, 2) && Edge(g2, 2, 1);
    assert IsPath(g2, 1, 1, p);
  }
}
