// Causal history: the level-by-level walk over parent references, and what it means.
module History {
  import opened Types
  import opened Lists

  type Graph = map<Hash, Certificate>

  // Follow one certificate's parent references, in order: mark each unseen digest, and
  // queue its certificate when the digest resolves.
  ghost function ExpandOne(g: Graph, parents: seq<CertRef>, visited: set<Hash>, queue: seq<Certificate>)
    : (set<Hash>, seq<Certificate>)
    decreases |parents|
  {
    if parents == [] then (visited, queue)
    else
      var d := parents[0].digest;
      if d in visited then ExpandOne(g, parents[1..], visited, queue)
      else ExpandOne(g, parents[1..], visited + {d}, if d in g then queue + [g[d]] else queue)
  }

  ghost function ExpandLevel(g: Graph, level: seq<Certificate>, visited: set<Hash>, queue: seq<Certificate>)
    : (set<Hash>, seq<Certificate>)
    decreases |level|
  {
    if level == [] then (visited, queue)
    else
      var (v, q) := ExpandOne(g, level[0].header.parents, visited, queue);
      ExpandLevel(g, level[1..], v, q)
  }

  ghost function Walk(g: Graph, level: seq<Certificate>, visited: set<Hash>, depth: nat): seq<Certificate>
    decreases depth
  {
    if level == [] || depth == 0 then []
    else
      var (v, q) := ExpandLevel(g, level, visited, []);
      level + Walk(g, q, v, depth - 1)
  }

  // The history a fresh traversal from c returns, for a depth limit that may be non-positive.
  ghost function FreshHistory(g: Graph, c: Certificate, maxDepth: int): seq<Certificate> {
    Walk(g, [c], {c.Digest()}, if maxDepth < 0 then 0 else maxDepth)
  }

  // ---- Reference meaning: parent distance -------------------------------------------------

  // The resolvable parents of the members of s.
  ghost function Kids(g: Graph, s: set<Hash>): set<Hash> {
    set x, ref | x in s && x in g && ref in g[x].header.parents && ref.digest in g :: ref.digest
  }

  // The digests at parent distance at most k from root.
  ghost function Within(g: Graph, root: Hash, k: nat): set<Hash> {
    if k == 0 then {root} else Within(g, root, k - 1) + Kids(g, Within(g, root, k - 1))
  }

  ghost predicate Edge(g: Graph, x: Hash, y: Hash) {
    x in g && y in g && y in g[x].Parents()
  }

  // p walks along resolvable parent references from root to d.
  ghost predicate IsPath(g: Graph, root: Hash, d: Hash, p: seq<Hash>) {
    && |p| > 0 && p[0] == root && p[|p| - 1] == d
    && forall i :: 0 <= i < |p| - 1 ==> Edge(g, p[i], p[i + 1])
  }

  ghost predicate Keyed(g: Graph) {
    forall d :: d in g ==> g[d].Digest() == d
  }

  lemma KidsEdge(g: Graph, s: set<Hash>, y: Hash)
    ensures y in Kids(g, s) <==> exists x :: x in s && Edge(g, x, y)
  {
    if y in Kids(g, s) {
      var x, ref :| x in s && x in g && ref in g[x].header.parents && ref.digest in g && ref.digest == y;
      assert Edge(g, x, y);
    }
    if x :| x in s && Edge(g, x, y) {
      var ref :| ref in g[x].header.parents && ref.digest == y;
      assert ref.digest in Kids(g, s);
    }
  }

  lemma {:induction false} PathIsWithin(g: Graph, root: Hash, d: Hash, p: seq<Hash>)
    requires IsPath(g, root, d, p)
    ensures d in Within(g, root, |p| - 1)
    decreases |p|
  {
    if |p| > 1 {
      var q := p[..|p| - 1];
      assert Edge(g, p[|p| - 2], p[|p| - 1]);
      assert IsPath(g, root, q[|q| - 1], q) by {
        forall i | 0 <= i < |q| - 1 ensures Edge(g, q[i], q[i + 1]) { assert Edge(g, p[i], p[i + 1]); }
      }
      PathIsWithin(g, root, q[|q| - 1], q);
      KidsEdge(g, Within(g, root, |q| - 1), d);
    }
  }

  lemma {:induction false} WithinHasPath(g: Graph, root: Hash, d: Hash, k: nat) returns (p: seq<Hash>)
    requires d in Within(g, root, k)
    ensures IsPath(g, root, d, p) && |p| <= k + 1
    decreases k
  {
    if k == 0 {
      p := [root];
    } else if d in Within(g, root, k - 1) {
      p := WithinHasPath(g, root, d, k - 1);
    } else {
      KidsEdge(g, Within(g, root, k - 1), d);
      var x :| x in Within(g, root, k - 1) && Edge(g, x, d);
      var q := WithinHasPath(g, root, x, k - 1);
      p := q + [d];
      forall i | 0 <= i < |p| - 1 ensures Edge(g, p[i], p[i + 1]) {
        if i < |q| - 1 { assert Edge(g, q[i], q[i + 1]); }
      }
    }
  }

  lemma {:induction false} WithinMono(g: Graph, root: Hash, j: nat, k: nat)
    requires j <= k
    ensures Within(g, root, j) <= Within(g, root, k)
    decreases k
  {
    if j < k { WithinMono(g, root, j, k - 1); }
  }

  // Distance at most k is the same as having a path of at most k steps.
  lemma WithinIsPath(g: Graph, root: Hash, d: Hash, k: nat)
    ensures d in Within(g, root, k) <==> exists p :: IsPath(g, root, d, p) && |p| <= k + 1
  {
    if d in Within(g, root, k) {
      var p := WithinHasPath(g, root, d, k);
    }
    forall p | IsPath(g, root, d, p) && |p| <= k + 1 ensures d in Within(g, root, k) {
      PathIsWithin(g, root, d, p);
      WithinMono(g, root, |p| - 1, k);
    }
  }

  // ---- What expanding a level does --------------------------------------------------------

  ghost function Digests(s: seq<Certificate>): set<Hash> {
    set c | c in s :: c.Digest()
  }

  ghost predicate DistinctDigests(s: seq<Certificate>) {
    forall i, j :: 0 <= i < j < |s| ==> s[i].Digest() != s[j].Digest()
  }

  ghost predicate Resolved(g: Graph, s: seq<Certificate>) {
    forall c :: c in s ==> c.Digest() in g && g[c.Digest()] == c
  }

  ghost function RefDigests(refs: seq<CertRef>): set<Hash> {
    set ref | ref in refs :: ref.digest
  }

  lemma DigestsAppend(s: seq<Certificate>, t: seq<Certificate>)
    ensures Digests(s + t) == Digests(s) + Digests(t)
  {
    assert forall c :: c in s + t <==> c in s || c in t;
  }

  // Growing a queue by certificates whose digests were just marked.
  ghost predicate Grown(g: Graph, visited: set<Hash>, queue: seq<Certificate>, v: set<Hash>, q: seq<Certificate>,
                        marked: set<Hash>) {
    && v == visited + marked
    && |queue| <= |q| && q[..|queue|] == queue
    && Digests(q) == Digests(queue) + (marked - visited) * g.Keys
  }

  ghost predicate GoodQueue(g: Graph, visited: set<Hash>, queue: seq<Certificate>) {
    DistinctDigests(queue) && Resolved(g, queue) && Digests(queue) <= visited
  }

  lemma GrownTwice(g: Graph, v0: set<Hash>, q0: seq<Certificate>, v1: set<Hash>, q1: seq<Certificate>, v2: set<Hash>,
                   q2: seq<Certificate>, m1: set<Hash>, m2: set<Hash>)
    requires Grown(g, v0, q0, v1, q1, m1) && Grown(g, v1, q1, v2, q2, m2)
    ensures Grown(g, v0, q0, v2, q2, m1 + m2)
  {
    assert q2[..|q0|] == q2[..|q1|][..|q0|];
  }

  // Marking one unseen digest.
  lemma MarkOne(g: Graph, d: Hash, visited: set<Hash>, queue: seq<Certificate>)
    requires Keyed(g) && GoodQueue(g, visited, queue) && d !in visited
    ensures var q := if d in g then queue + [g[d]] else queue;
      Grown(g, visited, queue, visited + {d}, q, {d}) && GoodQueue(g, visited + {d}, q)
  {
    if d in g {
      var q := queue + [g[d]];
      DigestsAppend(queue, [g[d]]);
      assert Digests([g[d]]) == {d};
      assert forall i :: 0 <= i < |queue| ==> queue[i].Digest() in Digests(queue);
    }
  }

  lemma {:induction false} ExpandOneMeaning(g: Graph, parents: seq<CertRef>, visited: set<Hash>,
                                            queue: seq<Certificate>)
    requires Keyed(g) && GoodQueue(g, visited, queue)
    ensures var (v, q) := ExpandOne(g, parents, visited, queue);
      Grown(g, visited, queue, v, q, RefDigests(parents)) && GoodQueue(g, v, q)
    decreases |parents|
  {
    if parents == [] {
      assert RefDigests(parents) == {};
    } else {
      var d := parents[0].digest;
      var (v, q) := ExpandOne(g, parents, visited, queue);
      assert RefDigests(parents) == {d} + RefDigests(parents[1..]) by {
        assert parents == [parents[0]] + parents[1..];
      }
      if d in visited {
        ExpandOneMeaning(g, parents[1..], visited, queue);
      } else {
        var queue' := if d in g then queue + [g[d]] else queue;
        MarkOne(g, d, visited, queue);
        ExpandOneMeaning(g, parents[1..], visited + {d}, queue');
        GrownTwice(g, visited, queue, visited + {d}, queue', v, q, {d}, RefDigests(parents[1..]));
      }
    }
  }

  // All the digests cited by a level.
  ghost function Cited(level: seq<Certificate>): set<Hash> {
    set c, ref | c in level && ref in c.header.parents :: ref.digest
  }

  lemma {:induction false} ExpandLevelMeaning(g: Graph, level: seq<Certificate>, visited: set<Hash>,
                                              queue: seq<Certificate>)
    requires Keyed(g) && GoodQueue(g, visited, queue)
    ensures var (v, q) := ExpandLevel(g, level, visited, queue);
      Grown(g, visited, queue, v, q, Cited(level)) && GoodQueue(g, v, q)
    decreases |level|
  {
    if level == [] {
      assert Cited(level) == {};
    } else {
      var (v, q) := ExpandOne(g, level[0].header.parents, visited, queue);
      ExpandOneMeaning(g, level[0].header.parents, visited, queue);
      ExpandLevelMeaning(g, level[1..], v, q);
      assert Cited(level) == RefDigests(level[0].header.parents) + Cited(level[1..]) by {
        assert level == [level[0]] + level[1..];
      }
      var (v', q') := ExpandLevel(g, level, visited, queue);
      GrownTwice(g, visited, queue, v, q, v', q', RefDigests(level[0].header.parents), Cited(level[1..]));
    }
  }

  // ---- The walk returns exactly the ball around its root, nearest first -------------------

  // The digests nearer than distance k.
  ghost function Inside(g: Graph, root: Hash, k: nat): set<Hash> {
    if k == 0 then {} else Within(g, root, k - 1)
  }

  // The frontier after k levels: `visited` is the ball of radius k as far as it resolves, and
  // `level` is its outermost shell.
  ghost predicate Frontier(g: Graph, root: Hash, level: seq<Certificate>, visited: set<Hash>, k: nat) {
    && GoodQueue(g, visited, level)
    && visited * g.Keys == Within(g, root, k)
    && Digests(level) == Within(g, root, k) - Inside(g, root, k)
  }

  lemma WithinInGraph(g: Graph, root: Hash, k: nat)
    requires root in g
    ensures Within(g, root, k) <= g.Keys
  {}

  lemma KidsOfLevel(g: Graph, level: seq<Certificate>)
    requires Keyed(g) && Resolved(g, level)
    ensures Kids(g, Digests(level)) == Cited(level) * g.Keys
  {
    forall y | y in Cited(level) * g.Keys ensures y in Kids(g, Digests(level)) {
      var c, ref :| c in level && ref in c.header.parents && ref.digest == y;
      assert c.Digest() in Digests(level) && g[c.Digest()] == c;
      assert ref.digest in Kids(g, Digests(level));
    }
    forall y | y in Kids(g, Digests(level)) ensures y in Cited(level) * g.Keys {
      var x, ref :| x in Digests(level) && x in g && ref in g[x].header.parents && ref.digest in g && ref.digest == y;
      var c :| c in level && c.Digest() == x;
      assert ref in c.header.parents;
    }
  }

  // One level of the walk moves the frontier out by one.
  lemma FrontierStep(g: Graph, root: Hash, level: seq<Certificate>, visited: set<Hash>, k: nat)
    requires Keyed(g) && root in g && Frontier(g, root, level, visited, k)
    ensures var (v, q) := ExpandLevel(g, level, visited, []); Frontier(g, root, q, v, k + 1)
  {
    var (v, q) := ExpandLevel(g, level, visited, []);
    ExpandLevelMeaning(g, level, visited, []);
    KidsOfLevel(g, level);
    WithinInGraph(g, root, k);
    WithinInGraph(g, root, k + 1);
    var inner := Within(g, root, k);
    assert Kids(g, inner) <= inner + Kids(g, Digests(level)) by {
      forall y | y in Kids(g, inner) ensures y in inner + Kids(g, Digests(level)) {
        KidsEdge(g, inner, y);
        var x :| x in inner && Edge(g, x, y);
        if x in Digests(level) {
          KidsEdge(g, Digests(level), y);
        } else {
          KidsEdge(g, Within(g, root, k - 1), y);
        }
      }
    }
    assert Kids(g, Digests(level)) <= Kids(g, inner) by {
      forall y | y in Kids(g, Digests(level)) ensures y in Kids(g, inner) {
        KidsEdge(g, Digests(level), y);
        KidsEdge(g, inner, y);
      }
    }
    assert Within(g, root, k + 1) == inner + Kids(g, Digests(level));
    assert v * g.Keys == inner + Cited(level) * g.Keys;
    assert Digests([]) == {};
    assert Digests(q) == (Cited(level) - visited) * g.Keys;
  }

  // An earlier entry is never farther from the root than a later one.
  ghost predicate NearestFirst(g: Graph, root: Hash, s: seq<Certificate>) {
    forall i, j, k: nat :: 0 <= i < j < |s| && s[j].Digest() in Within(g, root, k) ==>
      s[i].Digest() in Within(g, root, k)
  }

  // w lists the shells k to m, each certificate once, nearest first.
  ghost predicate Shells(g: Graph, root: Hash, w: seq<Certificate>, k: nat, m: nat) {
    && Resolved(g, w) && DistinctDigests(w) && NearestFirst(g, root, w)
    && Digests(w) == Within(g, root, m) - Inside(g, root, k)
  }

  lemma {:induction false} WalkMeaning(g: Graph, root: Hash, level: seq<Certificate>, visited: set<Hash>, k: nat,
                                       m: nat)
    requires Keyed(g) && root in g && k <= m && Frontier(g, root, level, visited, k)
    ensures Shells(g, root, Walk(g, level, visited, m - k + 1), k, m)
    decreases m - k
  {
    ShellOrder(g, root, level, k);
    if level == [] {
      NoShells(g, root, k, m);
    } else {
      var (v, q) := ExpandLevel(g, level, visited, []);
      var rest := Walk(g, q, v, m - k);
      if k < m {
        FrontierStep(g, root, level, visited, k);
        WalkMeaning(g, root, q, v, k + 1, m);
        AddShell(g, root, level, rest, k, m);
      } else {
        assert level + rest == level;
      }
    }
  }

  lemma NoShells(g: Graph, root: Hash, k: nat, m: nat)
    requires k <= m && Shells(g, root, [], k, k)
    ensures Shells(g, root, [], k, m)
  {
    if k == 0 { RootLevel(g, root, []); }
    EmptyDifference(Within(g, root, k), Inside(g, root, k));
    EmptyShell(g, root, k - 1, m - k);
  }

  // Putting a shell before everything outside it.
  lemma AddShell(g: Graph, root: Hash, level: seq<Certificate>, rest: seq<Certificate>, k: nat, m: nat)
    requires k < m && Shells(g, root, level, k, k) && Shells(g, root, rest, k + 1, m)
    ensures Shells(g, root, level + rest, k, m)
  {
    DigestsAppend(level, rest);
    WithinMono(g, root, k, m);
    if k > 0 { WithinMono(g, root, k - 1, k); }
    JoinOrder(g, root, level, rest, k);
  }

  // Members of one shell are equally far away.
  lemma SameShell(g: Graph, root: Hash, x: Hash, y: Hash, k: nat, m: nat)
    requires x in Within(g, root, k) && y !in Inside(g, root, k) && y in Within(g, root, m)
    ensures x in Within(g, root, m)
  {
    if m < k { WithinMono(g, root, m, k - 1); } else { WithinMono(g, root, k, m); }
  }

  lemma ShellOrder(g: Graph, root: Hash, level: seq<Certificate>, k: nat)
    requires Resolved(g, level) && DistinctDigests(level)
    requires Digests(level) == Within(g, root, k) - Inside(g, root, k)
    ensures Shells(g, root, level, k, k)
  {
    assert forall c :: c in level ==> c.Digest() in Digests(level);
    forall i, j, m: nat | 0 <= i < j < |level| && level[j].Digest() in Within(g, root, m)
      ensures level[i].Digest() in Within(g, root, m)
    {
      SameShell(g, root, level[i].Digest(), level[j].Digest(), k, m);
    }
  }

  lemma RootLevel(g: Graph, root: Hash, level: seq<Certificate>)
    requires Digests(level) == Within(g, root, 0)
    ensures level != []
  {
    assert root in Digests(level);
  }

  // Once a shell is empty, nothing lies beyond it.
  lemma {:induction false} EmptyShell(g: Graph, root: Hash, k: nat, more: nat)
    requires Within(g, root, k + 1) <= Within(g, root, k)
    ensures Within(g, root, k + 1 + more) == Within(g, root, k)
    decreases more
  {
    if more == 0 {
      WithinMono(g, root, k, k + 1);
    } else {
      EmptyShell(g, root, k, more - 1);
    }
  }

  lemma JoinOrder(g: Graph, root: Hash, near: seq<Certificate>, far: seq<Certificate>, k: nat)
    requires NearestFirst(g, root, near) && NearestFirst(g, root, far)
    requires Digests(near) <= Within(g, root, k) && Digests(far) !! Within(g, root, k)
    requires DistinctDigests(near) && DistinctDigests(far)
    ensures NearestFirst(g, root, near + far) && DistinctDigests(near + far)
  {
    var w := near + far;
    assert forall i :: 0 <= i < |near| ==> w[i].Digest() in Digests(near);
    assert forall i :: |near| <= i < |w| ==> w[i].Digest() in Digests(far);
    forall i, j, m: nat | 0 <= i < j < |w| && w[j].Digest() in Within(g, root, m)
      ensures w[i].Digest() in Within(g, root, m)
    {
      if i < |near| && |near| <= j {
        if m <= k { WithinMono(g, root, m, k); } else { WithinMono(g, root, k, m); }
      }
    }
  }

  // Adding the root itself to the graph does not change the walk: its digest is marked from
  // the start and so is never looked up.
  lemma {:induction false} ExpandIgnoresVisited(g: Graph, r: Certificate, level: seq<Certificate>, visited: set<Hash>,
                                                queue: seq<Certificate>)
    requires r.Digest() in visited
    ensures ExpandLevel(g[r.Digest() := r], level, visited, queue) == ExpandLevel(g, level, visited, queue)
    ensures visited <= ExpandLevel(g, level, visited, queue).0
    decreases |level|
  {
    if level != [] {
      var (v, q) := ExpandOne(g, level[0].header.parents, visited, queue);
      ExpandOneIgnoresVisited(g, r, level[0].header.parents, visited, queue);
      ExpandIgnoresVisited(g, r, level[1..], v, q);
    }
  }

  lemma {:induction false} ExpandOneIgnoresVisited(g: Graph, r: Certificate, refs: seq<CertRef>, visited: set<Hash>,
                                                   queue: seq<Certificate>)
    requires r.Digest() in visited
    ensures ExpandOne(g[r.Digest() := r], refs, visited, queue) == ExpandOne(g, refs, visited, queue)
    ensures visited <= ExpandOne(g, refs, visited, queue).0
    decreases |refs|
  {
    if refs != [] {
      var d := refs[0].digest;
      if d in visited {
        ExpandOneIgnoresVisited(g, r, refs[1..], visited, queue);
      } else {
        ExpandOneIgnoresVisited(g, r, refs[1..], visited + {d}, if d in g then queue + [g[d]] else queue);
      }
    }
  }

  lemma {:induction false} WalkIgnoresVisited(g: Graph, r: Certificate, level: seq<Certificate>, visited: set<Hash>,
                                              depth: nat)
    requires r.Digest() in visited
    ensures Walk(g[r.Digest() := r], level, visited, depth) == Walk(g, level, visited, depth)
    decreases depth
  {
    if level != [] && depth > 0 {
      var (v, q) := ExpandLevel(g, level, visited, []);
      ExpandIgnoresVisited(g, r, level, visited, []);
      WalkIgnoresVisited(g, r, q, v, depth - 1);
    }
  }

  // The traversal returns each certificate at resolvable parent distance below the limit
  // exactly once, nothing else, nearest first, starting with its argument.
  lemma HistoryIsBall(g: Graph, c: Certificate, maxDepth: int)
    requires Keyed(g)
    ensures maxDepth <= 0 ==> FreshHistory(g, c, maxDepth) == []
    ensures maxDepth > 0 ==>
      var graph, h := g[c.Digest() := c], FreshHistory(g, c, maxDepth);
      && |h| > 0 && h[0] == c
      && Resolved(graph, h) && DistinctDigests(h) && NearestFirst(graph, c.Digest(), h)
      && Digests(h) == Within(graph, c.Digest(), maxDepth - 1)
  {
    if maxDepth > 0 {
      var graph, root := g[c.Digest() := c], c.Digest();
      assert Digests([c]) == {root};
      assert Within(graph, root, 0) == {root};
      assert Frontier(graph, root, [c], {root}, 0);
      WalkMeaning(graph, root, [c], {root}, 0, maxDepth - 1);
      WalkIgnoresVisited(g, c, [c], {root}, maxDepth);
      assert Walk(g, [c], {root}, maxDepth)[0] == c;
    }
  }

  // ---- When a newly resolvable digest changes a history -----------------------------------

  lemma {:induction false} ExpandOneUncited(g: Graph, c: Certificate, refs: seq<CertRef>, visited: set<Hash>,
                                            queue: seq<Certificate>)
    requires c.Digest() !in RefDigests(refs)
    ensures ExpandOne(g[c.Digest() := c], refs, visited, queue) == ExpandOne(g, refs, visited, queue)
    decreases |refs|
  {
    if refs != [] {
      assert refs[0] in refs;
      assert forall ref :: ref in refs[1..] ==> ref in refs;
      var d := refs[0].digest;
      if d in visited {
        ExpandOneUncited(g, c, refs[1..], visited, queue);
      } else {
        ExpandOneUncited(g, c, refs[1..], visited + {d}, if d in g then queue + [g[d]] else queue);
      }
    }
  }

  lemma {:induction false} ExpandLevelUncited(g: Graph, c: Certificate, level: seq<Certificate>, visited: set<Hash>,
                                              queue: seq<Certificate>)
    requires forall y :: y in level ==> c.Digest() !in y.Parents()
    ensures ExpandLevel(g[c.Digest() := c], level, visited, queue) == ExpandLevel(g, level, visited, queue)
    decreases |level|
  {
    if level != [] {
      assert level[0] in level;
      var (v, q) := ExpandOne(g, level[0].header.parents, visited, queue);
      ExpandOneUncited(g, c, level[0].header.parents, visited, queue);
      ExpandLevelUncited(g, c, level[1..], v, q);
    }
  }

  lemma {:induction false} WalkUncited(g: Graph, c: Certificate, level: seq<Certificate>, visited: set<Hash>,
                                       depth: nat)
    requires depth > 0
    requires forall y :: y in Walk(g, level, visited, depth - 1) ==> c.Digest() !in y.Parents()
    ensures Walk(g[c.Digest() := c], level, visited, depth) == Walk(g, level, visited, depth)
    decreases depth
  {
    if level != [] && depth > 1 {
      var (v, q) := ExpandLevel(g, level, visited, []);
      assert Walk(g, level, visited, depth - 1) == level + Walk(g, q, v, depth - 2);
      ExpandLevelUncited(g, c, level, visited, []);
      WalkUncited(g, c, q, v, depth - 1);
    }
  }

  lemma {:induction false} WithinGrows(g: Graph, c: Certificate, root: Hash, k: nat)
    requires c.Digest() !in g
    ensures Within(g, root, k) <= Within(g[c.Digest() := c], root, k)
    decreases k
  {
    if k > 0 {
      WithinGrows(g, c, root, k - 1);
      var g' := g[c.Digest() := c];
      var inner, inner' := Within(g, root, k - 1), Within(g', root, k - 1);
      forall y | y in Kids(g, inner) ensures y in Kids(g', inner') {
        KidsEdge(g, inner, y);
        var x :| x in inner && Edge(g, x, y);
        assert Edge(g', x, y);
        KidsEdge(g', inner', y);
      }
    }
  }

  // Making c resolvable changes the history of x exactly when c is cited by a certificate
  // that lies in x's history one level short of the limit.
  lemma NewDigestChangesHistoryIff(g: Graph, c: Certificate, x: Certificate, maxDepth: int)
    requires Keyed(g) && c.Digest() !in g && c.Digest() != x.Digest() && maxDepth > 0
    ensures FreshHistory(g[c.Digest() := c], x, maxDepth) != FreshHistory(g, x, maxDepth)
       <==> exists y :: y in FreshHistory(g, x, maxDepth - 1) && c.Digest() in y.Parents()
  {
    if y :| y in FreshHistory(g, x, maxDepth - 1) && c.Digest() in y.Parents() {
      CitedDigestAppears(g, c, x, y, maxDepth);
    } else {
      WalkUncited(g, c, [x], {x.Digest()}, maxDepth);
    }
  }

  lemma HistoryDigests(g: Graph, graph: Graph, x: Certificate, maxDepth: int)
    requires Keyed(g) && maxDepth > 0 && graph == g[x.Digest() := x]
    ensures Digests(FreshHistory(g, x, maxDepth)) == Within(graph, x.Digest(), maxDepth - 1)
    ensures Resolved(graph, FreshHistory(g, x, maxDepth))
  {
    HistoryIsBall(g, x, maxDepth);
  }

  lemma CitedDigestAppears(g: Graph, c: Certificate, x: Certificate, y: Certificate, maxDepth: int)
    requires Keyed(g) && c.Digest() !in g && c.Digest() != x.Digest() && maxDepth > 0
    requires y in FreshHistory(g, x, maxDepth - 1) && c.Digest() in y.Parents()
    ensures c.Digest() in Digests(FreshHistory(g[c.Digest() := c], x, maxDepth))
    ensures c.Digest() !in Digests(FreshHistory(g, x, maxDepth))
  {
    var graph, root := g[x.Digest() := x], x.Digest();
    var g' := g[c.Digest() := c];
    HistoryDigests(g, graph, x, maxDepth - 1);
    assert y.Digest() in Digests(FreshHistory(g, x, maxDepth - 1));
    CitedWithin(graph, c, root, y, maxDepth - 2);
    assert graph[c.Digest() := c] == g'[root := x];
    HistoryDigests(g', graph[c.Digest() := c], x, maxDepth);
    UnresolvedAbsent(g, c, x, maxDepth);
  }

  lemma CitedWithin(g: Graph, c: Certificate, root: Hash, y: Certificate, k: nat)
    requires c.Digest() !in g && y.Digest() in g && g[y.Digest()] == y
    requires y.Digest() in Within(g, root, k) && c.Digest() in y.Parents()
    ensures c.Digest() in Within(g[c.Digest() := c], root, k + 1)
  {
    var g' := g[c.Digest() := c];
    WithinGrows(g, c, root, k);
    assert Edge(g', y.Digest(), c.Digest());
    KidsEdge(g', Within(g', root, k), c.Digest());
  }

  lemma UnresolvedAbsent(g: Graph, c: Certificate, x: Certificate, maxDepth: int)
    requires Keyed(g) && c.Digest() !in g && c.Digest() != x.Digest() && maxDepth > 0
    ensures c.Digest() !in Digests(FreshHistory(g, x, maxDepth))
  {
    HistoryDigests(g, g[x.Digest() := x], x, maxDepth);
    WithinInGraph(g[x.Digest() := x], x.Digest(), maxDepth - 1);
  }
}
