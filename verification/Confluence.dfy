// When the order of delivery does not matter (looseberry.go): the exact condition for sets of
// certificates that need not be closed under parents.
module Confluence {
  import opened Types
  import opened Lists
  import opened History
  import opened Dag
  import opened Orphans

  // ---- Every list of certificates can be delivered -------------------------------------------------

  // The replay can always be carried on until nothing is addable.
  lemma {:induction false} DrainFrom(cfg: Config, n: NodeState, tries: seq<Certificate>) returns (n': NodeState)
    requires Tries(cfg, n, tries) && Keyed(Replayed(cfg, n, tries).orphans)
    ensures Drained(cfg, n, n')
    decreases |Replayed(cfg, n, tries).orphans|
  {
    var now := Replayed(cfg, n, tries);
    if Quiet(now) {
      n' := now;
    } else {
      var d :| d in now.orphans && AddOutcome(now.dag, now.orphans[d]) == Added;
      var c := now.orphans[d];
      assert (tries + [c])[..|tries|] == tries;
      var next := Replayed(cfg, n, tries + [c]);
      assert next.orphans == now.orphans - {d};
      Fewer(now.orphans, d);
      n' := DrainFrom(cfg, n, tries + [c]);
    }
  }

  lemma Fewer(orphans: map<Hash, Certificate>, d: Hash)
    requires d in orphans
    ensures |orphans - {d}| < |orphans|
  {
    assert (orphans - {d}).Keys == orphans.Keys - {d};
    assert |orphans - {d}| == |(orphans - {d}).Keys| && |orphans| == |orphans.Keys|;
  }

  lemma DeliverExists(cfg: Config, n: NodeState, m: Msg) returns (n': NodeState)
    requires Keyed(n.orphans)
    ensures Delivered(cfg, n, m, n')
  {
    var s := PrimarySaves(cfg, n.dag, m);
    var added := NodeState(AddSpec(cfg, s, m.c), n.orphans);
    match AddOutcome(s, m.c)
    case Added => n' := DrainFrom(cfg, added, []);
    case MissingParents => n' := NodeState(added.dag, Buffered(n.orphans, m.c));
    case DuplicateHeader => n' := added;
  }

  lemma {:induction false} RunExists(cfg: Config, u: Graph, msgs: seq<Msg>) returns (ns: seq<NodeState>)
    requires World(u) && (forall i :: 0 <= i < |msgs| ==> Of(u, msgs[i].c)) && |Sent(msgs)| <= ORPHAN_CERT_CAP
    ensures Deliveries(cfg, u, msgs, ns)
    decreases |msgs|
  {
    if msgs == [] {
      ns := [NodeState(Empty(), map[])];
    } else {
      var k := |msgs| - 1;
      var before, m := msgs[..k], msgs[k];
      assert msgs == before + [m];
      SentSnoc(before, m);
      CardMono(Sent(before), Sent(msgs));
      var ns0 := RunExists(cfg, u, before);
      RunSettles(cfg, u, before, ns0, k);
      assert before[..k] == before;
      SmallSetsAreNotDropped(cfg, u, Sent(before), ns0[k], m);
      var n' := DeliverExists(cfg, ns0[k], m);
      ns := ns0 + [n'];
      RunSnoc(cfg, u, before, ns0, m, n');
    }
  }

  lemma RunSnoc(cfg: Config, u: Graph, msgs: seq<Msg>, ns: seq<NodeState>, m: Msg, n': NodeState)
    requires Deliveries(cfg, u, msgs, ns) && Handled(cfg, u, ns[|msgs|], m, n')
    ensures Deliveries(cfg, u, msgs + [m], ns + [n'])
  {
    var msgs', ns' := msgs + [m], ns + [n'];
    forall i | 0 <= i < |msgs'| ensures Handled(cfg, u, ns'[i], msgs'[i], ns'[i + 1]) {
      if i < |msgs| {
        assert Handled(cfg, u, ns[i], msgs[i], ns[i + 1]);
      }
    }
  }

  lemma RunPrefix(cfg: Config, u: Graph, msgs: seq<Msg>, ns: seq<NodeState>, k: nat)
    requires Deliveries(cfg, u, msgs, ns) && k <= |msgs|
    ensures Deliveries(cfg, u, msgs[..k], ns[..k + 1])
  {
    forall i | 0 <= i < k ensures Handled(cfg, u, ns[..k + 1][i], msgs[..k][i], ns[..k + 1][i + 1]) {
      assert Handled(cfg, u, ns[i], msgs[i], ns[i + 1]);
    }
  }

  // ---- Orders -----------------------------------------------------------------------------------------

  ghost predicate Enumerates(t: set<Hash>, ds: seq<Hash>) {
    NoDup(ds) && Elems(ds) == t
  }

  ghost predicate Rising(u: Graph, ds: seq<Hash>) {
    && (forall i :: 0 <= i < |ds| ==> ds[i] in u)
    && forall i, j :: 0 <= i < j < |ds| ==> u[ds[i]].Round() <= u[ds[j]].Round()
  }

  ghost predicate Falling(u: Graph, ds: seq<Hash>) {
    && (forall i :: 0 <= i < |ds| ==> ds[i] in u)
    && forall i, j :: 0 <= i < j < |ds| ==> u[ds[i]].Round() >= u[ds[j]].Round()
  }

  lemma {:induction false} Highest(u: Graph, t: set<Hash>) returns (d: Hash)
    requires t <= u.Keys && t != {}
    ensures d in t && forall x :: x in t ==> u[x].Round() <= u[d].Round()
    decreases |t|
  {
    d := Member(t);
    if t != {d} {
      var rest := t - {d};
      assert rest != {} by {
        if rest == {} { EmptyDifference(t, {d}); }
      }
      var y := Highest(u, rest);
      assert forall x :: x in t ==> x == d || x in rest;
      if u[y].Round() > u[d].Round() {
        d := y;
      }
    }
  }

  lemma {:induction false} RisingOrder(u: Graph, t: set<Hash>) returns (ds: seq<Hash>)
    requires t <= u.Keys
    ensures Enumerates(t, ds) && Rising(u, ds)
    decreases |t|
  {
    ds := [];
    if t != {} {
      var d := Highest(u, t);
      var front := RisingOrder(u, t - {d});
      ds := front + [d];
      RisingSnoc(u, t, front, d);
    }
  }

  lemma RisingSnoc(u: Graph, t: set<Hash>, front: seq<Hash>, d: Hash)
    requires t <= u.Keys && d in t && Enumerates(t - {d}, front) && Rising(u, front)
    requires forall x :: x in t ==> u[x].Round() <= u[d].Round()
    ensures Enumerates(t, front + [d]) && Rising(u, front + [d])
  {
    ElemsAppend(front, [d]);
    assert Elems(front) + {d} == t;
    forall i | 0 <= i < |front| ensures front[i] in t - {d} {
      assert front[i] in Elems(front);
    }
    var ds := front + [d];
    forall i, j | 0 <= i < j < |ds| ensures u[ds[i]].Round() <= u[ds[j]].Round() {
      assert ds[i] == front[i] && ds[j] == if j < |front| then front[j] else d;
    }
  }

  lemma FallingOrder(u: Graph, t: set<Hash>) returns (ds: seq<Hash>)
    requires t <= u.Keys
    ensures Enumerates(t, ds) && Falling(u, ds)
  {
    var up := RisingOrder(u, t);
    ds := seq(|up|, i requires 0 <= i < |up| => up[|up| - 1 - i]);
    forall d | d in t ensures d in ds {
      var i :| 0 <= i < |up| && up[i] == d;
      assert ds[|up| - 1 - i] == d;
    }
    assert forall d :: d in ds ==> d in Elems(up);
    assert Elems(ds) == t;
  }

  // The listed certificates as verified messages.
  ghost function Messages(u: Graph, ds: seq<Hash>): seq<Msg>
    requires forall i :: 0 <= i < |ds| ==> ds[i] in u
  {
    seq(|ds|, i requires 0 <= i < |ds| => Msg(u[ds[i]], true))
  }

  lemma SentOfMessages(u: Graph, ds: seq<Hash>)
    requires Keyed(u) && forall i :: 0 <= i < |ds| ==> ds[i] in u
    ensures Sent(Messages(u, ds)) == Elems(ds)
    ensures forall i :: 0 <= i < |ds| ==> Of(u, Messages(u, ds)[i].c)
    ensures NoDup(ds) ==> NoRepeats(Messages(u, ds))
  {
    var msgs := Messages(u, ds);
    assert forall i :: 0 <= i < |ds| ==> msgs[i].c == u[ds[i]] && msgs[i].c.Digest() == ds[i];
    forall d | d in Elems(ds) ensures d in Sent(msgs) {
      var i :| 0 <= i < |ds| && ds[i] == d;
      assert msgs[i] in msgs && msgs[i].c.Digest() == d;
    }
    forall d | d in Sent(msgs) ensures d in Elems(ds) {
      var m :| m in msgs && m.c.Digest() == d;
      var i :| 0 <= i < |msgs| && msgs[i] == m;
      assert ds[i] == d;
    }
  }

  // ---- Rising rounds: everything whose parents are delivered gets in ------------------------------------

  lemma {:induction false} ReplayGrowsStore(cfg: Config, n: NodeState, tries: seq<Certificate>)
    ensures n.dag.store.Keys <= Replayed(cfg, n, tries).dag.store.Keys
    decreases |tries|
  {
    if tries != [] {
      ReplayGrowsStore(cfg, n, tries[..|tries| - 1]);
    }
  }

  // A verified certificate is in the store after its delivery, whatever the DAG says.
  lemma DeliveryStores(cfg: Config, n: NodeState, m: Msg, n': NodeState)
    requires cfg.hasStore && m.verified && Delivered(cfg, n, m, n')
    ensures n.dag.store.Keys + {m.c.Digest()} <= n'.dag.store.Keys
  {
    if AddOutcome(PrimarySaves(cfg, n.dag, m), m.c) == Added {
      var added := NodeState(AfterAdd(cfg, n, m), n.orphans);
      var tries :| Tries(cfg, added, tries) && Replayed(cfg, added, tries) == n';
      ReplayGrowsStore(cfg, added, tries);
    }
  }

  // Sets that only grow from step to step.
  lemma {:induction false} Nested(sets: seq<set<Hash>>, i: nat, j: nat)
    requires i <= j < |sets| && forall k :: 0 <= k < |sets| - 1 ==> sets[k] <= sets[k + 1]
    ensures sets[i] <= sets[j]
    decreases j
  {
    if i < j {
      Nested(sets, i, j - 1);
      var k := j - 1;
      assert sets[k] <= sets[k + 1];
    }
  }

  lemma StepStores(cfg: Config, u: Graph, ds: seq<Hash>, ns: seq<NodeState>, j: nat)
    requires cfg.hasStore && (forall k :: 0 <= k < |ds| ==> ds[k] in u) && Keyed(u)
    requires Deliveries(cfg, u, Messages(u, ds), ns) && j < |ds|
    ensures ns[j].dag.store.Keys + {ds[j]} <= ns[j + 1].dag.store.Keys
  {
    var m := Messages(u, ds)[j];
    assert m.c == u[ds[j]] && m.c.Digest() == ds[j] && m.verified;
    RunStep(cfg, u, Messages(u, ds), ns, j);
    DeliveryStores(cfg, ns[j], m, ns[j + 1]);
  }

  lemma RunStores(cfg: Config, u: Graph, ds: seq<Hash>, ns: seq<NodeState>, i: nat, d: Hash)
    requires cfg.hasStore && (forall k :: 0 <= k < |ds| ==> ds[k] in u) && Keyed(u)
    requires Deliveries(cfg, u, Messages(u, ds), ns) && i <= |ds| && d in ds[..i]
    ensures d in ns[i].dag.store.Keys
  {
    var j :| 0 <= j < i && ds[..i][j] == d;
    var sets := StoreKeys(ns);
    forall k | 0 <= k < |sets| - 1 ensures sets[k] <= sets[k + 1] {
      StepStores(cfg, u, ds, ns, k);
    }
    StepStores(cfg, u, ds, ns, j);
    Nested(sets, j + 1, i);
  }

  ghost function StoreKeys(ns: seq<NodeState>): seq<set<Hash>> {
    seq(|ns|, i requires 0 <= i < |ns| => ns[i].dag.store.Keys)
  }

  ghost function IndexKeys(ns: seq<NodeState>): seq<set<Hash>> {
    seq(|ns|, i requires 0 <= i < |ns| => ns[i].dag.index.Keys)
  }

  lemma StepGrows(cfg: Config, u: Graph, msgs: seq<Msg>, ns: seq<NodeState>, k: nat)
    requires World(u) && Deliveries(cfg, u, msgs, ns) && k < |msgs|
    ensures ns[k].dag.index.Keys <= ns[k + 1].dag.index.Keys
  {
    RunSettles(cfg, u, msgs, ns, k);
    RunStep(cfg, u, msgs, ns, k);
    HandledSettles(cfg, u, Sent(msgs[..k]), ns[k], msgs[k], ns[k + 1]);
  }

  lemma IndexGrows(cfg: Config, u: Graph, msgs: seq<Msg>, ns: seq<NodeState>, i: nat, j: nat)
    requires World(u) && Deliveries(cfg, u, msgs, ns) && i <= j <= |msgs|
    ensures ns[i].dag.index.Keys <= ns[j].dag.index.Keys
  {
    var sets := IndexKeys(ns);
    forall k | 0 <= k < |sets| - 1 ensures sets[k] <= sets[k + 1] {
      StepGrows(cfg, u, msgs, ns, k);
    }
    Nested(sets, i, j);
  }

  // A certificate whose parents are all in the store gets in.
  lemma StoredParentsMeanIndexed(cfg: Config, u: Graph, t: set<Hash>, n: NodeState, m: Msg, n': NodeState)
    requires World(u) && Settled(u, t, n) && Handled(cfg, u, n, m, n')
    requires m.c.Round() > 0 ==> m.c.Parents() <= n.dag.store.Keys
    ensures m.c.Digest() in n'.dag.index
  {
    var s := PrimarySaves(cfg, n.dag, m);
    assert s.rounds == n.dag.rounds;
    SlotTakenMeansIndexed(u, n.dag, m.c);
    HandledSettles(cfg, u, t, n, m, n');
    if m.c.Digest() in n.dag.index {
      assert m.c.Digest() in n.dag.index.Keys;
    } else {
      ResolvedMeansAdded(s, m.c);
      AddedIsIndexed(cfg, u, t, n, m, n');
    }
  }

  lemma ResolvedMeansAdded(s: DagState, c: Certificate)
    requires !SlotTaken(s, c) && (c.Round() > 0 ==> c.Parents() <= s.store.Keys)
    ensures AddOutcome(s, c) == Added
  {
    assert c.Round() > 0 ==> forall p :: p in c.Parents() ==> p in s.Known().Keys;
  }

  lemma ParentLower(u: Graph, x: Hash, p: Hash)
    requires Universe(u) && x in u && p in u && p in u[x].Parents()
    ensures u[p].Round() < u[x].Round()
  {}

  // In rising order parents come first.
  lemma ParentBefore(u: Graph, ds: seq<Hash>, i: nat, p: Hash)
    requires Universe(u) && Rising(u, ds) && i < |ds| && p in u[ds[i]].Parents() && p in Elems(ds)
    ensures p in ds[..i]
  {
    var j :| 0 <= j < |ds| && ds[j] == p;
    ParentLower(u, ds[i], p);
    assert j < i;
    assert ds[..i][j] == p;
  }

  lemma RisingAdds(cfg: Config, u: Graph, ds: seq<Hash>, ns: seq<NodeState>, i: nat)
    requires World(u) && cfg.hasStore && Rising(u, ds) && Deliveries(cfg, u, Messages(u, ds), ns)
    requires i < |ds| && Direct(u, Elems(ds), ds[i])
    ensures ds[i] in ns[|ds|].dag.index
  {
    var msgs := Messages(u, ds);
    if u[ds[i]].Round() > 0 {
      forall p | p in u[ds[i]].Parents() ensures p in ns[i].dag.store.Keys {
        ParentBefore(u, ds, i, p);
        RunStores(cfg, u, ds, ns, i, p);
      }
    }
    RunSettles(cfg, u, msgs, ns, i);
    RunStep(cfg, u, msgs, ns, i);
    StoredParentsMeanIndexed(cfg, u, Sent(msgs[..i]), ns[i], msgs[i], ns[i + 1]);
    IndexGrows(cfg, u, msgs, ns, i + 1, |msgs|);
    assert ds[i] in ns[i + 1].dag.index.Keys;
  }

  // ---- Falling rounds: nothing more gets in ---------------------------------------------------------------

  ghost function GroundedOf(u: Graph, t: set<Hash>): set<Hash> { set d | d in t && Grounded(u, t, d) }

  lemma GroundedPartIsClosed(u: Graph, t: set<Hash>)
    requires World(u)
    ensures Closed(u, GroundedOf(u, t))
  {
    forall d | d in GroundedOf(u, t) ensures Direct(u, GroundedOf(u, t), d) {
      if u[d].Round() > 0 {
        forall p | p in u[d].Parents() ensures p in GroundedOf(u, t) {
          assert Grounded(u, t, p);
        }
      }
    }
  }

  // Something that an ungrounded certificate cites is ungrounded, so in a lower round or unknown.
  lemma UngroundedParent(u: Graph, t: set<Hash>, d: Hash) returns (p: Hash)
    requires World(u) && d in t && d in u && !Grounded(u, t, d)
    ensures u[d].Round() > 0 && p in u[d].Parents() && !Grounded(u, t, p) && (p in u ==> u[p].Round() < u[d].Round())
  {
    p :| p in u[d].Parents() && !(p in u && u[p].Round() < u[d].Round() && Grounded(u, t, p));
  }

  // Delivered after the grounded part and before everything it could wait for, an ungrounded
  // certificate misses a parent, so the index stays as it is.
  lemma UngroundedMisses(cfg: Config, u: Graph, t: set<Hash>, done: set<Hash>, n: NodeState, m: Msg)
    requires World(u) && Settled(u, done, n) && Of(u, m.c) && m.c.Digest() in t
    requires n.dag.index.Keys == GroundedOf(u, t) && !Grounded(u, t, m.c.Digest())
    requires forall p :: p in done && !Grounded(u, t, p) ==> p in u && u[p].Round() >= m.c.Round()
    ensures AddOutcome(PrimarySaves(cfg, n.dag, m), m.c) == MissingParents
  {
    var s, d := PrimarySaves(cfg, n.dag, m), m.c.Digest();
    var p := UngroundedParent(u, t, d);
    assert s.index == n.dag.index && s.rounds == n.dag.rounds;
    SlotTakenMeansIndexed(u, n.dag, m.c);
    assert d !in n.dag.index.Keys;
    assert p !in done;
    assert p !in n.dag.index.Keys && p !in n.dag.store.Keys && p != d;
    assert p !in s.Known().Keys;
  }

  lemma UngroundedIsBuffered(cfg: Config, u: Graph, n: NodeState, m: Msg, n': NodeState)
    requires Handled(cfg, u, n, m, n') && AddOutcome(PrimarySaves(cfg, n.dag, m), m.c) == MissingParents
    ensures n'.dag.index == n.dag.index
  {}

  lemma {:induction false} FallingAddsNothing(cfg: Config, u: Graph, t: set<Hash>, a: seq<Hash>, b: seq<Hash>,
                                              ns: seq<NodeState>, i: nat)
    requires World(u) && t <= u.Keys && Enumerates(GroundedOf(u, t), a) && Enumerates(t - GroundedOf(u, t), b)
      && Falling(u, b)
    requires (forall k :: 0 <= k < |a + b| ==> (a + b)[k] in u) && Deliveries(cfg, u, Messages(u, a + b), ns)
    requires |a| <= i <= |a| + |b|
    ensures ns[i].dag.index.Keys == GroundedOf(u, t)
    decreases i
  {
    var msgs := Messages(u, a + b);
    if i == |a| {
      GroundedFirst(cfg, u, t, a, b, ns);
    } else {
      var j := i - 1;
      FallingAddsNothing(cfg, u, t, a, b, ns, j);
      RunSettles(cfg, u, msgs, ns, j);
      RunStep(cfg, u, msgs, ns, j);
      DoneBefore(u, t, a, b, j);
      UngroundedMisses(cfg, u, t, Sent(msgs[..j]), ns[j], msgs[j]);
      UngroundedIsBuffered(cfg, u, ns[j], msgs[j], ns[j + 1]);
    }
  }

  lemma GroundedFirst(cfg: Config, u: Graph, t: set<Hash>, a: seq<Hash>, b: seq<Hash>, ns: seq<NodeState>)
    requires World(u) && Enumerates(GroundedOf(u, t), a)
    requires (forall k :: 0 <= k < |a + b| ==> (a + b)[k] in u) && Deliveries(cfg, u, Messages(u, a + b), ns)
    ensures ns[|a|].dag.index.Keys == GroundedOf(u, t)
  {
    var msgs := Messages(u, a + b);
    assert forall k :: 0 <= k < |a| ==> a[k] == (a + b)[k];
    assert msgs[..|a|] == Messages(u, a);
    RunPrefix(cfg, u, msgs, ns, |a|);
    SentOfMessages(u, a);
    GroundedPartIsClosed(u, t);
    ClosedSetsConverge(cfg, u, msgs[..|a|], ns[..|a| + 1]);
  }

  // What was delivered before the j-th certificate, if ungrounded, is not in a lower round.
  lemma DoneBefore(u: Graph, t: set<Hash>, a: seq<Hash>, b: seq<Hash>, j: nat)
    requires World(u) && Enumerates(GroundedOf(u, t), a) && Enumerates(t - GroundedOf(u, t), b) && Falling(u, b)
    requires (forall k :: 0 <= k < |a + b| ==> (a + b)[k] in u) && |a| <= j < |a| + |b|
    ensures var msgs := Messages(u, a + b);
      && msgs[j].c.Digest() in t && !Grounded(u, t, msgs[j].c.Digest())
      && forall p :: p in Sent(msgs[..j]) && !Grounded(u, t, p) ==> p in u && u[p].Round() >= msgs[j].c.Round()
  {
    var all, msgs := a + b, Messages(u, a + b);
    assert all[j] == b[j - |a|] && all[j] in Elems(b);
    forall k | 0 <= k < |a| ensures Grounded(u, t, all[k]) {
      assert all[k] in Elems(a);
    }
    forall p | p in Sent(msgs[..j]) && !Grounded(u, t, p) ensures p in u && u[p].Round() >= msgs[j].c.Round() {
      var m :| m in msgs[..j] && m.c.Digest() == p;
      var k :| 0 <= k < j && msgs[..j][k] == m;
      assert msgs[k] == m && all[k] == p;
      assert k >= |a|;
      assert all[k] == b[k - |a|];
    }
  }

  // ---- The condition ------------------------------------------------------------------------------------------

  // A run that delivers each certificate of t once, verified.
  ghost predicate Delivering(cfg: Config, u: Graph, t: set<Hash>, msgs: seq<Msg>, ns: seq<NodeState>) {
    && Deliveries(cfg, u, msgs, ns) && Sent(msgs) == t && NoRepeats(msgs)
      && forall i :: 0 <= i < |msgs| ==> msgs[i].verified
  }

  // Whatever the order, the same DAG.
  ghost predicate Confluent(cfg: Config, u: Graph, t: set<Hash>) {
    forall msgs: seq<Msg>, ns: seq<NodeState>, msgs': seq<Msg>, ns': seq<NodeState> ::
      Delivering(cfg, u, t, msgs, ns) && Delivering(cfg, u, t, msgs', ns') ==>
      ns[|msgs|].dag.index == ns'[|msgs'|].dag.index
  }

  ghost predicate DirectIsGrounded(u: Graph, t: set<Hash>) {
    forall d :: d in t && Direct(u, t, d) ==> Grounded(u, t, d)
  }

  lemma GroundedConverges(cfg: Config, u: Graph, t: set<Hash>, msgs: seq<Msg>, ns: seq<NodeState>)
    requires World(u) && DirectIsGrounded(u, t) && Deliveries(cfg, u, msgs, ns) && Sent(msgs) == t
    ensures Exactly(u, ns[|msgs|].dag.index, GroundedOf(u, t))
  {
    var index := ns[|msgs|].dag.index;
    DagIsSandwiched(cfg, u, msgs, ns);
    assert forall d :: d in index ==> d in GroundedOf(u, t);
    assert forall d :: d in GroundedOf(u, t) ==> d in index;
    assert index.Keys == GroundedOf(u, t);
  }

  // Two orders of a set that ends differently when some delivered certificate has all its parents
  // but not all its ancestors delivered.
  lemma OrdersDiffer(cfg: Config, u: Graph, t: set<Hash>, d: Hash)
    returns (msgs: seq<Msg>, ns: seq<NodeState>, msgs': seq<Msg>, ns': seq<NodeState>)
    requires World(u) && cfg.hasStore && t <= u.Keys && |t| <= ORPHAN_CERT_CAP
    requires d in t && Direct(u, t, d) && !Grounded(u, t, d)
    ensures Delivering(cfg, u, t, msgs, ns) && Delivering(cfg, u, t, msgs', ns')
    ensures d in ns[|msgs|].dag.index && d !in ns'[|msgs'|].dag.index
  {
    var up := RisingOrder(u, t);
    msgs, ns := DeliverList(cfg, u, t, up);
    var i :| 0 <= i < |up| && up[i] == d;
    RisingAdds(cfg, u, up, ns, i);
    var g := GroundedOf(u, t);
    var a := RisingOrder(u, g);
    var b := FallingOrder(u, t - g);
    JoinedEnumerates(g, t - g, a, b);
    assert g + (t - g) == t;
    msgs', ns' := DeliverList(cfg, u, t, a + b);
    FallingAddsNothing(cfg, u, t, a, b, ns', |a + b|);
  }

  lemma DeliverList(cfg: Config, u: Graph, t: set<Hash>, ds: seq<Hash>) returns (msgs: seq<Msg>, ns: seq<NodeState>)
    requires World(u) && t <= u.Keys && |t| <= ORPHAN_CERT_CAP && Enumerates(t, ds)
    ensures (forall k :: 0 <= k < |ds| ==> ds[k] in u) && msgs == Messages(u, ds) && Delivering(cfg, u, t, msgs, ns)
  {
    assert forall k :: 0 <= k < |ds| ==> ds[k] in Elems(ds);
    assert forall k :: 0 <= k < |ds| ==> ds[k] in u;
    msgs := Messages(u, ds);
    SentOfMessages(u, ds);
    ns := RunExists(cfg, u, msgs);
  }

  lemma JoinedEnumerates(s: set<Hash>, t: set<Hash>, a: seq<Hash>, b: seq<Hash>)
    requires Enumerates(s, a) && Enumerates(t, b) && s !! t
    ensures Enumerates(s + t, a + b)
  {
    ElemsAppend(a, b);
    assert forall i :: 0 <= i < |a| ==> a[i] in Elems(a);
    assert forall i :: 0 <= i < |b| ==> b[i] in Elems(b);
  }

  // All orders of a set of verified certificates within the cap, each delivered once, end in the
  // same DAG exactly when every certificate delivered with its parents was delivered with all its
  // ancestors.
  lemma ConfluentIff(cfg: Config, u: Graph, t: set<Hash>)
    requires World(u) && cfg.hasStore && t <= u.Keys && |t| <= ORPHAN_CERT_CAP
    ensures Confluent(cfg, u, t) <==> DirectIsGrounded(u, t)
  {
    if DirectIsGrounded(u, t) {
      forall msgs: seq<Msg>, ns: seq<NodeState>, msgs': seq<Msg>, ns': seq<NodeState> | Delivering(cfg, u, t, msgs, ns)
        && Delivering(cfg, u, t, msgs', ns')
        ensures ns[|msgs|].dag.index == ns'[|msgs'|].dag.index
      {
        GroundedConverges(cfg, u, t, msgs, ns);
        GroundedConverges(cfg, u, t, msgs', ns');
      }
    } else {
      var d :| d in t && Direct(u, t, d) && !Grounded(u, t, d);
      var msgs, ns, msgs', ns' := OrdersDiffer(cfg, u, t, d);
      assert ns[|msgs|].dag.index != ns'[|msgs'|].dag.index;
    }
  }
}
