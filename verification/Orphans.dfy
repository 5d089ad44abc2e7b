// Certificate delivery with an orphan buffer (looseberry.go): what any order of arrival leads to.
module Orphans {
  import opened Types
  import opened Lists
  import opened History
  import opened Dag

  const ORPHAN_CERT_CAP := 4096

  datatype NodeState = NodeState(dag: DagState, orphans: map<Hash, Certificate>)

  // A delivered certificate, and whether the primary's verification of it succeeds: only then
  // does the primary write it to the shared store, before the DAG sees it.
  datatype Msg = Msg(c: Certificate, verified: bool)

  // ---- Specification --------------------------------------------------------------------------

  ghost function PrimarySaves(cfg: Config, s: DagState, m: Msg): DagState {
    if m.verified && cfg.hasStore then s.(store := Saved(s.store, m.c)) else s
  }

  ghost function Buffered(orphans: map<Hash, Certificate>, c: Certificate): map<Hash, Certificate> {
    if |orphans| >= ORPHAN_CERT_CAP || c.Digest() in orphans then orphans else orphans[c.Digest() := c]
  }

  // One replay attempt: an orphan that adds cleanly leaves the buffer.
  ghost function Attempt(cfg: Config, n: NodeState, c: Certificate): NodeState {
    NodeState(AddSpec(cfg, n.dag, c), if AddOutcome(n.dag, c) == Added then n.orphans - {c.Digest()} else n.orphans)
  }

  ghost predicate Orphaned(n: NodeState, c: Certificate) {
    c.Digest() in n.orphans && n.orphans[c.Digest()] == c
  }

  ghost function Replayed(cfg: Config, n: NodeState, tries: seq<Certificate>): NodeState {
    if tries == [] then n else Attempt(cfg, Replayed(cfg, n, tries[..|tries| - 1]), tries[|tries| - 1])
  }

  // Each attempt is made on a certificate that is buffered at that moment.
  ghost predicate Tries(cfg: Config, n: NodeState, tries: seq<Certificate>) {
    tries == []
      || (Tries(cfg, n, tries[..|tries| - 1]) && Orphaned(Replayed(cfg, n, tries[..|tries| - 1]), tries[|tries| - 1]))
  }

  // No buffered certificate would be accepted now.
  ghost predicate Quiet(n: NodeState) {
    forall d :: d in n.orphans ==> AddOutcome(n.dag, n.orphans[d]) != Added
  }

  // The replay loop may try the orphans in any order, but stops only when none is addable.
  ghost predicate Drained(cfg: Config, n: NodeState, n': NodeState) {
    Quiet(n') && exists tries :: Tries(cfg, n, tries) && Replayed(cfg, n, tries) == n'
  }

  ghost predicate Delivered(cfg: Config, n: NodeState, m: Msg, n': NodeState) {
    var s := PrimarySaves(cfg, n.dag, m);
    var added := AddSpec(cfg, s, m.c);
    match AddOutcome(s, m.c)
    case Added => Drained(cfg, NodeState(added, n.orphans), n')
    case MissingParents => n' == NodeState(added, Buffered(n.orphans, m.c))
    case DuplicateHeader => n' == NodeState(added, n.orphans)
  }

  // ---- Hypotheses -------------------------------------------------------------------------------

  ghost predicate OneSlotEach(u: Graph) {
    forall x, y :: x in u && y in u && u[x].Round() == u[y].Round() && u[x].Author() == u[y].Author() ==> x == y
  }

  ghost predicate World(u: Graph) {
    Universe(u) && OneSlotEach(u)
  }

  // ---- Invariant ----------------------------------------------------------------------------------

  ghost predicate Core(u: Graph, s: DagState) {
    Agree(s) && Drawn(u, s.index) && Drawn(u, s.store)
  }

  // A parent reference that the index cannot resolve.
  ghost predicate Blocked(u: Graph, index: map<Hash, Certificate>, d: Hash)
    requires d in u
  {
    u[d].Round() > 0 && exists p :: p in u[d].Parents() && p !in index
  }

  // All its parents were delivered, or it needs none.
  ghost predicate Direct(u: Graph, t: set<Hash>, d: Hash) {
    d in u && (u[d].Round() == 0 || u[d].Parents() <= t)
  }

  // What holds at every moment, also in the middle of a replay: t is what has been delivered.
  ghost predicate Accounted(u: Graph, t: set<Hash>, n: NodeState) {
    && Core(u, n.dag) && Drawn(u, n.orphans)
    && n.dag.index.Keys + n.orphans.Keys == t && n.dag.store.Keys <= t
    && forall d :: d in n.dag.index ==> Direct(u, t, d)
  }

  // Between deliveries, a buffered certificate is blocked or already in the DAG.
  ghost predicate Settled(u: Graph, t: set<Hash>, n: NodeState) {
    Accounted(u, t, n) && forall d :: d in n.orphans ==> d in n.dag.index || Blocked(u, n.dag.index, d)
  }

  lemma SlotTakenMeansIndexed(u: Graph, s: DagState, c: Certificate)
    requires World(u) && Core(u, s) && Of(u, c)
    ensures SlotTaken(s, c) <==> c.Digest() in s.index
  {
    if SlotTaken(s, c) {
      var x := s.rounds[c.Round()][c.Author()];
      assert Holds(s.rounds, c.Round(), c.Author(), x);
    }
    if c.Digest() in s.index {
      assert Holds(s.rounds, s.index[c.Digest()].Round(), s.index[c.Digest()].Author(), s.index[c.Digest()]);
    }
  }

  lemma AddKeepsCore(cfg: Config, u: Graph, s: DagState, c: Certificate)
    requires World(u) && Core(u, s) && Of(u, c)
    ensures Core(u, AddSpec(cfg, s, c))
  {
    if AddOutcome(s, c) == Added {
      SlotTakenMeansIndexed(u, s, c);
      AddKeepsAgreementIff(cfg, s, c);
    } else {
      RejectKeepsAgreement(cfg, s, c);
    }
  }

  lemma AttemptAccounts(cfg: Config, u: Graph, t: set<Hash>, n: NodeState, c: Certificate)
    requires World(u) && Accounted(u, t, n) && Orphaned(n, c)
    ensures Accounted(u, t, Attempt(cfg, n, c)) && n.dag.index.Keys <= Attempt(cfg, n, c).dag.index.Keys
  {
    AddKeepsCore(cfg, u, n.dag, c);
    AddGrowsKeys(cfg, n.dag, c);
  }

  lemma {:induction false} ReplayAccounts(cfg: Config, u: Graph, t: set<Hash>, n: NodeState, tries: seq<Certificate>)
    requires World(u) && Accounted(u, t, n) && Tries(cfg, n, tries)
    ensures Accounted(u, t, Replayed(cfg, n, tries)) && n.dag.index.Keys <= Replayed(cfg, n, tries).dag.index.Keys
    decreases |tries|
  {
    if tries != [] {
      var before := tries[..|tries| - 1];
      ReplayAccounts(cfg, u, t, n, before);
      AttemptAccounts(cfg, u, t, Replayed(cfg, n, before), tries[|tries| - 1]);
    }
  }

  // Draining settles the node: whatever is still buffered is blocked or already in the DAG.
  lemma DrainSettles(cfg: Config, u: Graph, t: set<Hash>, n: NodeState, n': NodeState)
    requires World(u) && Accounted(u, t, n) && Drained(cfg, n, n')
    ensures Settled(u, t, n') && n.dag.index.Keys <= n'.dag.index.Keys
  {
    var tries :| Tries(cfg, n, tries) && Replayed(cfg, n, tries) == n';
    ReplayAccounts(cfg, u, t, n, tries);
    forall d | d in n'.orphans ensures d in n'.dag.index || Blocked(u, n'.dag.index, d) {
      SlotTakenMeansIndexed(u, n'.dag, u[d]);
    }
  }

  ghost predicate Dropped(cfg: Config, n: NodeState, m: Msg) {
    && AddOutcome(PrimarySaves(cfg, n.dag, m), m.c) == MissingParents
    && |n.orphans| >= ORPHAN_CERT_CAP && m.c.Digest() !in n.orphans
  }

  // The DAG after a delivery, before any replay.
  ghost function AfterAdd(cfg: Config, n: NodeState, m: Msg): DagState {
    AddSpec(cfg, PrimarySaves(cfg, n.dag, m), m.c)
  }

  lemma AfterAddCore(cfg: Config, u: Graph, t: set<Hash>, n: NodeState, m: Msg)
    requires World(u) && Core(u, n.dag) && n.dag.store.Keys <= t && Of(u, m.c)
    ensures var s := AfterAdd(cfg, n, m);
      && Core(u, s) && s.store.Keys <= t + {m.c.Digest()}
      && s.index.Keys ==
        n.dag.index.Keys + (if AddOutcome(PrimarySaves(cfg, n.dag, m), m.c) == Added then {m.c.Digest()} else {})
  {
    var s := PrimarySaves(cfg, n.dag, m);
    assert Core(u, s);
    AddKeepsCore(cfg, u, s, m.c);
    AddGrowsKeys(cfg, s, m.c);
  }

  lemma MissingMeansBlocked(cfg: Config, u: Graph, n: NodeState, m: Msg)
    requires Of(u, m.c) && AddOutcome(PrimarySaves(cfg, n.dag, m), m.c) == MissingParents
    ensures Blocked(u, n.dag.index, m.c.Digest())
  {
    var s := PrimarySaves(cfg, n.dag, m);
    assert s.index == n.dag.index;
    var p :| p in m.c.Parents() && p !in s.Known();
    assert p !in s.index;
  }

  lemma AddedMeansDirect(cfg: Config, u: Graph, t: set<Hash>, n: NodeState, m: Msg)
    requires Of(u, m.c) && n.dag.index.Keys <= t && n.dag.store.Keys <= t
    requires AddOutcome(PrimarySaves(cfg, n.dag, m), m.c) == Added
    ensures Direct(u, t + {m.c.Digest()}, m.c.Digest())
  {
    assert PrimarySaves(cfg, n.dag, m).Known().Keys <= t + {m.c.Digest()};
  }

  lemma Account(u: Graph, t: set<Hash>, d: Hash, n: NodeState, s: DagState, orphans: map<Hash, Certificate>)
    requires Accounted(u, t, n) && Core(u, s) && s.store.Keys <= t + {d} && Drawn(u, orphans)
    requires s.index.Keys == n.dag.index.Keys || (s.index.Keys == n.dag.index.Keys + {d} && Direct(u, t + {d}, d))
    requires s.index.Keys + orphans.Keys == t + {d}
    ensures Accounted(u, t + {d}, NodeState(s, orphans))
  {}

  // Nothing new in the index: only the new certificate, if buffered, needs a reason to wait.
  lemma StillSettled(u: Graph, t: set<Hash>, d: Hash, n: NodeState, s: DagState, orphans: map<Hash, Certificate>)
    requires Settled(u, t, n) && Accounted(u, t + {d}, NodeState(s, orphans)) && s.index.Keys == n.dag.index.Keys
    requires forall x :: x in orphans ==> x in n.orphans || (x in u && Blocked(u, n.dag.index, x))
    ensures Settled(u, t + {d}, NodeState(s, orphans))
  {
    BlockedByKeys(u, n.dag.index, s.index);
  }

  lemma BufferSettles(u: Graph, t: set<Hash>, n: NodeState, d: Hash, s: DagState, orphans: map<Hash, Certificate>)
    requires Settled(u, t, n) && d in u && Blocked(u, n.dag.index, d)
    requires Core(u, s) && s.store.Keys <= t + {d} && s.index.Keys == n.dag.index.Keys
    requires Drawn(u, orphans) && orphans.Keys == n.orphans.Keys + {d}
    ensures Settled(u, t + {d}, NodeState(s, orphans))
  {
    Account(u, t, d, n, s, orphans);
    StillSettled(u, t, d, n, s, orphans);
  }

  lemma BufferedHolds(u: Graph, orphans: map<Hash, Certificate>, c: Certificate)
    requires Drawn(u, orphans) && Of(u, c) && (|orphans| < ORPHAN_CERT_CAP || c.Digest() in orphans)
    ensures Drawn(u, Buffered(orphans, c)) && Buffered(orphans, c).Keys == orphans.Keys + {c.Digest()}
  {}

  lemma DeliveryIgnores(cfg: Config, u: Graph, t: set<Hash>, n: NodeState, m: Msg)
    requires World(u) && Settled(u, t, n) && Of(u, m.c)
    requires AddOutcome(PrimarySaves(cfg, n.dag, m), m.c) == DuplicateHeader
    ensures Settled(u, t + {m.c.Digest()}, NodeState(AfterAdd(cfg, n, m), n.orphans))
  {
    var d, s := m.c.Digest(), AfterAdd(cfg, n, m);
    AfterAddCore(cfg, u, t, n, m);
    SlotTakenMeansIndexed(u, n.dag, m.c);
    Account(u, t, d, n, s, n.orphans);
    StillSettled(u, t, d, n, s, n.orphans);
  }

  lemma DeliveryAdds(cfg: Config, u: Graph, t: set<Hash>, n: NodeState, m: Msg)
    requires World(u) && Accounted(u, t, n) && Of(u, m.c)
    requires AddOutcome(PrimarySaves(cfg, n.dag, m), m.c) == Added
    ensures Accounted(u, t + {m.c.Digest()}, NodeState(AfterAdd(cfg, n, m), n.orphans))
    ensures AfterAdd(cfg, n, m).index.Keys == n.dag.index.Keys + {m.c.Digest()}
  {
    AfterAddCore(cfg, u, t, n, m);
    AddedMeansDirect(cfg, u, t, n, m);
    Account(u, t, m.c.Digest(), n, AfterAdd(cfg, n, m), n.orphans);
  }

  lemma DeliverySettles(cfg: Config, u: Graph, t: set<Hash>, n: NodeState, m: Msg, n': NodeState)
    requires World(u) && Settled(u, t, n) && Of(u, m.c) && Delivered(cfg, n, m, n') && !Dropped(cfg, n, m)
    ensures Settled(u, t + {m.c.Digest()}, n') && n.dag.index.Keys <= n'.dag.index.Keys
  {
    match AddOutcome(PrimarySaves(cfg, n.dag, m), m.c)
    case Added =>
      DeliveryAdds(cfg, u, t, n, m);
      DrainSettles(cfg, u, t + {m.c.Digest()}, NodeState(AfterAdd(cfg, n, m), n.orphans), n');
    case MissingParents =>
      AfterAddCore(cfg, u, t, n, m);
      MissingMeansBlocked(cfg, u, n, m);
      BufferedHolds(u, n.orphans, m.c);
      BufferSettles(u, t, n, m.c.Digest(), AfterAdd(cfg, n, m), Buffered(n.orphans, m.c));
    case DuplicateHeader =>
      DeliveryIgnores(cfg, u, t, n, m);
      AfterAddCore(cfg, u, t, n, m);
  }

  lemma BlockedByKeys(u: Graph, index: map<Hash, Certificate>, index': map<Hash, Certificate>)
    requires index.Keys == index'.Keys
    ensures forall d :: d in u ==> (Blocked(u, index, d) <==> Blocked(u, index', d))
  {}

  // ---- Whole runs ---------------------------------------------------------------------------

  // ns lists the states of a run that delivers msgs, starting from an empty node and never
  // dropping a certificate because the buffer is full.
  ghost predicate Deliveries(cfg: Config, u: Graph, msgs: seq<Msg>, ns: seq<NodeState>) {
    && |ns| == |msgs| + 1 && ns[0] == NodeState(Empty(), map[])
    && forall i :: 0 <= i < |msgs| ==> Handled(cfg, u, ns[i], msgs[i], ns[i + 1])
  }

  ghost predicate Handled(cfg: Config, u: Graph, n: NodeState, m: Msg, n': NodeState) {
    Of(u, m.c) && Delivered(cfg, n, m, n') && !Dropped(cfg, n, m)
  }

  ghost function Sent(msgs: seq<Msg>): set<Hash> {
    set m | m in msgs :: m.c.Digest()
  }

  lemma SentSnoc(msgs: seq<Msg>, m: Msg)
    ensures Sent(msgs + [m]) == Sent(msgs) + {m.c.Digest()}
  {}

  lemma HandledSettles(cfg: Config, u: Graph, t: set<Hash>, n: NodeState, m: Msg, n': NodeState)
    requires World(u) && Settled(u, t, n) && Handled(cfg, u, n, m, n')
    ensures Settled(u, t + {m.c.Digest()}, n') && n.dag.index.Keys <= n'.dag.index.Keys
  {
    DeliverySettles(cfg, u, t, n, m, n');
  }

  lemma {:induction false} RunSettles(cfg: Config, u: Graph, msgs: seq<Msg>, ns: seq<NodeState>, i: nat)
    requires World(u) && Deliveries(cfg, u, msgs, ns) && i <= |msgs|
    ensures Settled(u, Sent(msgs[..i]), ns[i])
    decreases i
  {
    if i == 0 {
      assert Sent(msgs[..i]) == {};
    } else {
      RunSettles(cfg, u, msgs, ns, i - 1);
      assert msgs[..i] == msgs[..i - 1] + [msgs[i - 1]];
      SentSnoc(msgs[..i - 1], msgs[i - 1]);
      assert Handled(cfg, u, ns[i - 1], msgs[i - 1], ns[i - 1 + 1]);
      HandledSettles(cfg, u, Sent(msgs[..i - 1]), ns[i - 1], msgs[i - 1], ns[i]);
    }
  }

  // d was delivered together with all of its ancestors.
  ghost predicate Grounded(u: Graph, t: set<Hash>, d: Hash)
    decreases if d in u then u[d].Round() else 0
  {
    && d in u && d in t
    && (u[d].Round() == 0 || forall p :: p in u[d].Parents() ==>
      p in u && u[p].Round() < u[d].Round() && Grounded(u, t, p))
  }

  lemma {:induction false} GroundedIsIndexed(u: Graph, t: set<Hash>, n: NodeState, d: Hash)
    requires World(u) && Settled(u, t, n) && Grounded(u, t, d)
    ensures d in n.dag.index
    decreases u[d].Round()
  {
    if d !in n.dag.index {
      var p :| p in u[d].Parents() && p !in n.dag.index;
      GroundedIsIndexed(u, t, n, p);
    }
  }

  // After any deliveries, in any order and with any repetition, the DAG holds at least the
  // delivered certificates all of whose ancestors were delivered, and at most those whose
  // parents were.
  lemma DagIsSandwiched(cfg: Config, u: Graph, msgs: seq<Msg>, ns: seq<NodeState>)
    requires World(u) && Deliveries(cfg, u, msgs, ns)
    ensures var t, index := Sent(msgs), ns[|msgs|].dag.index;
      && (forall d :: Grounded(u, t, d) ==> d in index)
      && (forall d :: d in index ==> d in t && Direct(u, t, d) && index[d] == u[d])
  {
    RunSettles(cfg, u, msgs, ns, |msgs|);
    assert msgs[..|msgs|] == msgs;
    forall d | Grounded(u, Sent(msgs), d) ensures d in ns[|msgs|].dag.index {
      GroundedIsIndexed(u, Sent(msgs), ns[|msgs|], d);
    }
  }

  ghost predicate Closed(u: Graph, t: set<Hash>) {
    forall d :: d in t ==> Direct(u, t, d)
  }

  lemma {:induction false} ClosedIsGrounded(u: Graph, t: set<Hash>, d: Hash)
    requires World(u) && Closed(u, t) && d in t
    ensures Grounded(u, t, d)
    decreases u[d].Round()
  {
    if u[d].Round() > 0 {
      forall p | p in u[d].Parents() ensures p in u && u[p].Round() < u[d].Round() && Grounded(u, t, p) {
        assert Direct(u, t, p);
        ClosedIsGrounded(u, t, p);
      }
    }
  }

  // index holds exactly the certificates of t.
  ghost predicate Exactly(u: Graph, index: map<Hash, Certificate>, t: set<Hash>) {
    index.Keys == t && Drawn(u, index)
  }

  // Confluence: a parent-closed set, delivered in any order and with any repetition, ends up
  // in the DAG exactly.
  lemma ClosedSetsConverge(cfg: Config, u: Graph, msgs: seq<Msg>, ns: seq<NodeState>)
    requires World(u) && Deliveries(cfg, u, msgs, ns) && Closed(u, Sent(msgs))
    ensures Exactly(u, ns[|msgs|].dag.index, Sent(msgs))
  {
    var t, index := Sent(msgs), ns[|msgs|].dag.index;
    DagIsSandwiched(cfg, u, msgs, ns);
    forall d | d in t ensures d in index {
      ClosedIsGrounded(u, t, d);
    }
    assert forall d :: d in index ==> d in t;
    assert index.Keys == t;
  }

  // ---- The buffer -----------------------------------------------------------------------------

  ghost predicate Disjoint(n: NodeState) {
    n.dag.index.Keys !! n.orphans.Keys
  }

  lemma {:induction false} ReplayKeepsDisjoint(cfg: Config, n: NodeState, tries: seq<Certificate>)
    requires Disjoint(n) && Tries(cfg, n, tries)
    ensures Disjoint(Replayed(cfg, n, tries))
    decreases |tries|
  {
    if tries != [] {
      ReplayKeepsDisjoint(cfg, n, tries[..|tries| - 1]);
      AddGrowsKeys(cfg, Replayed(cfg, n, tries[..|tries| - 1]).dag, tries[|tries| - 1]);
    }
  }

  lemma FirstDeliveryKeepsDisjoint(cfg: Config, u: Graph, t: set<Hash>, n: NodeState, m: Msg, n': NodeState)
    requires World(u) && Settled(u, t, n) && Disjoint(n) && Handled(cfg, u, n, m, n') && m.c.Digest() !in t
    ensures Disjoint(n')
  {
    var s, added := PrimarySaves(cfg, n.dag, m), NodeState(AfterAdd(cfg, n, m), n.orphans);
    AddGrowsKeys(cfg, s, m.c);
    if AddOutcome(s, m.c) == Added {
      var tries :| Tries(cfg, added, tries) && Replayed(cfg, added, tries) == n';
      ReplayKeepsDisjoint(cfg, added, tries);
    }
  }

  ghost predicate NoRepeats(msgs: seq<Msg>) {
    forall i, j :: 0 <= i < j < |msgs| ==> msgs[i].c.Digest() != msgs[j].c.Digest()
  }

  lemma {:induction false} RunKeepsDisjoint(cfg: Config, u: Graph, msgs: seq<Msg>, ns: seq<NodeState>, i: nat)
    requires World(u) && Deliveries(cfg, u, msgs, ns) && NoRepeats(msgs) && i <= |msgs|
    ensures Disjoint(ns[i])
    decreases i
  {
    if i > 0 {
      RunKeepsDisjoint(cfg, u, msgs, ns, i - 1);
      RunSettles(cfg, u, msgs, ns, i - 1);
      assert Handled(cfg, u, ns[i - 1], msgs[i - 1], ns[i - 1 + 1]);
      FirstDeliveryKeepsDisjoint(cfg, u, Sent(msgs[..i - 1]), ns[i - 1], msgs[i - 1], ns[i]);
    }
  }

  // When each certificate of a closed set is delivered once, the buffer ends empty.
  lemma ClosedSetsEmptyTheBuffer(cfg: Config, u: Graph, msgs: seq<Msg>, ns: seq<NodeState>)
    requires World(u) && Deliveries(cfg, u, msgs, ns) && Closed(u, Sent(msgs)) && NoRepeats(msgs)
    ensures ns[|msgs|].orphans == map[]
  {
    ClosedSetsConverge(cfg, u, msgs, ns);
    RunSettles(cfg, u, msgs, ns, |msgs|);
    assert msgs[..|msgs|] == msgs;
    RunKeepsDisjoint(cfg, u, msgs, ns, |msgs|);
    assert ns[|msgs|].orphans.Keys == {};
  }

  lemma AddedLeaksIff(cfg: Config, u: Graph, t: set<Hash>, d: Hash, n: NodeState, n': NodeState)
    requires World(u) && Accounted(u, t, n) && Drained(cfg, n, n') && d in n.dag.index
    requires d !in n.orphans ==> Disjoint(n)
    ensures !Disjoint(n') <==> d in n.orphans
  {
    var tries :| Tries(cfg, n, tries) && Replayed(cfg, n, tries) == n';
    if d in n.orphans {
      DuplicateStays(cfg, u, t, n, tries, d);
      assert d in n'.dag.index.Keys * n'.orphans.Keys;
    } else {
      ReplayKeepsDisjoint(cfg, n, tries);
    }
  }

  // A repeated delivery leaves a certificate in both the DAG and the buffer exactly when it
  // was buffered and is now accepted directly: replay then sees only a duplicate of it.
  lemma LeakIff(cfg: Config, u: Graph, t: set<Hash>, n: NodeState, m: Msg, n': NodeState)
    requires World(u) && Settled(u, t, n) && Disjoint(n) && Handled(cfg, u, n, m, n')
    ensures !Disjoint(n') <==> m.c.Digest() in n.orphans && AddOutcome(PrimarySaves(cfg, n.dag, m), m.c) == Added
  {
    var d := m.c.Digest();
    match AddOutcome(PrimarySaves(cfg, n.dag, m), m.c)
    case Added =>
      DeliveryAdds(cfg, u, t, n, m);
      AddedLeaksIff(cfg, u, t + {d}, d, NodeState(AfterAdd(cfg, n, m), n.orphans), n');
    case MissingParents =>
      AddGrowsKeys(cfg, PrimarySaves(cfg, n.dag, m), m.c);
      SlotTakenMeansIndexed(u, n.dag, m.c);
    case DuplicateHeader =>
      AddGrowsKeys(cfg, PrimarySaves(cfg, n.dag, m), m.c);
  }

  lemma {:induction false} DuplicateStays(cfg: Config, u: Graph, t: set<Hash>, n: NodeState, tries: seq<Certificate>,
                                          d: Hash)
    requires World(u) && Accounted(u, t, n) && Tries(cfg, n, tries) && d in n.orphans && d in n.dag.index
    ensures d in Replayed(cfg, n, tries).orphans && d in Replayed(cfg, n, tries).dag.index
    decreases |tries|
  {
    if tries != [] {
      var before, c := tries[..|tries| - 1], tries[|tries| - 1];
      DuplicateStays(cfg, u, t, n, before, d);
      ReplayAccounts(cfg, u, t, n, before);
      AddGrowsKeys(cfg, Replayed(cfg, n, before).dag, c);
      SlotTakenMeansIndexed(u, Replayed(cfg, n, before).dag, c);
    }
  }

  // The delivered certificate's store write supplies the only parent that orphan o, whose slot is
  // free, was waiting for.
  ghost predicate Frees(cfg: Config, n: NodeState, m: Msg, o: Certificate) {
    m.verified && cfg.hasStore && !SlotTaken(n.dag, o) && o.Parents() - n.dag.Known().Keys == {m.c.Digest()}
  }

  lemma FreedIff(cfg: Config, n: NodeState, m: Msg, o: Certificate)
    requires AddOutcome(n.dag, o) != Added && AddOutcome(PrimarySaves(cfg, n.dag, m), m.c) != Added
    ensures AddOutcome(AfterAdd(cfg, n, m), o) == Added <==> Frees(cfg, n, m, o)
  {
    var s := AfterAdd(cfg, n, m);
    assert s.Known().Keys == n.dag.Known().Keys + (if m.verified && cfg.hasStore then {m.c.Digest()} else {});
    assert SlotTaken(s, o) <==> SlotTaken(n.dag, o);
    if !SlotTaken(n.dag, o) {
      assert o.Round() > 0;
      OnlyMissing(o.Parents(), n.dag.Known().Keys, m.c.Digest());
    }
  }

  // A refused delivery, for missing parents or for a taken slot, leaves an addable orphan behind
  // exactly when it frees one.
  lemma LeftBehindIff(cfg: Config, n: NodeState, m: Msg, n': NodeState)
    requires Quiet(n) && AddOutcome(PrimarySaves(cfg, n.dag, m), m.c) != Added && Delivered(cfg, n, m, n')
    ensures !Quiet(n') <==> exists d :: d in n.orphans && Frees(cfg, n, m, n.orphans[d])
  {
    forall d | d in n.orphans
      ensures AddOutcome(AfterAdd(cfg, n, m), n.orphans[d]) == Added <==> Frees(cfg, n, m, n.orphans[d])
    {
      FreedIff(cfg, n, m, n.orphans[d]);
    }
    StillRefused(cfg, n, m);
    BufferedOnlyAdds(n.orphans, m.c);
    QuietAfter(n, n', AfterAdd(cfg, n, m), m.c);
  }

  lemma QuietAfter(n: NodeState, n': NodeState, s: DagState, c: Certificate)
    requires n'.dag == s && AddOutcome(s, c) != Added
    requires forall d :: d in n.orphans ==> d in n'.orphans && n'.orphans[d] == n.orphans[d]
    requires forall d :: d in n'.orphans && d !in n.orphans ==> n'.orphans[d] == c
    ensures !Quiet(n') <==> exists d :: d in n.orphans && AddOutcome(s, n.orphans[d]) == Added
  {}

  // The refused certificate itself stays refused.
  lemma StillRefused(cfg: Config, n: NodeState, m: Msg)
    requires AddOutcome(PrimarySaves(cfg, n.dag, m), m.c) != Added
    ensures AddOutcome(AfterAdd(cfg, n, m), m.c) != Added
  {}

  lemma BufferedOnlyAdds(orphans: map<Hash, Certificate>, c: Certificate)
    ensures forall d :: d in orphans ==> d in Buffered(orphans, c) && Buffered(orphans, c)[d] == orphans[d]
    ensures forall d :: d in Buffered(orphans, c) && d !in orphans ==> Buffered(orphans, c)[d] == c
  {}

  lemma OnlyMissing(parents: set<Hash>, known: set<Hash>, d: Hash)
    requires !(parents <= known)
    ensures parents <= known + {d} <==> parents - known == {d}
  {
    if parents <= known + {d} {
      assert parents - known <= {d};
      assert parents - known != {} by { if parents - known == {} { EmptyDifference(parents, known); } }
    }
    if parents - known == {d} {
      forall p | p in parents ensures p in known + {d} { assert p in known || p in parents - known; }
    }
  }

  // A certificate for a slot that is taken, whatever it cites, is neither indexed nor buffered.
  lemma SecondIsIgnored(cfg: Config, n: NodeState, m: Msg, n': NodeState)
    requires SlotTaken(n.dag, m.c) && Delivered(cfg, n, m, n')
    ensures n'.dag.index == n.dag.index && n'.orphans == n.orphans
  {
    assert SlotTaken(PrimarySaves(cfg, n.dag, m), m.c);
  }

  // A certificate formed locally is saved and enters the DAG, but nothing is replayed.
  ghost function Formed(cfg: Config, n: NodeState, c: Certificate): NodeState {
    n.(dag := AddSpec(cfg, PrimarySaves(cfg, n.dag, Msg(c, true)), c))
  }

  // The formed certificate became resolvable, through the DAG or, when the DAG refused it, through
  // the store alone, and it was the only parent that orphan o, whose slot is free, was waiting for.
  ghost predicate FormedFrees(cfg: Config, n: NodeState, c: Certificate, o: Certificate) {
    var added := AddOutcome(PrimarySaves(cfg, n.dag, Msg(c, true)), c) == Added;
    && (added || cfg.hasStore) && !SlotTaken(n.dag, o) && (added ==> !SameSlot(o, c))
    && o.Parents() - n.dag.Known().Keys == {c.Digest()}
  }

  lemma FormedFreedIff(cfg: Config, n: NodeState, c: Certificate, o: Certificate)
    requires AddOutcome(n.dag, o) != Added
    ensures AddOutcome(Formed(cfg, n, c).dag, o) == Added <==> FormedFrees(cfg, n, c, o)
  {
    FormedKnown(cfg, n, c);
    FormedSlots(cfg, n, c, o);
    if !SlotTaken(n.dag, o) {
      assert o.Round() > 0;
      OnlyMissing(o.Parents(), n.dag.Known().Keys, c.Digest());
    }
  }

  lemma FormedKnown(cfg: Config, n: NodeState, c: Certificate)
    ensures var added := AddOutcome(PrimarySaves(cfg, n.dag, Msg(c, true)), c) == Added;
      Formed(cfg, n, c).dag.Known().Keys == n.dag.Known().Keys + (if added || cfg.hasStore then {c.Digest()} else {})
  {}

  lemma FormedSlots(cfg: Config, n: NodeState, c: Certificate, o: Certificate)
    ensures var added := AddOutcome(PrimarySaves(cfg, n.dag, Msg(c, true)), c) == Added;
      SlotTaken(Formed(cfg, n, c).dag, o) <==> SlotTaken(n.dag, o) || (added && SameSlot(o, c))
  {}

  // So it leaves an addable orphan behind exactly when it frees one.
  lemma FormedLeavesBehindIff(cfg: Config, n: NodeState, c: Certificate)
    requires Quiet(n)
    ensures !Quiet(Formed(cfg, n, c)) <==> exists d :: d in n.orphans && FormedFrees(cfg, n, c, n.orphans[d])
  {
    forall d | d in n.orphans
      ensures AddOutcome(Formed(cfg, n, c).dag, n.orphans[d]) == Added <==> FormedFrees(cfg, n, c, n.orphans[d])
    {
      FormedFreedIff(cfg, n, c, n.orphans[d]);
    }
  }

  ghost predicate SameSlot(a: Certificate, b: Certificate) {
    a.Round() == b.Round() && a.Author() == b.Author()
  }

  // ---- The cap --------------------------------------------------------------------------------

  // A set no larger than the buffer's cap is never dropped.
  lemma SmallSetsAreNotDropped(cfg: Config, u: Graph, t: set<Hash>, n: NodeState, m: Msg)
    requires Settled(u, t, n) && |t + {m.c.Digest()}| <= ORPHAN_CERT_CAP
    ensures !Dropped(cfg, n, m)
  {
    if m.c.Digest() !in n.orphans {
      CardMono(n.orphans.Keys, t + {m.c.Digest()} - {m.c.Digest()});
      assert |n.orphans| == |n.orphans.Keys|;
    }
  }

  lemma {:induction false} ReplayShrinks(cfg: Config, n: NodeState, tries: seq<Certificate>)
    requires Tries(cfg, n, tries)
    ensures Replayed(cfg, n, tries).orphans.Keys <= n.orphans.Keys
    decreases |tries|
  {
    if tries != [] { ReplayShrinks(cfg, n, tries[..|tries| - 1]); }
  }

  // The buffer never outgrows its cap, whatever is delivered.
  lemma BufferStaysBounded(cfg: Config, n: NodeState, m: Msg, n': NodeState)
    requires |n.orphans| <= ORPHAN_CERT_CAP && Delivered(cfg, n, m, n')
    ensures |n'.orphans| <= ORPHAN_CERT_CAP
  {
    if AddOutcome(PrimarySaves(cfg, n.dag, m), m.c) == Added {
      var added := NodeState(AfterAdd(cfg, n, m), n.orphans);
      var tries :| Tries(cfg, added, tries) && Replayed(cfg, added, tries) == n';
      ReplayShrinks(cfg, added, tries);
      CardMono(n'.orphans.Keys, n.orphans.Keys);
      assert |n.orphans| == |n.orphans.Keys| && |n'.orphans| == |n'.orphans.Keys|;
    } else if AddOutcome(PrimarySaves(cfg, n.dag, m), m.c) == MissingParents && |n.orphans| < ORPHAN_CERT_CAP {
      assert n'.orphans.Keys <= n.orphans.Keys + {m.c.Digest()};
      CardMono(n'.orphans.Keys, n.orphans.Keys + {m.c.Digest()});
      assert |n.orphans| == |n.orphans.Keys| && |n'.orphans| == |n'.orphans.Keys|;
    }
  }

  // ---- When only the DAG writes the store -------------------------------------------------------

  // Everything in the index is grounded, and the store knows nothing more.
  ghost predicate OnlyGrounded(u: Graph, t: set<Hash>, n: NodeState) {
    n.dag.store.Keys <= n.dag.index.Keys && forall d :: d in n.dag.index ==> Grounded(u, t, d)
  }

  lemma {:induction false} GroundedMono(u: Graph, t: set<Hash>, t': set<Hash>, d: Hash)
    requires t <= t' && Grounded(u, t, d)
    ensures Grounded(u, t', d)
    decreases u[d].Round()
  {
    if u[d].Round() > 0 {
      forall p | p in u[d].Parents() ensures p in u && u[p].Round() < u[d].Round() && Grounded(u, t', p) {
        GroundedMono(u, t, t', p);
      }
    }
  }

  lemma AddKeepsGrounded(cfg: Config, u: Graph, t: set<Hash>, n: NodeState, c: Certificate,
                         orphans: map<Hash, Certificate>)
    requires World(u) && OnlyGrounded(u, t, n) && Drawn(u, n.dag.index) && Of(u, c) && c.Digest() in t
    ensures OnlyGrounded(u, t, NodeState(AddSpec(cfg, n.dag, c), orphans))
  {
    AddGrowsKeys(cfg, n.dag, c);
    if AddOutcome(n.dag, c) == Added {
      assert n.dag.Known().Keys == n.dag.index.Keys;
      assert Grounded(u, t, c.Digest());
    }
  }

  lemma {:induction false} ReplayKeepsGrounded(cfg: Config, u: Graph, t: set<Hash>, n: NodeState,
                                               tries: seq<Certificate>)
    requires World(u) && Accounted(u, t, n) && OnlyGrounded(u, t, n) && Tries(cfg, n, tries)
    ensures OnlyGrounded(u, t, Replayed(cfg, n, tries))
    decreases |tries|
  {
    if tries != [] {
      var before, c := tries[..|tries| - 1], tries[|tries| - 1];
      var mid := Replayed(cfg, n, before);
      ReplayKeepsGrounded(cfg, u, t, n, before);
      ReplayAccounts(cfg, u, t, n, before);
      AddKeepsGrounded(cfg, u, t, mid, c, Attempt(cfg, mid, c).orphans);
    }
  }

  lemma UnverifiedKeepsGrounded(cfg: Config, u: Graph, t: set<Hash>, n: NodeState, m: Msg, n': NodeState)
    requires World(u) && Settled(u, t, n) && OnlyGrounded(u, t, n) && Handled(cfg, u, n, m, n') && !m.verified
    ensures OnlyGrounded(u, t + {m.c.Digest()}, n')
  {
    var t', added := t + {m.c.Digest()}, NodeState(AfterAdd(cfg, n, m), n.orphans);
    forall d | d in n.dag.index ensures Grounded(u, t', d) { GroundedMono(u, t, t', d); }
    AddKeepsGrounded(cfg, u, t', n, m.c, n.orphans);
    if AddOutcome(n.dag, m.c) == Added {
      DeliveryAdds(cfg, u, t, n, m);
      var tries :| Tries(cfg, added, tries) && Replayed(cfg, added, tries) == n';
      ReplayKeepsGrounded(cfg, u, t', added, tries);
    }
  }

  lemma {:induction false} RunKeepsGrounded(cfg: Config, u: Graph, msgs: seq<Msg>, ns: seq<NodeState>, i: nat)
    requires World(u) && Deliveries(cfg, u, msgs, ns) && i <= |msgs| && forall m :: m in msgs ==> !m.verified
    ensures OnlyGrounded(u, Sent(msgs[..i]), ns[i])
    decreases i
  {
    if i > 0 {
      var t, m := Sent(msgs[..i - 1]), msgs[i - 1];
      assert Sent(msgs[..i]) == t + {m.c.Digest()} by {
        assert msgs[..i] == msgs[..i - 1] + [m];
        SentSnoc(msgs[..i - 1], m);
      }
      assert Settled(u, t, ns[i - 1]) by { RunSettles(cfg, u, msgs, ns, i - 1); }
      RunKeepsGrounded(cfg, u, msgs, ns, i - 1);
      assert Handled(cfg, u, ns[i - 1], m, ns[i - 1 + 1]) && m in msgs;
      UnverifiedKeepsGrounded(cfg, u, t, ns[i - 1], m, ns[i]);
    }
  }

  // If the store is written only through the DAG, every set converges, closed or not: the DAG
  // is exactly the part of it delivered with all its ancestors.
  lemma DagOnlyStoreConverges(cfg: Config, u: Graph, msgs: seq<Msg>, ns: seq<NodeState>)
    requires World(u) && Deliveries(cfg, u, msgs, ns) && forall m :: m in msgs ==> !m.verified
    ensures forall d :: d in ns[|msgs|].dag.index <==> Grounded(u, Sent(msgs), d)
  {
    DagIsSandwiched(cfg, u, msgs, ns);
    RunKeepsGrounded(cfg, u, msgs, ns, |msgs|);
    assert msgs[..|msgs|] == msgs;
  }

  // ---- Counterexamples ----------------------------------------------------------------------------

  // The certificate numbered d at round d, by author 0, citing certificate d - 1.
  ghost function Chain(d: nat): Certificate {
    Certificate(Header(0, d, 0, [], if d == 0 then [] else [CertRef(d - 1, d - 1)], 0, d, Sig(0, d, 0)), [])
  }

  ghost function ChainWorld(): Graph {
    map[0 := Chain(0), 1 := Chain(1), 2 := Chain(2)]
  }

  lemma ChainParents(d: nat)
    ensures Chain(d).Parents() == if d == 0 then {} else {d - 1}
  {}

  lemma ChainWorldIsWorld()
    ensures World(ChainWorld())
  {
    ChainParents(0);
    ChainParents(1);
    ChainParents(2);
  }

  // A node whose DAG is still empty, though some rounds may have been opened.
  ghost predicate Bare(n: NodeState) {
    n.dag.index == map[] && forall r :: r in n.dag.rounds ==> n.dag.rounds[r] == map[]
  }

  lemma ChainMisses(cfg: Config, n: NodeState, d: nat)
    requires Bare(n) && d > 0 && d - 1 !in n.dag.store
    ensures AddOutcome(PrimarySaves(cfg, n.dag, Msg(Chain(d), true)), Chain(d)) == MissingParents
  {
    ChainParents(d);
    assert d - 1 in Chain(d).Parents() && d - 1 !in PrimarySaves(cfg, n.dag, Msg(Chain(d), true)).Known();
  }

  lemma ChainIsBuffered(cfg: Config, n: NodeState, d: nat, n': NodeState)
    requires cfg.hasStore && Bare(n) && |n.orphans| < ORPHAN_CERT_CAP && d > 0 && d - 1 !in n.dag.store
    requires Delivered(cfg, n, Msg(Chain(d), true), n')
    ensures Bare(n') && n'.dag.store.Keys == n.dag.store.Keys + {d} && n'.orphans.Keys == n.orphans.Keys + {d}
  {
    ChainMisses(cfg, n, d);
    MissedDelivery(cfg, n, Msg(Chain(d), true), n');
    BareAfterMiss(cfg, n, Msg(Chain(d), true));
  }

  lemma BareAfterMiss(cfg: Config, n: NodeState, m: Msg)
    requires cfg.hasStore && m.verified && Bare(n) && |n.orphans| < ORPHAN_CERT_CAP
    ensures var s := PrimarySaves(cfg, n.dag, m).(rounds := Opened(n.dag.rounds, m.c.Round()));
      && Bare(NodeState(s, Buffered(n.orphans, m.c)))
      && s.store.Keys == n.dag.store.Keys + {m.c.Digest()}
      && Buffered(n.orphans, m.c).Keys == n.orphans.Keys + {m.c.Digest()}
  {
    BufferedKeys(n.orphans, m.c);
  }

  lemma MissedDelivery(cfg: Config, n: NodeState, m: Msg, n': NodeState)
    requires Delivered(cfg, n, m, n') && AddOutcome(PrimarySaves(cfg, n.dag, m), m.c) == MissingParents
    ensures n' == NodeState(AfterAdd(cfg, n, m), Buffered(n.orphans, m.c))
    ensures AfterAdd(cfg, n, m) == PrimarySaves(cfg, n.dag, m).(rounds := Opened(n.dag.rounds, m.c.Round()))
  {}

  lemma BufferedKeys(orphans: map<Hash, Certificate>, c: Certificate)
    requires |orphans| < ORPHAN_CERT_CAP
    ensures Buffered(orphans, c).Keys == orphans.Keys + {c.Digest()}
  {}

  lemma ChainIsAdded(cfg: Config, n: NodeState, d: nat)
    requires cfg.hasStore && Bare(n) && d > 0 && d - 1 in n.dag.store
    ensures AddOutcome(PrimarySaves(cfg, n.dag, Msg(Chain(d), true)), Chain(d)) == Added
  {
    ChainParents(d);
  }

  lemma RunStep(cfg: Config, u: Graph, msgs: seq<Msg>, ns: seq<NodeState>, i: nat)
    requires Deliveries(cfg, u, msgs, ns) && i < |msgs|
    ensures Handled(cfg, u, ns[i], msgs[i], ns[i + 1])
  {}

  // With certificate 0 missing, delivering 1 then 2 puts 2 in the DAG, because the primary has
  // stored 1; delivering 2 then 1 leaves the DAG empty.  Closure cannot be dropped.
  lemma OpenSetsDiverge(cfg: Config, ns: seq<NodeState>, ms: seq<NodeState>)
    requires cfg.hasStore
    requires Deliveries(cfg, ChainWorld(), [Msg(Chain(1), true), Msg(Chain(2), true)], ns)
    requires Deliveries(cfg, ChainWorld(), [Msg(Chain(2), true), Msg(Chain(1), true)], ms)
    ensures 2 in ns[2].dag.index && ms[2].dag.index == map[]
  {
    var u, m1, m2 := ChainWorld(), Msg(Chain(1), true), Msg(Chain(2), true);
    FirstBuffered(cfg, [m1, m2], ns, 1);
    FirstBuffered(cfg, [m2, m1], ms, 2);
    RunStep(cfg, u, [m2, m1], ms, 1);
    ChainIsBuffered(cfg, ms[1], 1, ms[2]);
    RunStep(cfg, u, [m1, m2], ns, 1);
    ChainIsAdded(cfg, ns[1], 2);
    ChainWorldIsWorld();
    RunSettles(cfg, u, [m1, m2], ns, 1);
    AddedIsIndexed(cfg, u, Sent([m1, m2][..1]), ns[1], m2, ns[2]);
  }

  lemma FirstBuffered(cfg: Config, msgs: seq<Msg>, ns: seq<NodeState>, d: nat)
    requires cfg.hasStore && d > 0 && |msgs| > 0 && msgs[0] == Msg(Chain(d), true)
      && Deliveries(cfg, ChainWorld(), msgs, ns)
    ensures Bare(ns[1]) && ns[1].dag.store.Keys == {d} && ns[1].orphans.Keys == {d} && |ns[1].orphans| == 1
  {
    RunStep(cfg, ChainWorld(), msgs, ns, 0);
    ChainIsBuffered(cfg, ns[0], d, ns[1]);
    assert |ns[1].orphans| == |ns[1].orphans.Keys|;
  }

  lemma AddedIsIndexed(cfg: Config, u: Graph, t: set<Hash>, n: NodeState, m: Msg, n': NodeState)
    requires World(u) && Settled(u, t, n) && Handled(cfg, u, n, m, n')
    requires AddOutcome(PrimarySaves(cfg, n.dag, m), m.c) == Added
    ensures m.c.Digest() in n'.dag.index
  {
    DeliveryAdds(cfg, u, t, n, m);
    DrainSettles(cfg, u, t + {m.c.Digest()}, NodeState(AfterAdd(cfg, n, m), n.orphans), n');
  }

  // After 2 and then 1, certificate 2 could be added, but stays in the buffer.
  lemma OrphanLeftBehind(cfg: Config, ms: seq<NodeState>)
    requires cfg.hasStore && Deliveries(cfg, ChainWorld(), [Msg(Chain(2), true), Msg(Chain(1), true)], ms)
    ensures 2 in ms[2].orphans && !Quiet(ms[2])
  {
    var u, msgs := ChainWorld(), [Msg(Chain(2), true), Msg(Chain(1), true)];
    FirstBuffered(cfg, msgs, ms, 2);
    RunStep(cfg, u, msgs, ms, 1);
    ChainIsBuffered(cfg, ms[1], 1, ms[2]);
    ChainWorldIsWorld();
    TwoIsAddable(ms[2]) by {
      assert 2 in ms[2].orphans.Keys && 1 in ms[2].dag.store.Keys;
      RunSettles(cfg, u, msgs, ms, 2);
    }
  }

  lemma TwoIsAddable(n: NodeState)
    requires Bare(n) && 1 in n.dag.store && 2 in n.orphans && Drawn(ChainWorld(), n.orphans)
    ensures !Quiet(n)
  {
    ChainParents(2);
    assert n.orphans[2] == Chain(2) && AddOutcome(n.dag, Chain(2)) == Added;
  }

  // With 0 in the DAG and 2 in the buffer, forming 1 adds it and leaves 2 behind.
  lemma FormedLeavesOrphan(cfg: Config, ns: seq<NodeState>)
    requires cfg.hasStore && Deliveries(cfg, ChainWorld(), [Msg(Chain(0), true), Msg(Chain(2), true)], ns)
    ensures var n := Formed(cfg, ns[2], Chain(1)); 1 in n.dag.index && 2 in n.orphans && !Quiet(n)
  {
    var u, msgs := ChainWorld(), [Msg(Chain(0), true), Msg(Chain(2), true)];
    ChainWorldIsWorld();
    GenesisIndexed(cfg, msgs, ns);
    RunStep(cfg, u, msgs, ns, 1);
    MissesOne(cfg, ns[1], ns[2]);
    RunSettles(cfg, u, msgs, ns, 2);
    FormedFreesTwo(cfg, ns[2]);
  }

  lemma GenesisIndexed(cfg: Config, msgs: seq<Msg>, ns: seq<NodeState>)
    requires |msgs| > 0 && msgs[0] == Msg(Chain(0), true) && Deliveries(cfg, ChainWorld(), msgs, ns)
    ensures 0 in ns[1].dag.index && Accounted(ChainWorld(), {0}, ns[1])
  {
    var u := ChainWorld();
    ChainWorldIsWorld();
    RunStep(cfg, u, msgs, ns, 0);
    FirstIsAdded(cfg, u, msgs[0], ns[0], ns[1]);
  }

  lemma FirstIsAdded(cfg: Config, u: Graph, m: Msg, n: NodeState, n': NodeState)
    requires World(u) && n == NodeState(Empty(), map[]) && m.c.Round() == 0 && Handled(cfg, u, n, m, n')
    ensures m.c.Digest() in n'.dag.index && Accounted(u, {m.c.Digest()}, n')
  {
    EmptyIsSettled(u);
    HandledSettles(cfg, u, {}, n, m, n');
    assert {} + {m.c.Digest()} == {m.c.Digest()};
    FirstIsAccepted(cfg, m);
    AddedIsIndexed(cfg, u, {}, n, m, n');
  }

  lemma EmptyIsSettled(u: Graph)
    ensures Settled(u, {}, NodeState(Empty(), map[]))
  {}

  lemma FirstIsAccepted(cfg: Config, m: Msg)
    requires m.c.Round() == 0
    ensures AddOutcome(PrimarySaves(cfg, Empty(), m), m.c) == Added
  {}

  lemma MissesOne(cfg: Config, n: NodeState, n': NodeState)
    requires 0 in n.dag.index && Accounted(ChainWorld(), {0}, n) && Delivered(cfg, n, Msg(Chain(2), true), n')
    ensures 0 in n'.dag.index && n'.dag.index == n.dag.index && n'.orphans.Keys == n.orphans.Keys + {2}
  {
    var m := Msg(Chain(2), true);
    ChainWorldIsWorld();
    ChainParents(2);
    SlotTakenMeansIndexed(ChainWorld(), n.dag, Chain(2));
    assert 2 !in n.dag.index.Keys && 1 !in PrimarySaves(cfg, n.dag, m).Known().Keys;
    assert AddOutcome(PrimarySaves(cfg, n.dag, m), m.c) == MissingParents;
    CardMono(n.orphans.Keys, {0});
    assert |n.orphans| == |n.orphans.Keys|;
    BufferedKeys(n.orphans, m.c);
  }

  lemma FormedFreesTwo(cfg: Config, n: NodeState)
    requires Core(ChainWorld(), n.dag) && Drawn(ChainWorld(), n.orphans)
    requires 0 in n.dag.index && 1 !in n.dag.index && 2 !in n.dag.index && 2 in n.orphans
    ensures var n' := Formed(cfg, n, Chain(1)); 1 in n'.dag.index && 2 in n'.orphans && !Quiet(n')
  {
    var u := ChainWorld();
    ChainWorldIsWorld();
    ChainParents(1);
    ChainParents(2);
    SlotTakenMeansIndexed(u, n.dag, Chain(1));
    SlotTakenMeansIndexed(u, n.dag, Chain(2));
    var n' := Formed(cfg, n, Chain(1));
    FormedSlots(cfg, n, Chain(1), Chain(2));
    assert 1 in n'.dag.index && AddOutcome(n'.dag, Chain(2)) == Added;
    assert n'.orphans[2] == Chain(2);
  }

  // Delivering 2, 1, 2 again and 0 leaves certificate 2 in the buffer for good, although the
  // DAG is complete.
  lemma RedeliveryLeaks(cfg: Config, ns: seq<NodeState>)
    requires cfg.hasStore
    requires Deliveries(cfg, ChainWorld(),
      [Msg(Chain(2), true), Msg(Chain(1), true), Msg(Chain(2), true), Msg(Chain(0), true)], ns)
    ensures 2 in ns[4].orphans && ns[4].dag.index.Keys == {0, 1, 2}
  {
    var u, m0 := ChainWorld(), Msg(Chain(0), true);
    var msgs := [Msg(Chain(2), true), Msg(Chain(1), true), Msg(Chain(2), true), m0];
    RedeliveredStays(cfg, msgs, ns);
    RunStep(cfg, u, msgs, ns, 3);
    ChainWorldIsWorld();
    LeakPersists(cfg, u, Sent(msgs[..3]), ns[3], m0, ns[4], 2) by { RunSettles(cfg, u, msgs, ns, 3); }
    ChainIsClosed(msgs);
    ClosedSetsConverge(cfg, u, msgs, ns);
  }

  lemma RedeliveredStays(cfg: Config, msgs: seq<Msg>, ns: seq<NodeState>)
    requires cfg.hasStore
      && msgs == [Msg(Chain(2), true), Msg(Chain(1), true), Msg(Chain(2), true), Msg(Chain(0), true)]
    requires Deliveries(cfg, ChainWorld(), msgs, ns)
    ensures 2 in ns[3].orphans && 2 in ns[3].dag.index
  {
    var u, m2 := ChainWorld(), Msg(Chain(2), true);
    ChainWorldIsWorld();
    BothBuffered(cfg, msgs, ns);
    RunStep(cfg, u, msgs, ns, 2);
    ChainIsAdded(cfg, ns[2], 2);
    RunSettles(cfg, u, msgs, ns, 2);
    LeakStays(cfg, u, Sent(msgs[..2]), ns[2], m2, ns[3]);
  }

  lemma BothBuffered(cfg: Config, msgs: seq<Msg>, ns: seq<NodeState>)
    requires cfg.hasStore && |msgs| > 1 && msgs[0] == Msg(Chain(2), true) && msgs[1] == Msg(Chain(1), true)
    requires Deliveries(cfg, ChainWorld(), msgs, ns)
    ensures Bare(ns[2]) && 1 in ns[2].dag.store && 2 in ns[2].orphans
  {
    FirstBuffered(cfg, msgs, ns, 2);
    RunStep(cfg, ChainWorld(), msgs, ns, 1);
    ChainIsBuffered(cfg, ns[1], 1, ns[2]);
    assert 1 in ns[2].dag.store.Keys && 2 in ns[2].orphans.Keys;
  }

  lemma ChainIsClosed(msgs: seq<Msg>)
    requires msgs == [Msg(Chain(2), true), Msg(Chain(1), true), Msg(Chain(2), true), Msg(Chain(0), true)]
    ensures Sent(msgs) == {0, 1, 2} && Closed(ChainWorld(), Sent(msgs))
  {
    ChainParents(0);
    ChainParents(1);
    ChainParents(2);
    assert msgs[0] in msgs && msgs[1] in msgs && msgs[3] in msgs;
  }

  lemma LeakStays(cfg: Config, u: Graph, t: set<Hash>, n: NodeState, m: Msg, n': NodeState)
    requires World(u) && Settled(u, t, n) && Handled(cfg, u, n, m, n')
    requires m.c.Digest() in n.orphans && AddOutcome(PrimarySaves(cfg, n.dag, m), m.c) == Added
    ensures m.c.Digest() in n'.orphans && m.c.Digest() in n'.dag.index
  {
    var d, added := m.c.Digest(), NodeState(AfterAdd(cfg, n, m), n.orphans);
    DeliveryAdds(cfg, u, t, n, m);
    var tries :| Tries(cfg, added, tries) && Replayed(cfg, added, tries) == n';
    DuplicateStays(cfg, u, t + {d}, added, tries, d);
  }

  // Once leaked, a certificate never leaves the buffer.
  lemma LeakPersists(cfg: Config, u: Graph, t: set<Hash>, n: NodeState, m: Msg, n': NodeState, d: Hash)
    requires World(u) && Settled(u, t, n) && Handled(cfg, u, n, m, n') && d in n.orphans && d in n.dag.index
    ensures d in n'.orphans && d in n'.dag.index
  {
    AddGrowsKeys(cfg, PrimarySaves(cfg, n.dag, m), m.c);
    if AddOutcome(PrimarySaves(cfg, n.dag, m), m.c) == Added {
      var added := NodeState(AfterAdd(cfg, n, m), n.orphans);
      DeliveryAdds(cfg, u, t, n, m);
      var tries :| Tries(cfg, added, tries) && Replayed(cfg, added, tries) == n';
      DuplicateStays(cfg, u, t + {m.c.Digest()}, added, tries, d);
    }
  }
}
