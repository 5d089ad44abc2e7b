// Which certificates get into the DAG unverified (looseberry.go): the handler goes on when the
// primary's verification fails, and the DAG never verifies.
module Admission {
  import opened Types
  import opened Lists
  import opened History
  import opened Dag
  import opened Orphans
  import opened Confluence
  import Votes

  ghost predicate Good(validators: set<nat>, c: Certificate) { Votes.Verifies(c, validators) }

  ghost function GoodOf(u: Graph, t: set<Hash>, validators: set<nat>): set<Hash> {
    set d | d in t && d in u && Good(validators, u[d])
  }

  // A run that delivers the certificates of t, in any order and any number of times; the primary's
  // verdict on each is that of Verify.
  ghost predicate Judging(cfg: Config, u: Graph, t: set<Hash>, validators: set<nat>, msgs: seq<Msg>,
                          ns: seq<NodeState>) {
    && Deliveries(cfg, u, msgs, ns) && Sent(msgs) == t
    && forall i :: 0 <= i < |msgs| ==> (msgs[i].verified <==> Good(validators, msgs[i].c))
  }

  // Whatever the order, only certificates that verify are indexed.
  ghost predicate AdmitsOnlyGood(cfg: Config, u: Graph, t: set<Hash>, validators: set<nat>) {
    forall msgs: seq<Msg>, ns: seq<NodeState> :: Judging(cfg, u, t, validators, msgs, ns) ==>
      ns[|msgs|].dag.index.Keys <= GoodOf(u, t, validators)
  }

  // Every other certificate cites one that does not verify or was not delivered.
  ghost predicate OthersBlocked(u: Graph, t: set<Hash>, good: set<Hash>) {
    forall d :: d in t - good && d in u ==> u[d].Round() > 0 && !(u[d].Parents() <= good)
  }

  // ---- Blocked certificates stay out -------------------------------------------------------------------

  ghost predicate Clean(good: set<Hash>, s: DagState) { s.index.Keys <= good && s.store.Keys <= good }

  lemma AddKeepsClean(cfg: Config, u: Graph, t: set<Hash>, good: set<Hash>, s: DagState, c: Certificate)
    requires OthersBlocked(u, t, good) && Clean(good, s) && Of(u, c) && c.Digest() in t
    ensures Clean(good, AddSpec(cfg, s, c))
  {
    if AddOutcome(s, c) == Added {
      assert c.Round() > 0 ==> c.Parents() <= good;
      assert c.Digest() in good;
    }
  }

  lemma {:induction false} ReplayKeepsClean(cfg: Config, u: Graph, t: set<Hash>, good: set<Hash>, n: NodeState,
                                            tries: seq<Certificate>)
    requires OthersBlocked(u, t, good) && Clean(good, n.dag) && Drawn(u, n.orphans) && n.orphans.Keys <= t && Keyed(u)
    requires Tries(cfg, n, tries)
    ensures var n' := Replayed(cfg, n, tries); Clean(good, n'.dag) && Drawn(u, n'.orphans) && n'.orphans.Keys <= t
    decreases |tries|
  {
    if tries != [] {
      var before, c := tries[..|tries| - 1], tries[|tries| - 1];
      ReplayKeepsClean(cfg, u, t, good, n, before);
      var n1 := Replayed(cfg, n, before);
      assert Of(u, c);
      AddKeepsClean(cfg, u, t, good, n1.dag, c);
    }
  }

  lemma HandledKeepsClean(cfg: Config, u: Graph, t: set<Hash>, good: set<Hash>, n: NodeState, m: Msg, n': NodeState)
    requires OthersBlocked(u, t, good) && Clean(good, n.dag) && Drawn(u, n.orphans) && n.orphans.Keys <= t && Keyed(u)
    requires Handled(cfg, u, n, m, n') && m.c.Digest() in t && (m.verified ==> m.c.Digest() in good)
    ensures Clean(good, n'.dag)
  {
    var s := PrimarySaves(cfg, n.dag, m);
    AddKeepsClean(cfg, u, t, good, s, m.c);
    if AddOutcome(s, m.c) == Added {
      var added := NodeState(AddSpec(cfg, s, m.c), n.orphans);
      var tries :| Tries(cfg, added, tries) && Replayed(cfg, added, tries) == n';
      ReplayKeepsClean(cfg, u, t, good, added, tries);
    }
  }

  lemma SentPrefix(msgs: seq<Msg>, i: nat)
    requires i <= |msgs|
    ensures Sent(msgs[..i]) <= Sent(msgs)
  {
    forall d | d in Sent(msgs[..i]) ensures d in Sent(msgs) {
      var m :| m in msgs[..i] && m.c.Digest() == d;
      assert m in msgs;
    }
  }

  lemma {:induction false} RunKeepsClean(cfg: Config, u: Graph, t: set<Hash>, validators: set<nat>, msgs: seq<Msg>,
                                         ns: seq<NodeState>, i: nat)
    requires World(u) && Judging(cfg, u, t, validators, msgs, ns) && i <= |msgs|
    requires OthersBlocked(u, t, GoodOf(u, t, validators))
    ensures Clean(GoodOf(u, t, validators), ns[i].dag)
    decreases i
  {
    if i > 0 {
      var j := i - 1;
      RunKeepsClean(cfg, u, t, validators, msgs, ns, j);
      RunSettles(cfg, u, msgs, ns, j);
      SentPrefix(msgs, j);
      RunStep(cfg, u, msgs, ns, j);
      assert msgs[j] in msgs && msgs[j].c.Digest() in t;
      assert ns[j].orphans.Keys <= ns[j].dag.index.Keys + ns[j].orphans.Keys == Sent(msgs[..j]);
      HandledKeepsClean(cfg, u, t, GoodOf(u, t, validators), ns[j], msgs[j], ns[j + 1]);
    }
  }

  // ---- Any other gets in ----------------------------------------------------------------------------------

  ghost function Judged(u: Graph, ds: seq<Hash>, validators: set<nat>): seq<Msg>
    requires forall i :: 0 <= i < |ds| ==> ds[i] in u
  {
    seq(|ds|, i requires 0 <= i < |ds| => Msg(u[ds[i]], Good(validators, u[ds[i]])))
  }

  lemma SentOfJudged(u: Graph, ds: seq<Hash>, validators: set<nat>)
    requires Keyed(u) && forall i :: 0 <= i < |ds| ==> ds[i] in u
    ensures Sent(Judged(u, ds, validators)) == Elems(ds)
    ensures forall i :: 0 <= i < |ds| ==> Of(u, Judged(u, ds, validators)[i].c)
  {
    var msgs := Judged(u, ds, validators);
    assert forall i :: 0 <= i < |ds| ==> msgs[i].c == u[ds[i]] && msgs[i].c.Digest() == ds[i];
    forall d | d in Elems(ds) ensures d in Sent(msgs) {
      var i :| 0 <= i < |ds| && ds[i] == d;
      assert msgs[i] in msgs && msgs[i].c.Digest() == d;
    }
  }

  // Once the good certificates are delivered, all of them are stored.
  lemma GoodAreStored(cfg: Config, u: Graph, validators: set<nat>, a: seq<Hash>, ds: seq<Hash>, ns: seq<NodeState>,
                      p: Hash)
    requires World(u) && cfg.hasStore && (forall i :: 0 <= i < |ds| ==> ds[i] in u)
    requires a <= ds && (forall d :: d in Elems(a) ==> d in u && Good(validators, u[d])) && p in Elems(a)
    requires Deliveries(cfg, u, Judged(u, ds, validators), ns)
    ensures p in ns[|a|].dag.store
  {
    var msgs := Judged(u, ds, validators);
    assert forall i :: 0 <= i < |a| ==> a[i] in Elems(a) && a[i] == ds[i];
    assert msgs[..|a|] == Messages(u, a);
    RunPrefix(cfg, u, msgs, ns, |a|);
    assert a[..|a|] == a;
    RunStores(cfg, u, a, ns[..|a| + 1], |a|, p);
  }

  // The good certificates, then d, then all.
  lemma GoodFirst(u: Graph, t: set<Hash>, validators: set<nat>, d: Hash) returns (a: seq<Hash>, ds: seq<Hash>)
    requires t <= u.Keys && d in t
    ensures Elems(a) == GoodOf(u, t, validators) && Elems(ds) == t && a <= ds && |a| < |ds| && ds[|a|] == d
    ensures forall i :: 0 <= i < |ds| ==> ds[i] in u
  {
    a := RisingOrder(u, GoodOf(u, t, validators));
    var b := RisingOrder(u, t);
    ds := a + [d] + b;
    ElemsAppend(a + [d], b);
    ElemsAppend(a, [d]);
    assert forall i :: 0 <= i < |ds| ==> ds[i] in Elems(ds);
  }

  lemma GoodParentsAreStored(cfg: Config, u: Graph, validators: set<nat>, a: seq<Hash>, ds: seq<Hash>,
                             ns: seq<NodeState>, c: Certificate)
    requires World(u) && cfg.hasStore && (forall i :: 0 <= i < |ds| ==> ds[i] in u) && a <= ds
    requires (forall d :: d in Elems(a) ==> d in u && Good(validators, u[d])) && c.Parents() <= Elems(a)
    requires Deliveries(cfg, u, Judged(u, ds, validators), ns)
    ensures c.Parents() <= ns[|a|].dag.store.Keys
  {
    forall p | p in c.Parents() ensures p in ns[|a|].dag.store.Keys {
      GoodAreStored(cfg, u, validators, a, ds, ns, p);
    }
  }

  // A certificate whose parents are stored is accepted.
  lemma LandsAt(cfg: Config, u: Graph, msgs: seq<Msg>, ns: seq<NodeState>, k: nat)
    requires World(u) && Deliveries(cfg, u, msgs, ns) && k < |msgs|
    requires msgs[k].c.Round() == 0 || msgs[k].c.Parents() <= ns[k].dag.store.Keys
    ensures msgs[k].c.Digest() in ns[k + 1].dag.index.Keys
  {
    RunSettles(cfg, u, msgs, ns, k);
    RunStep(cfg, u, msgs, ns, k);
    StoredParentsMeanIndexed(cfg, u, Sent(msgs[..k]), ns[k], msgs[k], ns[k + 1]);
  }

  lemma DeliverJudged(cfg: Config, u: Graph, t: set<Hash>, validators: set<nat>, ds: seq<Hash>)
    returns (msgs: seq<Msg>, ns: seq<NodeState>)
    requires World(u) && |t| <= ORPHAN_CERT_CAP && Elems(ds) == t && forall i :: 0 <= i < |ds| ==> ds[i] in u
    ensures msgs == Judged(u, ds, validators) && Judging(cfg, u, t, validators, msgs, ns)
  {
    msgs := Judged(u, ds, validators);
    SentOfJudged(u, ds, validators);
    ns := RunExists(cfg, u, msgs);
  }

  lemma UnblockedGetsIn(cfg: Config, u: Graph, t: set<Hash>, validators: set<nat>, d: Hash)
    returns (msgs: seq<Msg>, ns: seq<NodeState>)
    requires World(u) && cfg.hasStore && t <= u.Keys && |t| <= ORPHAN_CERT_CAP && d in t
    requires u[d].Round() == 0 || u[d].Parents() <= GoodOf(u, t, validators)
    ensures Judging(cfg, u, t, validators, msgs, ns) && d in ns[|msgs|].dag.index.Keys
  {
    var a, ds := GoodFirst(u, t, validators, d);
    msgs, ns := DeliverJudged(cfg, u, t, validators, ds);
    assert msgs[|a|].c == u[d] && u[d].Digest() == d;
    if u[d].Round() > 0 {
      GoodParentsAreStored(cfg, u, validators, a, ds, ns, u[d]);
    }
    LandsAt(cfg, u, msgs, ns, |a|);
    IndexGrows(cfg, u, msgs, ns, |a| + 1, |msgs|);
  }

  // Every order of delivery indexes only certificates that verify, exactly when each delivered
  // certificate that does not verify is above round 0 and cites one that does not verify or was not
  // delivered.
  lemma AdmitsOnlyGoodIff(cfg: Config, u: Graph, t: set<Hash>, validators: set<nat>)
    requires World(u) && cfg.hasStore && t <= u.Keys && |t| <= ORPHAN_CERT_CAP
    ensures AdmitsOnlyGood(cfg, u, t, validators) <==> OthersBlocked(u, t, GoodOf(u, t, validators))
  {
    var good := GoodOf(u, t, validators);
    if OthersBlocked(u, t, good) {
      forall msgs: seq<Msg>, ns: seq<NodeState> | Judging(cfg, u, t, validators, msgs, ns)
        ensures ns[|msgs|].dag.index.Keys <= good
      {
        RunKeepsClean(cfg, u, t, validators, msgs, ns, |msgs|);
      }
    } else {
      var d :| d in t - good && d in u && !(u[d].Round() > 0 && !(u[d].Parents() <= good));
      var msgs, ns := UnblockedGetsIn(cfg, u, t, validators, d);
      assert d in ns[|msgs|].dag.index.Keys && d !in good;
    }
  }

  // A round-0 certificate without votes does not verify, and is indexed.
  lemma UnverifiedIsIndexed(cfg: Config, validators: set<nat>, ns: seq<NodeState>)
    requires validators != {} && Deliveries(cfg, ChainWorld(), [Msg(Chain(0), false)], ns)
    ensures !Good(validators, Chain(0)) && 0 in ns[1].dag.index
  {
    var u, msgs := ChainWorld(), [Msg(Chain(0), false)];
    ChainWorldIsWorld();
    LandsAt(cfg, u, msgs, ns, 0);
  }
}
